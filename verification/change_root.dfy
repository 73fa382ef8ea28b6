/**
 * The `changeRoot` thunk: starts an editing session on a chosen node, but
 * only when no root is set yet.  The two plugin widgets, the two mounted
 * UI trees and the store are the state it touches.
 */
module ChangeRoot {
  import opened Common
  import DataReducer
  import Store

  /** A mounted UI tree, as the host returns it from `Roact.mount`. */
  type TreeHandle = nat

  /** The widget flags, the tree slots and the store the thunk works on. */
  class Session {
    var startEnabled: bool
    var timelineEnabled: bool
    var startTree: Option<TreeHandle>
    var timelineTree: Option<TreeHandle>
    /** The trees unmounted so far, in order (the host call `Roact.unmount`). */
    var unmounted: seq<TreeHandle>
    const store: Store.AppStore

    /** The plugin's state after start-up: the start widget shows its tree, the timeline is closed. */
    constructor (store: Store.AppStore, startTree: TreeHandle)
      ensures this.store == store
      ensures startEnabled && !timelineEnabled
      ensures this.startTree == Some(startTree) && timelineTree == None && unmounted == []
    {
      this.store := store;
      startEnabled := true;
      timelineEnabled := false;
      this.startTree := Some(startTree);
      timelineTree := None;
      unmounted := [];
    }

    /**
     * The thunk.  With a root already set nothing happens.  Otherwise the
     * start widget is closed and the timeline widget opened, a mounted start
     * tree is unmounted and its slot cleared, `SetCurrentRoot` is
     * dispatched with `inst` as root and no original root, and the timeline
     * tree `mounted` (the host's result of mounting) fills its slot.
     */
    method ChangeRoot(inst: InstanceId, mounted: TreeHandle)
      requires store.Valid()
      modifies this, store
      ensures store.Valid()
      ensures old(store.appData.root).Some? ==>
                store.appData == old(store.appData)
                && startEnabled == old(startEnabled) && timelineEnabled == old(timelineEnabled)
                && startTree == old(startTree) && timelineTree == old(timelineTree)
                && unmounted == old(unmounted)
      ensures old(store.appData.root).None? ==>
                store.appData == DataReducer.SetCurrentRoot(old(store.appData), Some(inst), None)
                && store.appData.root == Some(inst) && store.appData.originalRoot == None
                && !startEnabled && timelineEnabled
                && startTree == None && timelineTree == Some(mounted)
                && unmounted == old(unmounted) + (if old(startTree).Some? then [old(startTree).value] else [])
    {
      if store.appData.root.None? {
        startEnabled := false;
        timelineEnabled := true;
        match startTree {
          case Some(tree) =>
            unmounted := unmounted + [tree];
            startTree := None;
          case None =>
        }
        var _ := store.Dispatch(Store.SetCurrentRoot(Some(inst), None));
        timelineTree := Some(mounted);
      }
    }
  }
}

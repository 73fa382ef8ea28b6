/**
 * The application store's data slice: the root reducer routes each data
 * action to its handler and answers `ResetStore` with the initial state.
 * The theme slice is not part of this model.
 */
module Store {
  import opened Common
  import opened Values
  import DataReducer

  /** The data actions and the store-wide reset. */
  datatype Action =
    | SetCurrentRoot(root: Option<InstanceId>, originalRoot: Option<InstanceId>)
    | CreateInstanceProperty(instance: InstanceId, property: string)
    | UpdateKeyframe(update: DataReducer.KeyframeUpdate)
    | DeleteKeyframes(targets: seq<DataReducer.KeyframeRef>)
    | DeleteInstanceProperty(instance: InstanceId, property: string)
    | ResetStore

  /** The store: holds the current `appData` and replaces it on every dispatch. */
  class AppStore {
    var appData: DataReducer.State

    /** The store invariant of the data slice. */
    predicate Valid()
      reads this
    {
      DataReducer.Valid(appData)
    }

    /** A fresh store starts from the reducer's initial state. */
    constructor ()
      ensures appData == DataReducer.InitialState
      ensures Valid()
    {
      appData := DataReducer.InitialState;
    }

    /**
     * Runs the root reducer on `action`.  A handler that throws leaves the
     * state as it was and the error is returned; otherwise the state is
     * replaced by the handler's result.  `DeleteInstanceProperty` runs the
     * handler corrected to delete every keyframe of the property, which
     * differs from the handler as written when two of them are adjacent.
     */
    method Dispatch(action: Action) returns (error: Option<DataReducer.ReducerError>)
      requires Valid()
      modifies this
      ensures Valid()
      ensures error.Some? ==> action.DeleteInstanceProperty? && appData == old(appData)
      ensures action.ResetStore? ==> appData == DataReducer.InitialState
      ensures action.SetCurrentRoot? ==>
                appData == DataReducer.SetCurrentRoot(old(appData), action.root, action.originalRoot)
      ensures action.CreateInstanceProperty? ==>
                appData == DataReducer.Tracked(old(appData), action.instance, action.property)
      ensures action.UpdateKeyframe? ==> appData == DataReducer.Upserted(old(appData), action.update)
      ensures action.DeleteKeyframes? ==>
                appData == old(appData).(keyframes := DataReducer.AfterDeletes(old(appData).keyframes, action.targets))
      ensures action.DeleteInstanceProperty? ==>
                (error.Some? <==> action.instance !in old(appData).instances)
      ensures action.DeleteInstanceProperty? && error.None? ==>
                var id := DataReducer.IndexOf(old(appData).instances, action.instance);
                0 <= id < |old(appData).properties|
                && appData == old(appData).(properties := old(appData).properties[id := old(appData).properties[id] - {action.property}],
                                            keyframes := DataReducer.Others(old(appData).keyframes, action.instance, action.property))
    {
      error := None;
      match action
      case ResetStore =>
        appData := DataReducer.InitialState;
      case SetCurrentRoot(root, originalRoot) =>
        appData := DataReducer.SetCurrentRoot(appData, root, originalRoot);
      case CreateInstanceProperty(instance, property) =>
        appData := DataReducer.CreateInstanceProperty(appData, instance, property);
      case UpdateKeyframe(update) =>
        appData := DataReducer.UpdateKeyframe(appData, update);
      case DeleteKeyframes(targets) =>
        appData := DataReducer.DeleteKeyframes(appData, targets);
      case DeleteInstanceProperty(instance, property) =>
        var result := DataReducer.DeleteInstancePropertyIntended(appData, instance, property);
        match result
        case Ok(next) =>
          appData := next;
        case Err(e) =>
          error := Some(e);
    }
  }
}

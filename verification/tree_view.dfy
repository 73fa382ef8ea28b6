/**
 * The explorer tree view: flattens the scene under a root node into
 * numbered rows, descending only into expanded nodes and only into
 * children of the requested class.
 */
module TreeView {
  import opened Common

  /**
   * A scene node as the view sees it: its identity, the classes it `IsA`,
   * and its children in `GetChildren` order.
   */
  datatype Node = Node(id: InstanceId, classes: set<string>, children: seq<Node>)

  /** `IRow`: a 1-based row number, a nesting depth and the node shown. */
  datatype Row = Row(index: nat, depth: nat, item: InstanceId)

  /** A row before it is numbered. */
  datatype Entry = Entry(depth: nat, item: InstanceId)

  /**
   * The view's inputs that the flattening and the selection flags use.
   * `expanded` is the content of the `Expanded` set and `expandedRef` the
   * identity of the set object: two props can hold equal contents in
   * different objects, and one object can change its contents.
   */
  datatype Props = Props(rootItem: Node, expanded: set<InstanceId>, expandedRef: nat,
                         selected: Option<InstanceId>, baseClass: Option<string>)

  /** `child.IsA(BaseClass ?? 'Instance')` */
  predicate IsA(n: Node, baseClass: Option<string>) {
    baseClass.GetOr("Instance") in n.classes
  }

  /** The rows a node contributes, in pre-order: its own row, then those of its shown children. */
  function Visible(n: Node, depth: nat, expanded: set<InstanceId>, baseClass: Option<string>): seq<Entry>
    decreases n, |n.children| + 1
  {
    [Entry(depth, n.id)]
    + (if n.id in expanded then VisibleChildren(n, |n.children|, depth + 1, expanded, baseClass) else [])
  }

  /** The rows of the first `i` children of `n` that pass the class filter. */
  function VisibleChildren(n: Node, i: nat, depth: nat, expanded: set<InstanceId>, baseClass: Option<string>): seq<Entry>
    requires i <= |n.children|
    decreases n, i
  {
    if i == 0 then []
    else
      VisibleChildren(n, i - 1, depth, expanded, baseClass)
      + (if IsA(n.children[i - 1], baseClass) then Visible(n.children[i - 1], depth, expanded, baseClass) else [])
  }

  /** The identities of the first `i` children of `n` that pass the class filter, in order. */
  function ShownChildren(n: Node, i: nat, baseClass: Option<string>): seq<InstanceId>
    requires i <= |n.children|
  {
    if i == 0 then []
    else ShownChildren(n, i - 1, baseClass) + (if IsA(n.children[i - 1], baseClass) then [n.children[i - 1].id] else [])
  }

  /** Numbers entries consecutively from `first`. */
  function Numbered(es: seq<Entry>, first: nat): (r: seq<Row>)
    ensures |r| == |es|
  {
    seq(|es|, k requires 0 <= k < |es| => Row(first + k, es[k].depth, es[k].item))
  }

  /** Numbering a concatenation numbers the second part from where the first ends. */
  lemma NumberedAppend(a: seq<Entry>, b: seq<Entry>, first: nat)
    ensures Numbered(a + b, first) == Numbered(a, first) + Numbered(b, first + |a|)
  {
  }

  /** Numbering more entries after a numbered prefix extends the numbering of the whole. */
  lemma RowsStep(existing: seq<Row>, head: Entry, prev: seq<Entry>, mine: seq<Entry>)
    ensures var rows := existing + Numbered([head] + prev, |existing| + 1);
            rows + Numbered(mine, |rows| + 1) == existing + Numbered([head] + (prev + mine), |existing| + 1)
  {
    var before := [head] + prev;
    NumberedAppend(before, mine, |existing| + 1);
    assert before + mine == [head] + (prev + mine);
  }

  /** The items of the entries at exactly `depth`, in order. */
  function AtDepth(es: seq<Entry>, depth: nat): seq<InstanceId> {
    if es == [] then []
    else AtDepth(es[..|es| - 1], depth) + (if es[|es| - 1].depth == depth then [es[|es| - 1].item] else [])
  }

  lemma {:induction false} AtDepthAppend(a: seq<Entry>, b: seq<Entry>, depth: nat)
    ensures AtDepth(a + b, depth) == AtDepth(a, depth) + AtDepth(b, depth)
    decreases |b|
  {
    if b == [] {
      assert a + b == a;
    } else {
      assert (a + b)[..|a + b| - 1] == a + b[..|b| - 1];
      AtDepthAppend(a, b[..|b| - 1], depth);
    }
  }

  /** Entries all deeper than `depth` contribute nothing at `depth`. */
  lemma {:induction false} AtDepthNone(es: seq<Entry>, depth: nat)
    requires forall k :: 0 <= k < |es| ==> es[k].depth > depth
    ensures AtDepth(es, depth) == []
    decreases |es|
  {
    if es != [] {
      AtDepthNone(es[..|es| - 1], depth);
    }
  }

  /**
   * The flattened rows start at `depth` and never go above it, and from one
   * row to the next the depth grows by at most one.
   */
  predicate PreorderShape(es: seq<Entry>, depth: nat) {
    (forall k :: 0 <= k < |es| ==> es[k].depth >= depth)
    && (|es| > 0 ==> es[0].depth == depth)
    && (forall k :: 0 <= k < |es| - 1 ==> es[k + 1].depth <= es[k].depth + 1)
  }

  lemma ConcatShape(a: seq<Entry>, b: seq<Entry>, depth: nat)
    requires PreorderShape(a, depth) && PreorderShape(b, depth)
    ensures PreorderShape(a + b, depth)
  {
    var s := a + b;
    forall k | 0 <= k < |s|
      ensures s[k].depth >= depth
    {
      if k < |a| {
        assert s[k] == a[k];
      } else {
        assert s[k] == b[k - |a|];
      }
    }
    forall k | 0 <= k < |s| - 1
      ensures s[k + 1].depth <= s[k].depth + 1
    {
      if k + 1 < |a| {
        assert s[k] == a[k] && s[k + 1] == a[k + 1];
      } else if k + 1 == |a| {
        assert s[k] == a[k] && s[k + 1] == b[0];
      } else {
        assert s[k] == b[k - |a|] && s[k + 1] == b[k - |a| + 1];
      }
    }
  }

  /**
   * A node's rows: its own row first, at `depth`, every other row strictly
   * deeper, depths growing by at most one per row, and the rows one level
   * down are exactly its children that pass the filter, in `GetChildren`
   * order, when it is expanded, and none when it is collapsed.
   */
  lemma VisibleShape(n: Node, depth: nat, expanded: set<InstanceId>, baseClass: Option<string>)
    ensures var es := Visible(n, depth, expanded, baseClass);
            |es| >= 1 && es[0] == Entry(depth, n.id)
            && PreorderShape(es, depth)
            && (forall k :: 1 <= k < |es| ==> es[k].depth > depth)
            && AtDepth(es, depth + 1) == (if n.id in expanded then ShownChildren(n, |n.children|, baseClass) else [])
            && (n.id !in expanded ==> es == [Entry(depth, n.id)])
  {
    VisibleDepths(n, depth, expanded, baseClass);
    VisibleHead(n, depth, expanded, baseClass);
    VisibleLevel(n, depth, expanded, baseClass);
  }

  /** A node's rows go down at most one level per row and never above the node's own. */
  lemma {:induction false} VisibleDepths(n: Node, depth: nat, expanded: set<InstanceId>, baseClass: Option<string>)
    ensures PreorderShape(Visible(n, depth, expanded, baseClass), depth)
    decreases n, |n.children| + 1
  {
    var head := Entry(depth, n.id);
    if n.id in expanded {
      var cs := VisibleChildren(n, |n.children|, depth + 1, expanded, baseClass);
      ChildrenDepths(n, |n.children|, depth + 1, expanded, baseClass);
      assert Visible(n, depth, expanded, baseClass) == [head] + cs;
      ConsShape(head, cs);
    } else {
      assert Visible(n, depth, expanded, baseClass) == [head] + [];
    }
  }

  /** A node's rows start with its own; the rest are strictly deeper, and there are none when it is collapsed. */
  lemma VisibleHead(n: Node, depth: nat, expanded: set<InstanceId>, baseClass: Option<string>)
    ensures var es := Visible(n, depth, expanded, baseClass);
            |es| >= 1 && es[0] == Entry(depth, n.id)
            && (forall k :: 1 <= k < |es| ==> es[k].depth > depth)
            && (n.id !in expanded ==> es == [Entry(depth, n.id)])
  {
    var head := Entry(depth, n.id);
    if n.id in expanded {
      var cs := VisibleChildren(n, |n.children|, depth + 1, expanded, baseClass);
      ChildrenDepths(n, |n.children|, depth + 1, expanded, baseClass);
      assert Visible(n, depth, expanded, baseClass) == [head] + cs;
      ConsShape(head, cs);
    } else {
      assert Visible(n, depth, expanded, baseClass) == [head] + [];
    }
  }

  /** One level below a node, its rows show exactly its shown children when expanded. */
  lemma VisibleLevel(n: Node, depth: nat, expanded: set<InstanceId>, baseClass: Option<string>)
    ensures AtDepth(Visible(n, depth, expanded, baseClass), depth + 1)
            == (if n.id in expanded then ShownChildren(n, |n.children|, baseClass) else [])
  {
    var head := [Entry(depth, n.id)];
    assert AtDepth(head, depth + 1) == [] by {
      assert head[..0] == [];
    }
    if n.id in expanded {
      var cs := VisibleChildren(n, |n.children|, depth + 1, expanded, baseClass);
      ChildrenLevel(n, |n.children|, depth + 1, expanded, baseClass);
      assert Visible(n, depth, expanded, baseClass) == head + cs;
      AtDepthAppend(head, cs, depth + 1);
    } else {
      assert Visible(n, depth, expanded, baseClass) == head + [];
    }
  }

  /** A row followed by rows shaped one level below it is shaped at the row's level. */
  lemma ConsShape(e: Entry, cs: seq<Entry>)
    requires PreorderShape(cs, e.depth + 1)
    ensures PreorderShape([e] + cs, e.depth)
    ensures forall k :: 1 <= k < |[e] + cs| ==> ([e] + cs)[k].depth > e.depth
  {
    var es := [e] + cs;
    forall k | 1 <= k < |es|
      ensures es[k].depth > e.depth
    {
      assert es[k] == cs[k - 1];
    }
    forall k | 0 <= k < |es| - 1
      ensures es[k + 1].depth <= es[k].depth + 1
    {
      assert es[k + 1] == cs[k];
      if k > 0 {
        assert es[k] == cs[k - 1];
      }
    }
  }

  /** At its own depth a node's rows show only the node itself. */
  lemma OwnLevel(c: Node, depth: nat, expanded: set<InstanceId>, baseClass: Option<string>)
    ensures AtDepth(Visible(c, depth, expanded, baseClass), depth) == [c.id]
  {
    var mine := Visible(c, depth, expanded, baseClass);
    VisibleHead(c, depth, expanded, baseClass);
    var rest := mine[1..];
    assert mine == [mine[0]] + rest;
    AtDepthNone(rest, depth);
    AtDepthAppend([mine[0]], rest, depth);
    assert [mine[0]][..0] == [];
  }

  /** The rows of the first `i` shown children: each child's rows start one level down and never go above it. */
  lemma {:induction false} ChildrenDepths(n: Node, i: nat, depth: nat, expanded: set<InstanceId>, baseClass: Option<string>)
    requires i <= |n.children|
    ensures PreorderShape(VisibleChildren(n, i, depth, expanded, baseClass), depth)
    decreases n, i
  {
    if i > 0 {
      var c := n.children[i - 1];
      var prev := VisibleChildren(n, i - 1, depth, expanded, baseClass);
      var mine := if IsA(c, baseClass) then Visible(c, depth, expanded, baseClass) else [];
      ChildrenDepths(n, i - 1, depth, expanded, baseClass);
      if IsA(c, baseClass) {
        VisibleDepths(c, depth, expanded, baseClass);
      }
      ConcatShape(prev, mine, depth);
      ChildrenStep(n, i, depth, expanded, baseClass);
    }
  }

  /** The rows of the first `i` shown children extend those of the first `i - 1`. */
  lemma ChildrenStep(n: Node, i: nat, depth: nat, expanded: set<InstanceId>, baseClass: Option<string>)
    requires 0 < i <= |n.children|
    ensures VisibleChildren(n, i, depth, expanded, baseClass)
            == VisibleChildren(n, i - 1, depth, expanded, baseClass)
               + (if IsA(n.children[i - 1], baseClass) then Visible(n.children[i - 1], depth, expanded, baseClass) else [])
  {
  }

  /** At the children's level the rows of the first `i` shown children show exactly those children. */
  lemma {:induction false} ChildrenLevel(n: Node, i: nat, depth: nat, expanded: set<InstanceId>, baseClass: Option<string>)
    requires i <= |n.children|
    ensures AtDepth(VisibleChildren(n, i, depth, expanded, baseClass), depth) == ShownChildren(n, i, baseClass)
  {
    if i > 0 {
      var c := n.children[i - 1];
      var prev := VisibleChildren(n, i - 1, depth, expanded, baseClass);
      ChildrenLevel(n, i - 1, depth, expanded, baseClass);
      if IsA(c, baseClass) {
        var mine := Visible(c, depth, expanded, baseClass);
        AtDepthAppend(prev, mine, depth);
        OwnLevel(c, depth, expanded, baseClass);
        assert VisibleChildren(n, i, depth, expanded, baseClass) == prev + mine;
        assert ShownChildren(n, i, baseClass) == ShownChildren(n, i - 1, baseClass) + [c.id];
      } else {
        assert VisibleChildren(n, i, depth, expanded, baseClass) == prev by {
          assert prev + [] == prev;
        }
        assert ShownChildren(n, i, baseClass) == ShownChildren(n, i - 1, baseClass) by {
          assert ShownChildren(n, i - 1, baseClass) + [] == ShownChildren(n, i - 1, baseClass);
        }
      }
    }
  }

  /** The tree view component: its props and the rows it last computed. */
  class TreeViewComponent {
    var props: Props
    var rows: seq<Row>

    constructor (props: Props)
      ensures this.props == props && rows == []
    {
      this.props := props;
      rows := [];
    }

    /**
     * `contributeItem`: pushes the item's row, numbered after the rows
     * already present, then, when the item is expanded, contributes each
     * child that passes the class filter one level deeper.
     */
    method ContributeItem(item: Node, depth: nat, existingRows: seq<Row>) returns (rows: seq<Row>)
      ensures rows == existingRows + Numbered(Visible(item, depth, props.expanded, props.baseClass), |existingRows| + 1)
      decreases item
    {
      rows := existingRows + [Row(|existingRows| + 1, depth, item.id)];
      assert rows == existingRows + Numbered([Entry(depth, item.id)], |existingRows| + 1);
      if item.id in props.expanded {
        var children := item.children;
        var i := 0;
        while i < |children|
          invariant 0 <= i <= |children|
          invariant rows == existingRows
                            + Numbered([Entry(depth, item.id)]
                                       + VisibleChildren(item, i, depth + 1, props.expanded, props.baseClass),
                                       |existingRows| + 1)
        {
          var child := children[i];
          ghost var prev := VisibleChildren(item, i, depth + 1, props.expanded, props.baseClass);
          ghost var before := [Entry(depth, item.id)] + prev;
          if IsA(child, props.baseClass) {
            ghost var mine := Visible(child, depth + 1, props.expanded, props.baseClass);
            RowsStep(existingRows, Entry(depth, item.id), prev, mine);
            rows := ContributeItem(child, depth + 1, rows);
            assert VisibleChildren(item, i + 1, depth + 1, props.expanded, props.baseClass) == prev + mine;
          } else {
            assert VisibleChildren(item, i + 1, depth + 1, props.expanded, props.baseClass) == prev by {
              assert prev + [] == prev;
            }
          }
          i := i + 1;
        }
      }
    }

    /**
     * `calculateRows`: with previous props whose root item, `Expanded`
     * set object and selection are all identical, nothing is recomputed,
     * even when that set's contents changed; otherwise the rows become
     * the flattening of the root item from depth 0.
     */
    method CalculateRows(prevProps: Option<Props>)
      modifies this
      ensures props == old(props)
      ensures prevProps.Some? && Unchanged(prevProps.value, props) ==> rows == old(rows)
      ensures !(prevProps.Some? && Unchanged(prevProps.value, props)) ==>
                rows == Numbered(Visible(props.rootItem, 0, props.expanded, props.baseClass), 1)
    {
      if prevProps.Some? {
        if Unchanged(prevProps.value, props) {
          return;
        }
      }
      var computed := ContributeItem(props.rootItem, 0, []);
      rows := computed;
    }
  }

  /** `renderRow`: whether a row is drawn selected. */
  predicate IsSelected(props: Props, row: Row) {
    props.selected == Some(row.item)
  }

  /** `renderRow`: whether a row is drawn expanded. */
  predicate IsExpanded(props: Props, row: Row) {
    row.item in props.expanded
  }

  /** `renderRow`'s toggle handler: the item and the expansion state it asks for. */
  function ToggleRequest(props: Props, row: Row): (InstanceId, bool) {
    if row.item in props.expanded then (row.item, false) else (row.item, true)
  }

  /**
   * The skip test: the same root instance, the same `Expanded` set object
   * (its identity, not its contents) and the same selection.
   */
  predicate Unchanged(prev: Props, current: Props) {
    current.rootItem.id == prev.rootItem.id && current.expandedRef == prev.expandedRef && current.selected == prev.selected
  }

  /**
   * The rows of the whole tree: numbered 1..n in push order, the root first
   * at depth 0, the root's shown children exactly the depth-1 rows.
   */
  lemma TreeRows(props: Props)
    ensures var rows := Numbered(Visible(props.rootItem, 0, props.expanded, props.baseClass), 1);
            |rows| >= 1
            && rows[0] == Row(1, 0, props.rootItem.id)
            && (forall k :: 0 <= k < |rows| ==> rows[k].index == k + 1)
            && (forall k :: 1 <= k < |rows| ==> rows[k].depth >= 1)
            && (forall k :: 0 <= k < |rows| - 1 ==> rows[k + 1].depth <= rows[k].depth + 1)
  {
    VisibleShape(props.rootItem, 0, props.expanded, props.baseClass);
  }
}

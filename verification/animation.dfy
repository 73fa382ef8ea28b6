/**
 * The animation exporter: turns the keyframes of one tracked instance into
 * numbered groups, where group k holds the k-th keyframe (by position) of
 * every animated property, and describes the folders and keyframe objects
 * it creates for them.  Creating the host objects and parenting them under
 * the export folder are not part of this model.
 */
module Animation {
  import opened Common
  import opened Values
  import Sorting
  import opened DataReducer

  /** `IExportedKeyframe`: what survives of a keyframe in the export. */
  datatype ExportedKeyframe = ExportedKeyframe(
    position: real,
    property: string,
    easingStyle: string,
    easingDirection: string,
    value: KeyframeValue)

  /** A created `Keyframe` object: named after its property, timed at its position, with four attributes. */
  datatype KeyframeObject = KeyframeObject(
    name: string,
    time: real,
    valueAttribute: KeyframeValue,
    propertyAttribute: string,
    easingStyleAttribute: string,
    easingDirectionAttribute: string)

  /** A created group folder and the keyframe objects inside it. */
  datatype Folder = Folder(name: string, keyframes: seq<KeyframeObject>)

  /** The outcome of one export. */
  datatype AnimationExport = AnimationExport(
    controllerName: string,
    /** The order in which the instance's property set was visited (the set's order is unspecified). */
    order: seq<string>,
    groups: seq<seq<ExportedKeyframe>>,
    folders: seq<Folder>)

  /** Why an export throws. */
  datatype ExportError = NotTracked(instance: InstanceId)

  /** The record pushed for a keyframe: kind, damping ratio and frequency are dropped. */
  function Export(kf: Keyframe): ExportedKeyframe {
    ExportedKeyframe(kf.position, kf.property, StyleName(kf.kindData.easingStyle),
                     DirectionName(kf.kindData.easingDirection), kf.value)
  }

  /** An exported record keeps position, property and value, and its names read back to the easing settings. */
  lemma ExportKeepsFields(kf: Keyframe)
    ensures Export(kf).position == kf.position && Export(kf).property == kf.property && Export(kf).value == kf.value
    ensures StyleFromName(Export(kf).easingStyle) == Some(kf.kindData.easingStyle)
    ensures DirectionFromName(Export(kf).easingDirection) == Some(kf.kindData.easingDirection)
  {
    StyleNameRoundTrip(kf.kindData.easingStyle);
    DirectionNameRoundTrip(kf.kindData.easingDirection);
  }

  function ExportAll(kfs: seq<Keyframe>): (r: seq<ExportedKeyframe>)
    ensures |r| == |kfs|
  {
    seq(|kfs|, i requires 0 <= i < |kfs| => Export(kfs[i]))
  }

  function Position(kf: Keyframe): real {
    kf.position
  }

  function ExportedPosition(e: ExportedKeyframe): real {
    e.position
  }

  /** The `filter` on the instance. */
  function InstanceKeyframes(kfs: seq<Keyframe>, inst: InstanceId): seq<Keyframe> {
    if kfs == [] then []
    else (if kfs[0].instance == inst then [kfs[0]] else []) + InstanceKeyframes(kfs[1..], inst)
  }

  /** The keyframes of one property, in list order. */
  function ByProperty(kfs: seq<Keyframe>, property: string): seq<Keyframe> {
    if kfs == [] then []
    else (if kfs[0].property == property then [kfs[0]] else []) + ByProperty(kfs[1..], property)
  }

  /** The keyframes whose property is in `props`, in list order. */
  function FilterIn(kfs: seq<Keyframe>, props: set<string>): seq<Keyframe> {
    if kfs == [] then []
    else (if kfs[0].property in props then [kfs[0]] else []) + FilterIn(kfs[1..], props)
  }

  /** The records of one property, sorted by ascending position. */
  function Column(instanceKeyframes: seq<Keyframe>, property: string): seq<ExportedKeyframe> {
    ExportAll(Sorting.SortBy(ByProperty(instanceKeyframes, property), Position))
  }

  /** One column per visited property. */
  function Columns(instanceKeyframes: seq<Keyframe>, order: seq<string>): (r: seq<seq<ExportedKeyframe>>)
    ensures |r| == |order|
    ensures forall i :: 0 <= i < |order| ==> r[i] == Column(instanceKeyframes, order[i])
  {
    seq(|order|, i requires 0 <= i < |order| => Column(instanceKeyframes, order[i]))
  }

  // ---------------------------------------------------------------------
  // Distributing columns into groups
  // ---------------------------------------------------------------------

  function Max(a: nat, b: nat): nat {
    if a < b then b else a
  }

  /** One step of the distributing loop: `x` is appended to group j, which is opened first when it does not exist. */
  function PushAt<T>(d: seq<seq<T>>, j: nat, x: T): (r: seq<seq<T>>)
    requires j <= |d|
    ensures |r| == Max(|d|, j + 1)
  {
    var grown := if j == |d| then d + [[]] else d;
    grown[j := grown[j] + [x]]
  }

  /** Appends `col[k]` to group k for every k in turn, opening new groups as needed. */
  function Distribute<T>(groups: seq<seq<T>>, col: seq<T>): (r: seq<seq<T>>)
    ensures |r| == Max(|groups|, |col|)
  {
    if col == [] then groups
    else PushAt(Distribute(groups, col[..|col| - 1]), |col| - 1, col[|col| - 1])
  }

  /** Group k ends up as it was, followed by `col[k]` when the column has one. */
  lemma {:induction false} DistributeAt<T>(groups: seq<seq<T>>, col: seq<T>, k: nat)
    requires k < Max(|groups|, |col|)
    ensures Distribute(groups, col)[k] == (if k < |groups| then groups[k] else []) + (if k < |col| then [col[k]] else [])
  {
    if col != [] {
      var n := |col| - 1;
      var init := col[..n];
      if k < Max(|groups|, n) {
        DistributeAt(groups, init, k);
      }
    }
  }

  /** The groups after the columns are distributed in order. */
  function GroupColumns(cols: seq<seq<ExportedKeyframe>>): seq<seq<ExportedKeyframe>> {
    if cols == [] then []
    else Distribute(GroupColumns(cols[..|cols| - 1]), cols[|cols| - 1])
  }

  /** The longest column length. */
  function MaxLen(cols: seq<seq<ExportedKeyframe>>): nat {
    if cols == [] then 0 else Max(MaxLen(cols[..|cols| - 1]), |cols[|cols| - 1]|)
  }

  /** The k-th entry of every column that has one, in column order. */
  function Slice(cols: seq<seq<ExportedKeyframe>>, k: nat): seq<ExportedKeyframe> {
    if cols == [] then []
    else Slice(cols[..|cols| - 1], k) + (if k < |cols[|cols| - 1]| then [cols[|cols| - 1][k]] else [])
  }

  /** The groups in order, concatenated. */
  function Flatten<T>(groups: seq<seq<T>>): seq<T> {
    if groups == [] then [] else groups[0] + Flatten(groups[1..])
  }

  /** The multiset union of the columns. */
  function SumColumns(cols: seq<seq<ExportedKeyframe>>): multiset<ExportedKeyframe> {
    if cols == [] then multiset{} else SumColumns(cols[..|cols| - 1]) + multiset(cols[|cols| - 1])
  }

  /** There are as many groups as the longest column, and group k is the k-th slice. */
  lemma {:induction false} GroupColumnsShape(cols: seq<seq<ExportedKeyframe>>)
    ensures |GroupColumns(cols)| == MaxLen(cols)
    ensures forall k :: 0 <= k < |GroupColumns(cols)| ==> GroupColumns(cols)[k] == Slice(cols, k)
  {
    if cols != [] {
      var init := cols[..|cols| - 1];
      GroupColumnsShape(init);
      forall k | 0 <= k < |GroupColumns(cols)|
        ensures GroupColumns(cols)[k] == Slice(cols, k)
      {
        DistributeAt(GroupColumns(init), cols[|cols| - 1], k);
        if MaxLen(init) <= k {
          SliceBeyond(init, k);
        }
      }
    }
  }

  /** Past the longest column every slice is empty. */
  lemma {:induction false} SliceBeyond(cols: seq<seq<ExportedKeyframe>>, k: nat)
    requires MaxLen(cols) <= k
    ensures Slice(cols, k) == []
  {
    if cols != [] {
      SliceBeyond(cols[..|cols| - 1], k);
    }
  }

  /** Every slice entry is the k-th entry of some column. */
  lemma {:induction false} SliceMembers(cols: seq<seq<ExportedKeyframe>>, k: nat, x: ExportedKeyframe)
    requires x in Slice(cols, k)
    ensures exists i :: 0 <= i < |cols| && k < |cols[i]| && x == cols[i][k]
  {
    var init := cols[..|cols| - 1];
    var last := cols[|cols| - 1];
    if x in Slice(init, k) {
      SliceMembers(init, k, x);
      var i :| 0 <= i < |init| && k < |init[i]| && x == init[i][k];
      assert cols[i] == init[i];
    } else {
      assert x == last[k];
    }
  }

  /** Distributing a column adds exactly its entries. */
  lemma {:induction false} DistributeMultiset<T>(groups: seq<seq<T>>, col: seq<T>)
    ensures multiset(Flatten(Distribute(groups, col))) == multiset(Flatten(groups)) + multiset(col)
    decreases |col|
  {
    if col != [] {
      var n := |col| - 1;
      var init := col[..n];
      var d := Distribute(groups, init);
      DistributeMultiset(groups, init);
      PushAtMultiset(d, n, col[n]);
      assert Distribute(groups, col) == PushAt(d, n, col[n]);
      assert multiset(col) == multiset(init) + multiset{col[n]} by {
        assert col == init + [col[n]];
      }
    }
  }

  /** Pushing one entry adds exactly that entry. */
  lemma PushAtMultiset<T>(d: seq<seq<T>>, j: nat, x: T)
    requires j <= |d|
    ensures multiset(Flatten(PushAt(d, j, x))) == multiset(Flatten(d)) + multiset{x}
  {
    if j == |d| {
      FlattenSnocEmpty(d);
      FlattenUpdate(d + [[]], j, x);
    } else {
      FlattenUpdate(d, j, x);
    }
  }

  lemma {:induction false} FlattenSnocEmpty<T>(d: seq<seq<T>>)
    ensures Flatten(d + [[]]) == Flatten(d)
  {
    if d == [] {
      assert Flatten<T>([[]]) == [] + Flatten<T>([]);
    } else {
      assert (d + [[]])[1..] == d[1..] + [[]];
      FlattenSnocEmpty(d[1..]);
    }
  }

  lemma {:induction false} FlattenUpdate<T>(d: seq<seq<T>>, j: nat, x: T)
    requires j < |d|
    ensures multiset(Flatten(d[j := d[j] + [x]])) == multiset(Flatten(d)) + multiset{x}
  {
    var d' := d[j := d[j] + [x]];
    if j == 0 {
      assert d'[1..] == d[1..];
    } else {
      assert d'[1..] == d[1..][j - 1 := d[j] + [x]];
      FlattenUpdate(d[1..], j - 1, x);
    }
  }

  /** The groups hold exactly the entries of all columns. */
  lemma {:induction false} GroupColumnsMultiset(cols: seq<seq<ExportedKeyframe>>)
    ensures multiset(Flatten(GroupColumns(cols))) == SumColumns(cols)
  {
    if cols != [] {
      GroupColumnsMultiset(cols[..|cols| - 1]);
      DistributeMultiset(GroupColumns(cols[..|cols| - 1]), cols[|cols| - 1]);
    }
  }

  /** One step of the distributing loop: entry j goes to group j, opened when it does not exist yet. */
  lemma DistributeStep<T>(groups: seq<seq<T>>, col: seq<T>, j: nat)
    requires j < |col|
    ensures Distribute(groups, col[..j + 1]) == PushAt(Distribute(groups, col[..j]), j, col[j])
  {
    assert col[..j + 1][..j] == col[..j];
  }

  // ---------------------------------------------------------------------
  // Columns of the store
  // ---------------------------------------------------------------------

  /** Exporting two permutations of each other gives permutations of each other. */
  lemma {:induction false} ExportAllPermutation(a: seq<Keyframe>, b: seq<Keyframe>)
    requires multiset(a) == multiset(b)
    ensures multiset(ExportAll(a)) == multiset(ExportAll(b))
    decreases |a|
  {
    if a != [] {
      assert a[0] in multiset(b);
      var i :| 0 <= i < |b| && b[i] == a[0];
      var b' := b[..i] + b[i + 1..];
      RemoveMatching(a, b, i);
      ExportAllPermutation(a[1..], b');
      ExportAllRemove(b, i);
      assert ExportAll(a) == [Export(a[0])] + ExportAll(a[1..]);
      assert multiset(ExportAll(a)) == multiset{Export(a[0])} + multiset(ExportAll(a[1..]));
    }
  }

  /** Removing matching heads from two permutations leaves permutations. */
  lemma RemoveMatching<T>(a: seq<T>, b: seq<T>, i: nat)
    requires multiset(a) == multiset(b) && a != [] && i < |b| && b[i] == a[0]
    ensures multiset(a[1..]) == multiset(b[..i] + b[i + 1..])
  {
    var pre := b[..i];
    var post := b[i + 1..];
    assert multiset(b) == multiset(pre) + multiset{a[0]} + multiset(post) by {
      assert b == pre + [b[i]] + post;
    }
    assert multiset(a) == multiset{a[0]} + multiset(a[1..]) by {
      assert a == [a[0]] + a[1..];
    }
    assert multiset(pre + post) == multiset(pre) + multiset(post);
    forall x
      ensures multiset(a[1..])[x] == multiset(pre + post)[x]
    {
      assert multiset(a)[x] == multiset(b)[x];
    }
  }

  /** Exporting without entry i is exporting everything but entry i's record. */
  lemma ExportAllRemove(b: seq<Keyframe>, i: nat)
    requires i < |b|
    ensures multiset(ExportAll(b)) == multiset(ExportAll(b[..i] + b[i + 1..])) + multiset{Export(b[i])}
  {
    var pre := ExportAll(b[..i]);
    var post := ExportAll(b[i + 1..]);
    var whole := ExportAll(b);
    var e := Export(b[i]);
    assert whole == pre + [e] + post by {
      ExportAllSplit(b, i);
    }
    assert ExportAll(b[..i] + b[i + 1..]) == pre + post by {
      ExportAllAppend(b[..i], b[i + 1..]);
    }
    assert multiset(whole) == multiset(pre) + multiset{e} + multiset(post);
    assert multiset(pre + post) == multiset(pre) + multiset(post);
  }

  lemma ExportAllSplit(b: seq<Keyframe>, i: nat)
    requires i < |b|
    ensures ExportAll(b) == ExportAll(b[..i]) + [Export(b[i])] + ExportAll(b[i + 1..])
  {
    var whole := ExportAll(b);
    var parts := ExportAll(b[..i]) + [Export(b[i])] + ExportAll(b[i + 1..]);
    assert |whole| == |parts|;
    forall k | 0 <= k < |whole|
      ensures whole[k] == parts[k]
    {
      if k < i {
        assert parts[k] == ExportAll(b[..i])[k];
      } else if k > i {
        assert parts[k] == ExportAll(b[i + 1..])[k - i - 1];
        assert b[k] == b[i + 1..][k - i - 1];
      }
    }
  }

  lemma ExportAllAppend(a: seq<Keyframe>, b: seq<Keyframe>)
    ensures ExportAll(a + b) == ExportAll(a) + ExportAll(b)
  {
    assert |ExportAll(a + b)| == |ExportAll(a) + ExportAll(b)|;
    forall i | 0 <= i < |a + b|
      ensures ExportAll(a + b)[i] == (ExportAll(a) + ExportAll(b))[i]
    {
      if i >= |a| {
        assert (a + b)[i] == b[i - |a|];
      }
    }
  }

  /** Every keyframe of `ByProperty(kfs, p)` has property p and comes from `kfs`. */
  lemma {:induction false} ByPropertyMembers(kfs: seq<Keyframe>, property: string)
    ensures forall k :: k in ByProperty(kfs, property) ==> k.property == property && k in kfs
  {
    if kfs != [] {
      ByPropertyMembers(kfs[1..], property);
    }
  }

  /**
   * A column: the property's records sorted by ascending position, all of
   * that property, a permutation of the property's records.
   */
  lemma ColumnFacts(instanceKeyframes: seq<Keyframe>, property: string)
    ensures var c := Column(instanceKeyframes, property);
            Sorting.SortedBy(c, ExportedPosition)
            && (forall x :: x in c ==> x.property == property)
            && multiset(c) == multiset(ExportAll(ByProperty(instanceKeyframes, property)))
  {
    var byProp := ByProperty(instanceKeyframes, property);
    var sorted := Sorting.SortBy(byProp, Position);
    var c := ExportAll(sorted);
    ExportAllPermutation(sorted, byProp);
    ByPropertyMembers(instanceKeyframes, property);
    forall x | x in c
      ensures x.property == property
    {
      var i :| 0 <= i < |c| && c[i] == x;
      assert sorted[i] in multiset(byProp);
    }
    forall i, j | 0 <= i < j < |c|
      ensures ExportedPosition(c[i]) <= ExportedPosition(c[j])
    {
      assert Position(sorted[i]) <= Position(sorted[j]);
    }
  }

  /** Splitting the property filter: one property's records plus those of the rest of the set. */
  lemma {:induction false} FilterInSplit(kfs: seq<Keyframe>, props: set<string>, property: string)
    requires property in props
    ensures multiset(ExportAll(FilterIn(kfs, props)))
            == multiset(ExportAll(FilterIn(kfs, props - {property}))) + multiset(ExportAll(ByProperty(kfs, property)))
  {
    if kfs != [] {
      var k := kfs[0];
      var rest := kfs[1..];
      var rest0 := FilterIn(rest, props);
      var rest1 := FilterIn(rest, props - {property});
      var rest2 := ByProperty(rest, property);
      FilterInSplit(rest, props, property);
      var h := if k.property in props then [k] else [];
      var h1 := if k.property in props - {property} then [k] else [];
      var h2 := if k.property == property then [k] else [];
      assert FilterIn(kfs, props) == h + rest0;
      assert FilterIn(kfs, props - {property}) == h1 + rest1;
      assert ByProperty(kfs, property) == h2 + rest2;
      ExportAllMultisetAppend(h, rest0);
      ExportAllMultisetAppend(h1, rest1);
      ExportAllMultisetAppend(h2, rest2);
      assert multiset(ExportAll(h)) == multiset(ExportAll(h1)) + multiset(ExportAll(h2));
    }
  }

  lemma ExportAllMultisetAppend(a: seq<Keyframe>, b: seq<Keyframe>)
    ensures multiset(ExportAll(a + b)) == multiset(ExportAll(a)) + multiset(ExportAll(b))
  {
    ExportAllAppend(a, b);
  }

  /** A list of distinct properties visiting exactly the set `props`. */
  predicate Enumerates(order: seq<string>, props: set<string>) {
    (forall i, j :: 0 <= i < j < |order| ==> order[i] != order[j])
    && (forall p :: p in order ==> p in props)
    && (forall p :: p in props ==> p in order)
  }

  /** The columns of an enumeration hold exactly the records of the enumerated properties. */
  lemma {:induction false} ColumnsCoverProperties(instanceKeyframes: seq<Keyframe>, order: seq<string>, props: set<string>)
    requires Enumerates(order, props)
    ensures SumColumns(Columns(instanceKeyframes, order)) == multiset(ExportAll(FilterIn(instanceKeyframes, props)))
    decreases |order|
  {
    var cols := Columns(instanceKeyframes, order);
    if order == [] {
      assert props == {};
      FilterInEmpty(instanceKeyframes);
    } else {
      var init := order[..|order| - 1];
      var p := order[|order| - 1];
      EnumeratesInit(order, props);
      ColumnsCoverProperties(instanceKeyframes, init, props - {p});
      var initCols := Columns(instanceKeyframes, init);
      assert SumColumns(cols) == SumColumns(initCols) + multiset(Column(instanceKeyframes, p)) by {
        assert cols[..|cols| - 1] == initCols;
      }
      ColumnFacts(instanceKeyframes, p);
      FilterInSplit(instanceKeyframes, props, p);
    }
  }

  /** Dropping the last property of an enumeration enumerates the rest of the set. */
  lemma EnumeratesInit(order: seq<string>, props: set<string>)
    requires order != [] && Enumerates(order, props)
    ensures Enumerates(order[..|order| - 1], props - {order[|order| - 1]})
  {
    var init := order[..|order| - 1];
    var p := order[|order| - 1];
    forall q | q in props - {p}
      ensures q in init
    {
      var i :| 0 <= i < |order| && order[i] == q;
      assert init[i] == q;
    }
  }

  /** Adding a new property to an enumeration enumerates the larger set. */
  lemma EnumeratesSnoc(order: seq<string>, props: set<string>, p: string)
    requires Enumerates(order, props) && p !in props
    ensures Enumerates(order + [p], props + {p})
  {
  }

  /** The columns of an extended enumeration are distributed after the others. */
  lemma GroupColumnsSnoc(instanceKeyframes: seq<Keyframe>, order: seq<string>, p: string)
    ensures GroupColumns(Columns(instanceKeyframes, order + [p]))
            == Distribute(GroupColumns(Columns(instanceKeyframes, order)), Column(instanceKeyframes, p))
  {
    var cols := Columns(instanceKeyframes, order + [p]);
    assert cols[..|cols| - 1] == Columns(instanceKeyframes, order);
  }

  lemma {:induction false} FilterInEmpty(kfs: seq<Keyframe>)
    ensures FilterIn(kfs, {}) == []
  {
    if kfs != [] {
      FilterInEmpty(kfs[1..]);
    }
  }

  // ---------------------------------------------------------------------
  // Folder and keyframe naming
  // ---------------------------------------------------------------------

  function Digit(d: nat): char
    requires d < 10
  {
    ('0' as int + d) as char
  }

  /** The decimal text of a whole number, as the host prints it when concatenated. */
  function NatToDecimal(n: nat): (r: string)
    ensures |r| >= 1 && forall i :: 0 <= i < |r| ==> '0' <= r[i] <= '9'
    decreases n
  {
    if n < 10 then [Digit(n)] else NatToDecimal(n / 10) + [Digit(n % 10)]
  }

  /** Reads decimal digits back; partner of NatToDecimal. */
  function DecimalToNat(s: string): nat
    requires forall i :: 0 <= i < |s| ==> '0' <= s[i] <= '9'
  {
    if s == [] then 0
    else DecimalToNat(s[..|s| - 1]) * 10 + (s[|s| - 1] as int - '0' as int)
  }

  lemma {:induction false} DecimalRoundTrip(n: nat)
    ensures DecimalToNat(NatToDecimal(n)) == n
    decreases n
  {
    if n >= 10 {
      DecimalRoundTrip(n / 10);
      var s := NatToDecimal(n);
      assert s[..|s| - 1] == NatToDecimal(n / 10);
    }
  }

  /** The name of group folder k. */
  function FolderName(k: nat): string {
    "keyframes_" + NatToDecimal(k)
  }

  /** Distinct groups get distinct folder names. */
  lemma FolderNamesDistinct(j: nat, k: nat)
    requires j != k
    ensures FolderName(j) != FolderName(k)
  {
    if FolderName(j) == FolderName(k) {
      var prefix := "keyframes_";
      assert FolderName(j)[|prefix|..] == NatToDecimal(j);
      assert FolderName(k)[|prefix|..] == NatToDecimal(k);
      DecimalRoundTrip(j);
      DecimalRoundTrip(k);
    }
  }

  /** The keyframe object created for a record. */
  function KeyframeObjectOf(e: ExportedKeyframe): KeyframeObject {
    KeyframeObject(e.property, e.position, e.value, e.property, e.easingStyle, e.easingDirection)
  }

  /** The folders created for the groups: folder k is named after k and holds group k's objects in order. */
  function BuildFolders(groups: seq<seq<ExportedKeyframe>>): (r: seq<Folder>)
    ensures |r| == |groups|
    ensures forall k :: 0 <= k < |groups| ==>
              r[k].name == FolderName(k) && |r[k].keyframes| == |groups[k]|
              && forall j :: 0 <= j < |groups[k]| ==>
                   r[k].keyframes[j].name == groups[k][j].property && r[k].keyframes[j].time == groups[k][j].position
                   && r[k].keyframes[j].valueAttribute == groups[k][j].value
                   && r[k].keyframes[j].propertyAttribute == groups[k][j].property
                   && r[k].keyframes[j].easingStyleAttribute == groups[k][j].easingStyle
                   && r[k].keyframes[j].easingDirectionAttribute == groups[k][j].easingDirection
  {
    seq(|groups|, k requires 0 <= k < |groups| =>
      Folder(FolderName(k), seq(|groups[k]|, j requires 0 <= j < |groups[k]| => KeyframeObjectOf(groups[k][j]))))
  }

  // ---------------------------------------------------------------------
  // exportAnimation / exportAllAnimations
  // ---------------------------------------------------------------------

  /** What a successful export of `inst` (named `instName`) from `appData` produced. */
  predicate IsExportOf(appData: State, inst: InstanceId, instName: string, e: AnimationExport)
    requires Parallel(appData)
  {
    inst in appData.instances
    && Enumerates(e.order, appData.properties[IndexOf(appData.instances, inst)])
    && e.groups == GroupColumns(Columns(InstanceKeyframes(appData.keyframes, inst), e.order))
    && e.folders == BuildFolders(e.groups)
    && e.controllerName == instName + " Animation"
  }

  /** The instance's keyframes whose property is in its property set. */
  function Eligible(appData: State, inst: InstanceId): seq<Keyframe>
    requires Parallel(appData) && inst in appData.instances
  {
    FilterIn(InstanceKeyframes(appData.keyframes, inst), appData.properties[IndexOf(appData.instances, inst)])
  }

  /** The inner `forEach` over the instance's keyframes: collects one property's keyframes in order. */
  method CollectProperty(instanceKeyframes: seq<Keyframe>, property: string) returns (keyframesByProperty: seq<Keyframe>)
    ensures keyframesByProperty == ByProperty(instanceKeyframes, property)
  {
    keyframesByProperty := [];
    var i := 0;
    while i < |instanceKeyframes|
      invariant 0 <= i <= |instanceKeyframes|
      invariant keyframesByProperty + ByProperty(instanceKeyframes[i..], property) == ByProperty(instanceKeyframes, property)
    {
      var kf := instanceKeyframes[i];
      ghost var previous := keyframesByProperty;
      ghost var h := if kf.property == property then [kf] else [];
      assert ByProperty(instanceKeyframes[i..], property) == h + ByProperty(instanceKeyframes[i + 1..], property) by {
        assert instanceKeyframes[i..][0] == kf;
        assert instanceKeyframes[i..][1..] == instanceKeyframes[i + 1..];
      }
      if kf.property == property {
        keyframesByProperty := keyframesByProperty + [kf];
      }
      assert keyframesByProperty == previous + h;
      i := i + 1;
    }
  }

  /** The distributing `forEach`: the j-th sorted keyframe goes to group j, opening it when undefined. */
  method DistributeColumn(groups: seq<seq<ExportedKeyframe>>, sorted: seq<Keyframe>) returns (r: seq<seq<ExportedKeyframe>>)
    ensures r == Distribute(groups, ExportAll(sorted))
  {
    var col := ExportAll(sorted);
    r := groups;
    var keyframeGroupIndex := 0;
    assert col[..0] == [];
    while keyframeGroupIndex < |sorted|
      invariant 0 <= keyframeGroupIndex <= |sorted|
      invariant r == Distribute(groups, col[..keyframeGroupIndex])
    {
      var kf := sorted[keyframeGroupIndex];
      DistributeStep(groups, col, keyframeGroupIndex);
      assert col[keyframeGroupIndex] == Export(kf);
      if keyframeGroupIndex == |r| {
        r := r + [[]];
      }
      r := r[keyframeGroupIndex := r[keyframeGroupIndex] + [Export(kf)]];
      keyframeGroupIndex := keyframeGroupIndex + 1;
    }
    assert col[..|sorted|] == col;
  }

  /**
   * `exportAnimation`: visits the instance's property set, and for each
   * property collects its keyframes, sorts them by position and deals them
   * out to groups 0, 1, ...; then describes the folders.  An untracked
   * instance has no property set and the export throws.
   */
  method ExportAnimation(appData: State, inst: InstanceId, instName: string) returns (r: Result<AnimationExport, ExportError>)
    requires Parallel(appData)
    ensures inst !in appData.instances <==> r.Err?
    ensures r.Err? ==> r.error == NotTracked(inst)
    ensures r.Ok? ==> IsExportOf(appData, inst, instName, r.value)
  {
    var instanceKeyframes := InstanceKeyframes(appData.keyframes, inst);
    var propertiesID := IndexOf(appData.instances, inst);
    if propertiesID == -1 {
      return Err(NotTracked(inst));
    }
    var properties := appData.properties[propertiesID];
    var keyframeGroups: seq<seq<ExportedKeyframe>> := [];
    var remaining := properties;
    var order: seq<string> := [];
    while remaining != {}
      invariant remaining <= properties
      invariant Enumerates(order, properties - remaining)
      invariant keyframeGroups == GroupColumns(Columns(instanceKeyframes, order))
      decreases |remaining|
    {
      var property :| property in remaining;
      var keyframesByProperty := CollectProperty(instanceKeyframes, property);
      var sorted := Sorting.SortBy(keyframesByProperty, Position);
      assert ExportAll(sorted) == Column(instanceKeyframes, property);
      keyframeGroups := DistributeColumn(keyframeGroups, sorted);
      GroupColumnsSnoc(instanceKeyframes, order, property);
      ghost var done := properties - remaining;
      EnumeratesSnoc(order, done, property);
      assert done + {property} == properties - (remaining - {property});
      order := order + [property];
      remaining := remaining - {property};
    }
    assert properties - remaining == properties;
    return Ok(AnimationExport(instName + " Animation", order, keyframeGroups, BuildFolders(keyframeGroups)));
  }

  /**
   * The groups of an export: as many as the most keyframes any property
   * has; group k holds the k-th keyframe by position of each property that
   * has one, in visiting order, so at most one per property; a property's
   * positions never decrease from group to group; and every eligible
   * keyframe appears exactly once overall.
   */
  lemma ExportGroups(appData: State, inst: InstanceId, instName: string, e: AnimationExport)
    requires Parallel(appData) && IsExportOf(appData, inst, instName, e)
    ensures var cols := Columns(InstanceKeyframes(appData.keyframes, inst), e.order);
            |e.groups| == MaxLen(cols)
            && (forall k :: 0 <= k < |e.groups| ==> e.groups[k] == Slice(cols, k))
    ensures multiset(Flatten(e.groups)) == multiset(ExportAll(Eligible(appData, inst)))
  {
    var instanceKeyframes := InstanceKeyframes(appData.keyframes, inst);
    var cols := Columns(instanceKeyframes, e.order);
    GroupColumnsShape(cols);
    GroupColumnsMultiset(cols);
    ColumnsCoverProperties(instanceKeyframes, e.order, appData.properties[IndexOf(appData.instances, inst)]);
  }

  /** Each group holds at most one record per property. */
  lemma OnePerPropertyPerGroup(appData: State, inst: InstanceId, instName: string, e: AnimationExport, k: nat, a: nat, b: nat)
    requires Parallel(appData) && IsExportOf(appData, inst, instName, e)
    requires k < |e.groups| && a < b < |e.groups[k]|
    ensures e.groups[k][a].property != e.groups[k][b].property
  {
    var instanceKeyframes := InstanceKeyframes(appData.keyframes, inst);
    var cols := Columns(instanceKeyframes, e.order);
    GroupColumnsShape(cols);
    ColumnsTagged(instanceKeyframes, e.order);
    SliceDistinctProperties(cols, e.order, k);
  }

  /** Every record of column i carries property i of the enumeration. */
  predicate Tagged(cols: seq<seq<ExportedKeyframe>>, order: seq<string>) {
    |cols| == |order|
    && forall i, x :: 0 <= i < |cols| && x in cols[i] ==> x.property == order[i]
  }

  lemma ColumnsTagged(instanceKeyframes: seq<Keyframe>, order: seq<string>)
    ensures Tagged(Columns(instanceKeyframes, order), order)
  {
    forall i | 0 <= i < |order| {
      ColumnFacts(instanceKeyframes, order[i]);
    }
  }

  /** The records of one slice come from distinct columns, so carry distinct properties. */
  lemma {:induction false} SliceDistinctProperties(cols: seq<seq<ExportedKeyframe>>, order: seq<string>, k: nat)
    requires Tagged(cols, order)
    requires forall i, j :: 0 <= i < j < |order| ==> order[i] != order[j]
    ensures forall x :: x in Slice(cols, k) ==> x.property in order
    ensures forall a, b :: 0 <= a < b < |Slice(cols, k)| ==> Slice(cols, k)[a].property != Slice(cols, k)[b].property
  {
    if cols != [] {
      var init := cols[..|cols| - 1];
      var last := cols[|cols| - 1];
      var initOrder := order[..|order| - 1];
      var p := order[|order| - 1];
      assert Tagged(init, initOrder);
      SliceDistinctProperties(init, initOrder, k);
      var prev := Slice(init, k);
      var s := Slice(cols, k);
      assert p !in initOrder;
      assert forall x :: x in last ==> x.property == p;
      forall a, b | 0 <= a < b < |s|
        ensures s[a].property != s[b].property
      {
        if b >= |prev| {
          assert s[a] in prev;
        } else {
          assert s[a] == prev[a] && s[b] == prev[b];
        }
      }
    }
  }

  /** For one property, the record in an earlier group is no later than the one in a later group. */
  lemma PositionsAscendAcrossGroups(appData: State, inst: InstanceId, instName: string, e: AnimationExport,
                                    k: nat, k': nat, a: nat, b: nat)
    requires Parallel(appData) && IsExportOf(appData, inst, instName, e)
    requires k < k' < |e.groups| && a < |e.groups[k]| && b < |e.groups[k']|
    requires e.groups[k][a].property == e.groups[k'][b].property
    ensures e.groups[k][a].position <= e.groups[k'][b].position
  {
    var instanceKeyframes := InstanceKeyframes(appData.keyframes, inst);
    var cols := Columns(instanceKeyframes, e.order);
    GroupColumnsShape(cols);
    ColumnsTagged(instanceKeyframes, e.order);
    ColumnsSorted(instanceKeyframes, e.order);
    assert e.groups[k] == Slice(cols, k) && e.groups[k'] == Slice(cols, k');
    SlicesAscend(cols, e.order, k, k', e.groups[k][a], e.groups[k'][b]);
  }

  /** Each column is sorted by position. */
  lemma ColumnsSorted(instanceKeyframes: seq<Keyframe>, order: seq<string>)
    ensures forall i :: 0 <= i < |order| ==> Sorting.SortedBy(Columns(instanceKeyframes, order)[i], ExportedPosition)
  {
    forall i | 0 <= i < |order| {
      ColumnFacts(instanceKeyframes, order[i]);
    }
  }

  /** In tagged, sorted columns, a property's entry in an earlier slice is no later than its entry in a later one. */
  lemma SlicesAscend(cols: seq<seq<ExportedKeyframe>>, order: seq<string>, k: nat, k': nat, x: ExportedKeyframe, y: ExportedKeyframe)
    requires Tagged(cols, order)
    requires forall i, j :: 0 <= i < j < |order| ==> order[i] != order[j]
    requires forall i :: 0 <= i < |cols| ==> Sorting.SortedBy(cols[i], ExportedPosition)
    requires k < k' && x in Slice(cols, k) && y in Slice(cols, k') && x.property == y.property
    ensures x.position <= y.position
  {
    SliceMembers(cols, k, x);
    SliceMembers(cols, k', y);
    var i :| 0 <= i < |cols| && k < |cols[i]| && x == cols[i][k];
    var i' :| 0 <= i' < |cols| && k' < |cols[i']| && y == cols[i'][k'];
    assert x in cols[i] && y in cols[i'];
    assert i == i';
    assert ExportedPosition(cols[i][k]) <= ExportedPosition(cols[i][k']);
  }

  /** `exports[j]` is an export of `insts[j]`, for every j. */
  predicate ExportsOf(appData: State, names: InstanceId -> string, insts: seq<InstanceId>, exports: seq<AnimationExport>)
    requires Parallel(appData)
  {
    |exports| == |insts|
    && forall j :: 0 <= j < |insts| ==> IsExportOf(appData, insts[j], names(insts[j]), exports[j])
  }

  lemma ExportsOfSnoc(appData: State, names: InstanceId -> string, insts: seq<InstanceId>, exports: seq<AnimationExport>,
                      inst: InstanceId, e: AnimationExport)
    requires Parallel(appData) && ExportsOf(appData, names, insts, exports)
    requires IsExportOf(appData, inst, names(inst), e)
    ensures ExportsOf(appData, names, insts + [inst], exports + [e])
  {
    var insts' := insts + [inst];
    var exports' := exports + [e];
    forall j | 0 <= j < |insts'|
      ensures IsExportOf(appData, insts'[j], names(insts'[j]), exports'[j])
    {
      if j < |insts| {
        assert insts'[j] == insts[j] && exports'[j] == exports[j];
      }
    }
  }

  /**
   * `exportAllAnimations`: one export per tracked instance, in `instances`
   * order; `names` are the instances' host names.  The store is read, never
   * changed.
   */
  method ExportAllAnimations(appData: State, names: InstanceId -> string) returns (exports: seq<AnimationExport>)
    requires Parallel(appData)
    ensures ExportsOf(appData, names, appData.instances, exports)
  {
    exports := [];
    var i := 0;
    while i < |appData.instances|
      invariant 0 <= i <= |appData.instances|
      invariant ExportsOf(appData, names, appData.instances[..i], exports)
    {
      var inst := appData.instances[i];
      var r := ExportAnimation(appData, inst, names(inst));
      match r {
        case Ok(e) =>
          ExportsOfSnoc(appData, names, appData.instances[..i], exports, inst, e);
          assert appData.instances[..i] + [inst] == appData.instances[..i + 1];
          exports := exports + [e];
        case Err(_) =>
          assert false;
      }
      i := i + 1;
    }
    assert appData.instances[..i] == appData.instances;
  }
}

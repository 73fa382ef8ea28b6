/**
 * The keyframe store (`appData`): the edited root, the tracked instances
 * with their animated property sets, and a flat list of keyframes, together
 * with the five handlers of the data reducer.
 *
 * Each handler copies the arrays of the incoming state and edits the copies
 * step by step; the model passes states by value, so the incoming state is
 * never changed (the source does change two objects it shares with the
 * previous state, which the model does not capture).
 */
module DataReducer {
  import opened Common
  import opened Values

  /** The interpolation settings of a keyframe. */
  datatype KindData = KindData(easingStyle: EasingStyle, easingDirection: EasingDirection, dampingRatio: real, frequency: real)

  /** `IKeyframe`: one value of one property of one instance at one position. */
  datatype Keyframe = Keyframe(
    instance: InstanceId,
    property: string,
    position: real,
    value: KeyframeValue,
    kind: KeyframeKind,
    kindData: KindData)

  /** What identifies a keyframe: its instance, property and position. */
  datatype KeyframeRef = KeyframeRef(instance: InstanceId, property: string, position: real)

  /** `IDataReducer` */
  datatype State = State(
    root: Option<InstanceId>,
    originalRoot: Option<InstanceId>,
    instances: seq<InstanceId>,
    properties: seq<set<string>>,
    keyframes: seq<Keyframe>)

  /** Why a handler throws instead of returning a state. */
  datatype ReducerError = UntrackedInstance(instance: InstanceId)

  /**
   * The `UpdateKeyframe` action: the keyframe's identity and value, and the
   * optional interpolation settings (absent fields are `undefined`).
   */
  datatype KeyframeUpdate = KeyframeUpdate(
    instance: InstanceId,
    property: string,
    position: real,
    value: KeyframeValue,
    kind: Option<KeyframeKind>,
    easingStyle: Option<EasingStyle>,
    easingDirection: Option<EasingDirection>,
    dampingRatio: Option<real>,
    frequency: Option<real>)

  /** `initialState`: no root, nothing tracked, no keyframes. */
  const InitialState: State := State(None, None, [], [], [])

  function RefOf(k: Keyframe): KeyframeRef {
    KeyframeRef(k.instance, k.property, k.position)
  }

  function UpdateRef(u: KeyframeUpdate): KeyframeRef {
    KeyframeRef(u.instance, u.property, u.position)
  }

  /** `instances` and `properties` are parallel lists. */
  predicate Parallel(s: State) {
    |s.instances| == |s.properties|
  }

  predicate NoDuplicateInstances(xs: seq<InstanceId>) {
    forall i, j :: 0 <= i < j < |xs| ==> xs[i] != xs[j]
  }

  /** At most one keyframe per (instance, property, position). */
  predicate UniqueKeys(kfs: seq<Keyframe>) {
    forall i, j :: 0 <= i < j < |kfs| ==> RefOf(kfs[i]) != RefOf(kfs[j])
  }

  /** The store invariant every handler preserves. */
  predicate Valid(s: State) {
    Parallel(s) && NoDuplicateInstances(s.instances) && UniqueKeys(s.keyframes)
  }

  /** `Array.indexOf`: the first index of `x`, or -1. */
  function IndexOf(xs: seq<InstanceId>, x: InstanceId): (r: int)
    ensures -1 <= r < |xs|
    ensures r == -1 <==> x !in xs
    ensures r != -1 ==> xs[r] == x && x !in xs[..r]
  {
    if xs == [] then -1
    else if xs[0] == x then 0
    else
      var t := IndexOf(xs[1..], x);
      if t == -1 then -1
      else
        assert xs[..t + 1] == [xs[0]] + xs[1..][..t];
        t + 1
  }

  /** In a list without duplicates, the index of a member is its only position. */
  lemma IndexOfUnique(xs: seq<InstanceId>, j: nat)
    requires NoDuplicateInstances(xs) && j < |xs|
    ensures IndexOf(xs, xs[j]) == j
  {
  }

  /** `Array.find` / `findIndex` on a keyframe identity: the first match, or -1. */
  function FindKeyframe(kfs: seq<Keyframe>, ref: KeyframeRef): (r: int)
    ensures -1 <= r < |kfs|
    ensures r == -1 <==> forall k :: 0 <= k < |kfs| ==> RefOf(kfs[k]) != ref
    ensures r != -1 ==> RefOf(kfs[r]) == ref && forall k :: 0 <= k < r ==> RefOf(kfs[k]) != ref
  {
    if kfs == [] then -1
    else if RefOf(kfs[0]) == ref then 0
    else
      var t := FindKeyframe(kfs[1..], ref);
      assert forall k :: 1 <= k < |kfs| ==> kfs[k] == kfs[1..][k - 1];
      if t == -1 then -1 else t + 1
  }

  // ---------------------------------------------------------------------
  // SetCurrentRoot
  // ---------------------------------------------------------------------

  /**
   * `SetCurrentRoot`: each root becomes Some when the action carries it and
   * None when it is undefined; nothing else changes.
   */
  function SetCurrentRoot(s: State, root: Option<InstanceId>, originalRoot: Option<InstanceId>): (r: State)
    ensures r.root == root && r.originalRoot == originalRoot
    ensures r.instances == s.instances && r.properties == s.properties && r.keyframes == s.keyframes
    ensures Valid(s) ==> Valid(r)
  {
    s.(root := root, originalRoot := originalRoot)
  }

  // ---------------------------------------------------------------------
  // CreateInstanceProperty (and the tracking step UpdateKeyframe repeats)
  // ---------------------------------------------------------------------

  /**
   * The state after recording that `instance` animates `property`: an
   * untracked instance is appended with the singleton set, a tracked one
   * has the property merged into its set.
   */
  function Tracked(s: State, instance: InstanceId, property: string): (r: State)
    requires Parallel(s)
    ensures Parallel(r)
    ensures r.root == s.root && r.originalRoot == s.originalRoot && r.keyframes == s.keyframes
    ensures instance in r.instances
    ensures property in r.properties[IndexOf(r.instances, instance)]
    ensures instance in s.instances ==>
              r.instances == s.instances
              && r.properties[IndexOf(s.instances, instance)] == s.properties[IndexOf(s.instances, instance)] + {property}
    ensures instance !in s.instances ==>
              r.instances == s.instances + [instance] && r.properties == s.properties + [{property}]
    ensures forall j :: 0 <= j < |s.instances| && s.instances[j] != instance ==> r.properties[j] == s.properties[j]
    ensures NoDuplicateInstances(s.instances) ==> NoDuplicateInstances(r.instances)
  {
    if instance !in s.instances then
      var r := s.(instances := s.instances + [instance], properties := s.properties + [{property}]);
      assert r.instances[|s.instances|] == instance;
      r
    else
      var id := IndexOf(s.instances, instance);
      s.(properties := s.properties[id := s.properties[id] + {property}])
  }

  /** The instance occurs exactly once after tracking, at the index its set is stored under. */
  lemma TrackedOnce(s: State, instance: InstanceId, property: string)
    requires Valid(s)
    ensures var r := Tracked(s, instance, property);
            forall j :: 0 <= j < |r.instances| && r.instances[j] == instance ==>
              j == IndexOf(r.instances, instance) && property in r.properties[j]
  {
    var r := Tracked(s, instance, property);
    forall j | 0 <= j < |r.instances| && r.instances[j] == instance
      ensures j == IndexOf(r.instances, instance) && property in r.properties[j]
    {
      IndexOfUnique(r.instances, j);
    }
  }

  /** Tracking the same (instance, property) twice is the same as tracking it once. */
  lemma {:induction false} TrackedIdempotent(s: State, instance: InstanceId, property: string)
    requires Parallel(s)
    ensures Tracked(Tracked(s, instance, property), instance, property) == Tracked(s, instance, property)
  {
    var t := Tracked(s, instance, property);
    var id := IndexOf(t.instances, instance);
    assert property in t.properties[id];
    assert t.properties[id] + {property} == t.properties[id];
    assert t.properties[id := t.properties[id]] == t.properties;
  }

  /**
   * `CreateInstanceProperty`: copies the two lists, then appends the
   * instance with a new set or merges the property into its set.
   */
  method CreateInstanceProperty(s: State, instance: InstanceId, property: string) returns (r: State)
    requires Parallel(s)
    ensures r == Tracked(s, instance, property)
    ensures r.keyframes == s.keyframes && r.root == s.root && r.originalRoot == s.originalRoot
    ensures Parallel(r) && instance in r.instances && property in r.properties[IndexOf(r.instances, instance)]
    ensures Valid(s) ==> Valid(r)
  {
    var instances := s.instances;
    var properties := s.properties;
    if instance !in instances {
      instances := instances + [instance];
      properties := properties + [{property}];
    } else {
      var id := IndexOf(instances, instance);
      properties := properties[id := properties[id] + {property}];
    }
    r := s.(instances := instances, properties := properties);
  }

  // ---------------------------------------------------------------------
  // UpdateKeyframe
  // ---------------------------------------------------------------------

  /** The keyframe pushed when none matches: absent settings take Tween, Linear, InOut, 1 and 5. */
  function NewKeyframe(u: KeyframeUpdate): Keyframe {
    Keyframe(u.instance, u.property, u.position, u.value, u.kind.GetOr(Tween),
             KindData(u.easingStyle.GetOr(Linear), u.easingDirection.GetOr(InOut),
                      u.dampingRatio.GetOr(1.0), u.frequency.GetOr(5.0)))
  }

  /** A matched keyframe after the update: the value always, each setting only when supplied. */
  function Amended(k: Keyframe, u: KeyframeUpdate): Keyframe {
    k.(value := u.value,
       kind := u.kind.GetOr(k.kind),
       kindData := KindData(u.easingStyle.GetOr(k.kindData.easingStyle),
                            u.easingDirection.GetOr(k.kindData.easingDirection),
                            u.dampingRatio.GetOr(k.kindData.dampingRatio),
                            u.frequency.GetOr(k.kindData.frequency)))
  }

  /** The keyframe list after an update: the first match amended, or a new keyframe appended. */
  function Upsert(kfs: seq<Keyframe>, u: KeyframeUpdate): (r: seq<Keyframe>)
    ensures FindKeyframe(kfs, UpdateRef(u)) != -1 ==> |r| == |kfs|
    ensures FindKeyframe(kfs, UpdateRef(u)) == -1 ==> r == kfs + [NewKeyframe(u)]
    ensures forall j :: 0 <= j < |kfs| ==> RefOf(r[j]) == RefOf(kfs[j])
    ensures forall j :: 0 <= j < |kfs| && RefOf(kfs[j]) != UpdateRef(u) ==> r[j] == kfs[j]
  {
    var i := FindKeyframe(kfs, UpdateRef(u));
    if i == -1 then kfs + [NewKeyframe(u)] else kfs[i := Amended(kfs[i], u)]
  }

  /** The state `UpdateKeyframe` returns. */
  function Upserted(s: State, u: KeyframeUpdate): State
    requires Parallel(s)
  {
    var t := Tracked(s, u.instance, u.property);
    t.(keyframes := Upsert(t.keyframes, u))
  }

  /**
   * `UpdateKeyframe`: the tracking step of `CreateInstanceProperty`, then
   * an in-place update of the matching keyframe or a push of a new one.
   */
  method UpdateKeyframe(s: State, u: KeyframeUpdate) returns (r: State)
    requires Parallel(s)
    ensures r == Upserted(s, u)
    ensures r.instances == Tracked(s, u.instance, u.property).instances
    ensures r.properties == Tracked(s, u.instance, u.property).properties
    ensures r.root == s.root && r.originalRoot == s.originalRoot
    ensures var i := FindKeyframe(s.keyframes, UpdateRef(u));
            i != -1 ==> |r.keyframes| == |s.keyframes|
                        && r.keyframes[i] == Amended(s.keyframes[i], u)
                        && forall j :: 0 <= j < |s.keyframes| && j != i ==> r.keyframes[j] == s.keyframes[j]
    ensures FindKeyframe(s.keyframes, UpdateRef(u)) == -1 ==> r.keyframes == s.keyframes + [NewKeyframe(u)]
    ensures Valid(s) ==> Valid(r)
  {
    var t := CreateInstanceProperty(s, u.instance, u.property);
    var keyframes := t.keyframes;
    var i := FindKeyframe(keyframes, UpdateRef(u));
    if i != -1 {
      var kf := keyframes[i];
      kf := kf.(value := u.value);
      kf := kf.(kind := u.kind.GetOr(kf.kind));
      kf := kf.(kindData := kf.kindData.(easingStyle := u.easingStyle.GetOr(kf.kindData.easingStyle)));
      kf := kf.(kindData := kf.kindData.(easingDirection := u.easingDirection.GetOr(kf.kindData.easingDirection)));
      kf := kf.(kindData := kf.kindData.(dampingRatio := u.dampingRatio.GetOr(kf.kindData.dampingRatio)));
      kf := kf.(kindData := kf.kindData.(frequency := u.frequency.GetOr(kf.kindData.frequency)));
      keyframes := keyframes[i := kf];
    } else {
      var kind := u.kind.GetOr(Tween);
      keyframes := keyframes + [Keyframe(u.instance, u.property, u.position, u.value, kind,
                                         KindData(u.easingStyle.GetOr(Linear), u.easingDirection.GetOr(InOut),
                                                  u.dampingRatio.GetOr(1.0), u.frequency.GetOr(5.0)))];
    }
    r := t.(keyframes := keyframes);
    if Valid(s) {
      UpsertKeepsUnique(t.keyframes, u);
    }
  }

  /** Upserting keeps at most one keyframe per identity and leaves exactly one with the updated identity. */
  lemma UpsertKeepsUnique(kfs: seq<Keyframe>, u: KeyframeUpdate)
    requires UniqueKeys(kfs)
    ensures UniqueKeys(Upsert(kfs, u))
    ensures exists j :: 0 <= j < |Upsert(kfs, u)| && RefOf(Upsert(kfs, u)[j]) == UpdateRef(u)
    ensures forall i, j ::
              (0 <= i < |Upsert(kfs, u)| && 0 <= j < |Upsert(kfs, u)|
               && RefOf(Upsert(kfs, u)[i]) == UpdateRef(u) && RefOf(Upsert(kfs, u)[j]) == UpdateRef(u)) ==> i == j
  {
    var r := Upsert(kfs, u);
    var i := FindKeyframe(kfs, UpdateRef(u));
    if i == -1 {
      assert RefOf(r[|kfs|]) == UpdateRef(u);
    } else {
      assert RefOf(r[i]) == UpdateRef(u);
    }
  }

  /** Issuing the same `UpdateKeyframe` twice gives the state issuing it once gives. */
  lemma {:induction false} UpdateKeyframeIdempotent(s: State, u: KeyframeUpdate)
    requires Parallel(s)
    ensures Upserted(Upserted(s, u), u) == Upserted(s, u)
  {
    var t := Tracked(s, u.instance, u.property);
    TrackedIdempotent(s, u.instance, u.property);
    var once := Upsert(t.keyframes, u);
    var i := FindKeyframe(t.keyframes, UpdateRef(u));
    var i2 := FindKeyframe(once, UpdateRef(u));
    if i == -1 {
      assert RefOf(once[|t.keyframes|]) == UpdateRef(u);
      assert i2 == |t.keyframes|;
      assert Amended(once[i2], u) == once[i2];
      assert once[i2 := once[i2]] == once;
    } else {
      assert RefOf(once[i]) == UpdateRef(u);
      assert i2 == i;
      assert Amended(once[i], u) == once[i];
      assert once[i := once[i]] == once;
    }
  }

  // ---------------------------------------------------------------------
  // DeleteKeyframes
  // ---------------------------------------------------------------------

  /** One target of `DeleteKeyframes`: removes its first match, if any. */
  function RemoveFirst(kfs: seq<Keyframe>, ref: KeyframeRef): (r: seq<Keyframe>)
    ensures (forall k :: k in kfs ==> RefOf(k) != ref) ==> r == kfs
    ensures (exists k :: k in kfs && RefOf(k) == ref) ==>
              exists i :: 0 <= i < |kfs| && RefOf(kfs[i]) == ref
                          && (forall k :: 0 <= k < i ==> RefOf(kfs[k]) != ref)
                          && r == kfs[..i] + kfs[i + 1..]
    ensures multiset(r) <= multiset(kfs)
  {
    var i := FindKeyframe(kfs, ref);
    if i == -1 then kfs
    else
      assert kfs == kfs[..i] + [kfs[i]] + kfs[i + 1..];
      kfs[..i] + kfs[i + 1..]
  }

  /** The keyframe list after the targets `refs` have been removed in order. */
  function AfterDeletes(kfs: seq<Keyframe>, refs: seq<KeyframeRef>): seq<Keyframe>
    decreases |refs|
  {
    if refs == [] then kfs
    else RemoveFirst(AfterDeletes(kfs, refs[..|refs| - 1]), refs[|refs| - 1])
  }

  /**
   * `DeleteKeyframes`: for each target in order, finds the first keyframe
   * with its identity and removes it; targets with no match are ignored.
   */
  method DeleteKeyframes(s: State, refs: seq<KeyframeRef>) returns (r: State)
    ensures r == s.(keyframes := AfterDeletes(s.keyframes, refs))
    ensures r.root == s.root && r.originalRoot == s.originalRoot
    ensures r.instances == s.instances && r.properties == s.properties
    ensures multiset(r.keyframes) <= multiset(s.keyframes)
    ensures |s.keyframes| - |refs| <= |r.keyframes| <= |s.keyframes|
    ensures Valid(s) ==> Valid(r)
    ensures UniqueKeys(s.keyframes) ==> forall k, t :: k in r.keyframes && t in refs ==> RefOf(k) != t
  {
    var keyframes := RemoveTargets(s.keyframes, refs);
    r := s.(keyframes := keyframes);
    AfterDeletesFacts(s, refs);
  }

  /** The handler's `forEach` over the targets, removing each one's first match from the copy. */
  method RemoveTargets(kfs: seq<Keyframe>, refs: seq<KeyframeRef>) returns (keyframes: seq<Keyframe>)
    ensures keyframes == AfterDeletes(kfs, refs)
  {
    keyframes := kfs;
    var n := 0;
    assert refs[..0] == [];
    while n < |refs|
      invariant 0 <= n <= |refs|
      invariant keyframes == AfterDeletes(kfs, refs[..n])
    {
      keyframes := RemoveTarget(keyframes, refs[n]);
      AfterDeletesStep(kfs, refs, n);
      n := n + 1;
    }
    assert refs[..n] == refs;
  }

  /** The body of that `forEach`: `findIndex`, then `remove` when something was found. */
  method RemoveTarget(kfs: seq<Keyframe>, ref: KeyframeRef) returns (keyframes: seq<Keyframe>)
    ensures keyframes == RemoveFirst(kfs, ref)
  {
    keyframes := kfs;
    var index := FindKeyframe(keyframes, ref);
    if index != -1 {
      keyframes := keyframes[..index] + keyframes[index + 1..];
    }
  }

  lemma AfterDeletesStep(kfs: seq<Keyframe>, refs: seq<KeyframeRef>, n: nat)
    requires n < |refs|
    ensures AfterDeletes(kfs, refs[..n + 1]) == RemoveFirst(AfterDeletes(kfs, refs[..n]), refs[n])
  {
    assert refs[..n + 1][..n] == refs[..n];
  }

  /** What deleting a list of targets keeps: a sub-multiset, shorter by at most one per target, still valid. */
  lemma AfterDeletesFacts(s: State, refs: seq<KeyframeRef>)
    ensures var r := s.(keyframes := AfterDeletes(s.keyframes, refs));
            multiset(r.keyframes) <= multiset(s.keyframes)
            && |s.keyframes| - |refs| <= |r.keyframes| <= |s.keyframes|
            && (Valid(s) ==> Valid(r))
            && (UniqueKeys(s.keyframes) ==> forall k, t :: k in r.keyframes && t in refs ==> RefOf(k) != t)
  {
    AfterDeletesShrinks(s.keyframes, refs);
    if UniqueKeys(s.keyframes) {
      AfterDeletesClears(s.keyframes, refs);
    }
  }

  /** Removing the keyframe at one index keeps the identities unique. */
  lemma RemoveAtKeepsUnique(kfs: seq<Keyframe>, i: nat)
    requires UniqueKeys(kfs) && i < |kfs|
    ensures UniqueKeys(kfs[..i] + kfs[i + 1..])
  {
    var r := kfs[..i] + kfs[i + 1..];
    forall a, b | 0 <= a < b < |r|
      ensures RefOf(r[a]) != RefOf(r[b])
    {
      var a' := if a < i then a else a + 1;
      var b' := if b < i then b else b + 1;
      assert r[a] == kfs[a'] && r[b] == kfs[b'];
    }
  }

  /** With unique identities, removing a target's first match leaves no keyframe with that identity. */
  lemma RemoveFirstClears(kfs: seq<Keyframe>, ref: KeyframeRef)
    requires UniqueKeys(kfs)
    ensures UniqueKeys(RemoveFirst(kfs, ref))
    ensures forall k :: k in RemoveFirst(kfs, ref) ==> RefOf(k) != ref
  {
    var i := FindKeyframe(kfs, ref);
    if i != -1 {
      var after := kfs[..i] + kfs[i + 1..];
      RemoveAtKeepsUnique(kfs, i);
      forall k | k in after
        ensures RefOf(k) != ref
      {
        var a :| 0 <= a < |after| && after[a] == k;
        var a' := if a < i then a else a + 1;
        assert after[a] == kfs[a'];
      }
    }
  }

  /** Deleting keeps only keyframes that existed and removes at most one per target. */
  lemma {:induction false} AfterDeletesShrinks(kfs: seq<Keyframe>, refs: seq<KeyframeRef>)
    ensures multiset(AfterDeletes(kfs, refs)) <= multiset(kfs)
    ensures |kfs| - |refs| <= |AfterDeletes(kfs, refs)| <= |kfs|
    decreases |refs|
  {
    if refs != [] {
      var init := refs[..|refs| - 1];
      var before := AfterDeletes(kfs, init);
      AfterDeletesShrinks(kfs, init);
      var after := RemoveFirst(before, refs[|refs| - 1]);
      assert |after| + 1 >= |before|;
      assert |multiset(after)| <= |multiset(before)|;
    }
  }

  /** With unique identities, no keyframe with a targeted identity survives, and identities stay unique. */
  lemma {:induction false} AfterDeletesClears(kfs: seq<Keyframe>, refs: seq<KeyframeRef>)
    requires UniqueKeys(kfs)
    ensures UniqueKeys(AfterDeletes(kfs, refs))
    ensures forall k, t :: k in AfterDeletes(kfs, refs) && t in refs ==> RefOf(k) != t
    decreases |refs|
  {
    if refs != [] {
      var init := refs[..|refs| - 1];
      var last := refs[|refs| - 1];
      var before := AfterDeletes(kfs, init);
      AfterDeletesClears(kfs, init);
      var after := RemoveFirst(before, last);
      RemoveFirstClears(before, last);
      forall k, t | k in after && t in refs
        ensures RefOf(k) != t
      {
        assert k in multiset(before);
        if t != last {
          assert t in init;
        }
      }
    }
  }

  // ---------------------------------------------------------------------
  // DeleteInstanceProperty
  // ---------------------------------------------------------------------

  /** A keyframe of the given instance and property. */
  predicate InProperty(k: Keyframe, instance: InstanceId, property: string) {
    k.instance == instance && k.property == property
  }

  /**
   * The list the forward remove-while-iterating loop leaves: after each
   * removal the element that moves into the freed slot is not examined.
   */
  function Sweep(kfs: seq<Keyframe>, instance: InstanceId, property: string): seq<Keyframe>
    decreases |kfs|
  {
    if kfs == [] then []
    else if InProperty(kfs[0], instance, property) then
      if |kfs| == 1 then [] else [kfs[1]] + Sweep(kfs[2..], instance, property)
    else [kfs[0]] + Sweep(kfs[1..], instance, property)
  }

  /** The keyframes of every other instance or property, in order. */
  function Others(kfs: seq<Keyframe>, instance: InstanceId, property: string): seq<Keyframe>
  {
    if kfs == [] then []
    else if InProperty(kfs[0], instance, property) then Others(kfs[1..], instance, property)
    else [kfs[0]] + Others(kfs[1..], instance, property)
  }

  /** `Others` keeps exactly the keyframes outside the property, each at most as often as before. */
  lemma {:induction false} OthersMembers(kfs: seq<Keyframe>, instance: InstanceId, property: string)
    ensures forall k :: k in Others(kfs, instance, property) <==> k in kfs && !InProperty(k, instance, property)
    ensures multiset(Others(kfs, instance, property)) <= multiset(kfs)
    decreases |kfs|
  {
    if kfs != [] {
      OthersMembers(kfs[1..], instance, property);
      assert kfs == [kfs[0]] + kfs[1..];
    }
  }

  /** No two consecutive keyframes both belong to the property. */
  predicate NoAdjacentMatches(kfs: seq<Keyframe>, instance: InstanceId, property: string) {
    forall j :: 0 <= j < |kfs| - 1 ==> !(InProperty(kfs[j], instance, property) && InProperty(kfs[j + 1], instance, property))
  }

  /**
   * `DeleteInstanceProperty` as written: looks up the instance's index,
   * runs the forward loop that removes the property's keyframes (skipping
   * the element after each removal), then deletes the property from the
   * set at that index.  For an untracked instance the index is -1, the set
   * lookup yields nothing and the handler throws.
   */
  method DeleteInstanceProperty(s: State, instance: InstanceId, property: string) returns (r: Result<State, ReducerError>)
    requires Parallel(s)
    ensures instance !in s.instances <==> r.Err?
    ensures r.Err? ==> r.error == UntrackedInstance(instance)
    ensures r.Ok? ==> var id := IndexOf(s.instances, instance);
            r.value == s.(properties := s.properties[id := s.properties[id] - {property}],
                          keyframes := Sweep(s.keyframes, instance, property))
    ensures r.Ok? ==> property !in r.value.properties[IndexOf(r.value.instances, instance)]
    ensures r.Ok? ==> Others(r.value.keyframes, instance, property) == Others(s.keyframes, instance, property)
    ensures r.Ok? && Valid(s) ==> Valid(r.value)
  {
    var properties := s.properties;
    var id := IndexOf(s.instances, instance);
    var keyframes := SweepProperty(s.keyframes, instance, property);
    if id == -1 {
      return Err(UntrackedInstance(instance));
    }
    properties := properties[id := properties[id] - {property}];
    r := Ok(s.(properties := properties, keyframes := keyframes));
    SweepKeepsOthers(s.keyframes, instance, property);
    if Valid(s) {
      SweepKeepsUnique(s.keyframes, instance, property);
    }
  }

  /**
   * The handler's forward loop over the keyframes, removing the property's
   * keyframes as it goes: the index advances after a removal too.
   */
  method SweepProperty(kfs: seq<Keyframe>, instance: InstanceId, property: string) returns (keyframes: seq<Keyframe>)
    ensures keyframes == Sweep(kfs, instance, property)
  {
    keyframes := kfs;
    var index := 0;
    while index < |keyframes|
      invariant 0 <= index <= |keyframes| + 1
      invariant index <= |keyframes| ==>
                  keyframes[..index] + Sweep(keyframes[index..], instance, property) == Sweep(kfs, instance, property)
      invariant index == |keyframes| + 1 ==> keyframes == Sweep(kfs, instance, property)
      decreases |keyframes| - index + 1
    {
      var kf := keyframes[index];
      if InProperty(kf, instance, property) {
        SweepStepRemove(keyframes, index, instance, property);
        keyframes := keyframes[..index] + keyframes[index + 1..];
      } else {
        SweepStepKeep(keyframes, index, instance, property);
      }
      index := index + 1;
    }
    if index == |keyframes| {
      assert keyframes[..index] == keyframes && keyframes[index..] == [];
    }
  }

  /** Loop step on a matching keyframe: it is removed and its successor is passed over. */
  lemma SweepStepRemove(kfs: seq<Keyframe>, i: nat, instance: InstanceId, property: string)
    requires i < |kfs| && InProperty(kfs[i], instance, property)
    ensures var next := kfs[..i] + kfs[i + 1..];
            (i + 1 <= |next| ==> next[..i + 1] + Sweep(next[i + 1..], instance, property)
                                 == kfs[..i] + Sweep(kfs[i..], instance, property))
            && (i + 1 == |next| + 1 ==> next == kfs[..i] + Sweep(kfs[i..], instance, property))
  {
    var next := kfs[..i] + kfs[i + 1..];
    var tail := kfs[i..];
    assert tail[0] == kfs[i];
    if i + 1 <= |next| {
      assert tail[1] == kfs[i + 1];
      assert tail[2..] == kfs[i + 2..] == next[i + 1..];
      assert next[..i + 1] == kfs[..i] + [kfs[i + 1]];
    } else {
      assert |tail| == 1;
    }
  }

  /** Loop step on any other keyframe: it is kept. */
  lemma SweepStepKeep(kfs: seq<Keyframe>, i: nat, instance: InstanceId, property: string)
    requires i < |kfs| && !InProperty(kfs[i], instance, property)
    ensures kfs[..i + 1] + Sweep(kfs[i + 1..], instance, property) == kfs[..i] + Sweep(kfs[i..], instance, property)
  {
    var tail := kfs[i..];
    assert tail[0] == kfs[i] && tail[1..] == kfs[i + 1..];
    assert kfs[..i + 1] == kfs[..i] + [kfs[i]];
  }

  /** The sweep only ever removes keyframes of the swept property. */
  lemma {:induction false} SweepKeepsOthers(kfs: seq<Keyframe>, instance: InstanceId, property: string)
    ensures Others(Sweep(kfs, instance, property), instance, property) == Others(kfs, instance, property)
    ensures multiset(Sweep(kfs, instance, property)) <= multiset(kfs)
  {
    SweepOthers(kfs, instance, property);
    SweepShrinks(kfs, instance, property);
  }

  lemma {:induction false} SweepOthers(kfs: seq<Keyframe>, instance: InstanceId, property: string)
    ensures Others(Sweep(kfs, instance, property), instance, property) == Others(kfs, instance, property)
    decreases |kfs|
  {
    if kfs == [] {
    } else if InProperty(kfs[0], instance, property) {
      if |kfs| > 1 {
        var tail := kfs[1..];
        var rest := Sweep(kfs[2..], instance, property);
        SweepOthers(kfs[2..], instance, property);
        var swept := [kfs[1]] + rest;
        assert Sweep(kfs, instance, property) == swept;
        OthersUnfold(swept, instance, property);
        assert swept[0] == kfs[1] && swept[1..] == rest;
        OthersUnfold(kfs, instance, property);
        OthersUnfold(tail, instance, property);
        assert tail[0] == kfs[1] && tail[1..] == kfs[2..];
      }
    } else {
      var rest := Sweep(kfs[1..], instance, property);
      SweepOthers(kfs[1..], instance, property);
      var swept := [kfs[0]] + rest;
      assert Sweep(kfs, instance, property) == swept;
      OthersUnfold(swept, instance, property);
      assert swept[0] == kfs[0] && swept[1..] == rest;
      OthersUnfold(kfs, instance, property);
    }
  }

  lemma {:induction false} SweepShrinks(kfs: seq<Keyframe>, instance: InstanceId, property: string)
    ensures multiset(Sweep(kfs, instance, property)) <= multiset(kfs)
    decreases |kfs|
  {
    if kfs == [] {
    } else if InProperty(kfs[0], instance, property) {
      if |kfs| > 1 {
        SweepShrinks(kfs[2..], instance, property);
        assert kfs == [kfs[0]] + [kfs[1]] + kfs[2..];
      }
    } else {
      SweepShrinks(kfs[1..], instance, property);
      assert kfs == [kfs[0]] + kfs[1..];
    }
  }

  /** A suffix of a uniquely keyed list is uniquely keyed and avoids the identity just before it. */
  lemma SuffixUnique(kfs: seq<Keyframe>, n: nat)
    requires UniqueKeys(kfs) && 0 < n <= |kfs|
    ensures UniqueKeys(kfs[n..])
    ensures forall y :: y in kfs[n..] ==> RefOf(y) != RefOf(kfs[n - 1])
  {
    var tail := kfs[n..];
    forall a, b | 0 <= a < b < |tail|
      ensures RefOf(tail[a]) != RefOf(tail[b])
    {
      assert tail[a] == kfs[n + a] && tail[b] == kfs[n + b];
    }
    forall y | y in tail
      ensures RefOf(y) != RefOf(kfs[n - 1])
    {
      var b :| 0 <= b < |tail| && tail[b] == y;
      assert kfs[n + b] == y;
    }
  }

  /** Putting in front a keyframe whose identity the rest avoids keeps identities unique. */
  lemma ConsUnique(head: Keyframe, rest: seq<Keyframe>)
    requires UniqueKeys(rest)
    requires forall y :: y in rest ==> RefOf(y) != RefOf(head)
    ensures UniqueKeys([head] + rest)
  {
    var r := [head] + rest;
    forall a, b | 0 <= a < b < |r|
      ensures RefOf(r[a]) != RefOf(r[b])
    {
      assert r[b] == rest[b - 1];
      if a > 0 {
        assert r[a] == rest[a - 1];
      } else {
        assert rest[b - 1] in rest;
      }
    }
  }

  /** The sweep keeps identities unique. */
  lemma {:induction false} SweepKeepsUnique(kfs: seq<Keyframe>, instance: InstanceId, property: string)
    requires UniqueKeys(kfs)
    ensures UniqueKeys(Sweep(kfs, instance, property))
    decreases |kfs|
  {
    if kfs != [] {
      var start := if InProperty(kfs[0], instance, property) then 2 else 1;
      if start <= |kfs| {
        var tail := kfs[start..];
        SuffixUnique(kfs, start);
        SweepKeepsUnique(tail, instance, property);
        SweepKeepsOthers(tail, instance, property);
        var rest := Sweep(tail, instance, property);
        assert Sweep(kfs, instance, property) == [kfs[start - 1]] + rest;
        forall y | y in rest
          ensures RefOf(y) != RefOf(kfs[start - 1])
        {
          assert y in multiset(tail);
        }
        ConsUnique(kfs[start - 1], rest);
      }
    }
  }

  /**
   * The property's keyframes are all removed exactly when no two of them
   * are adjacent in the list.
   */
  lemma {:induction false} SweepClearsIffNoAdjacent(kfs: seq<Keyframe>, instance: InstanceId, property: string)
    ensures (forall k :: k in Sweep(kfs, instance, property) ==> !InProperty(k, instance, property))
            <==> NoAdjacentMatches(kfs, instance, property)
    decreases |kfs|
  {
    if kfs == [] {
    } else if InProperty(kfs[0], instance, property) {
      if |kfs| > 1 {
        var tail := kfs[2..];
        SweepClearsIffNoAdjacent(tail, instance, property);
        var r := [kfs[1]] + Sweep(tail, instance, property);
        assert forall j :: 0 <= j < |tail| ==> tail[j] == kfs[j + 2];
        if NoAdjacentMatches(kfs, instance, property) {
          assert !InProperty(kfs[1], instance, property);
          assert NoAdjacentMatches(tail, instance, property);
        } else {
          var j :| 0 <= j < |kfs| - 1 && InProperty(kfs[j], instance, property) && InProperty(kfs[j + 1], instance, property);
          if j <= 1 {
            assert kfs[1] in r;
          } else {
            assert !NoAdjacentMatches(tail, instance, property);
            var k :| k in Sweep(tail, instance, property) && InProperty(k, instance, property);
            assert k in r;
          }
        }
      }
    } else {
      var tail := kfs[1..];
      SweepClearsIffNoAdjacent(tail, instance, property);
      var r := [kfs[0]] + Sweep(tail, instance, property);
      assert forall j :: 0 <= j < |tail| ==> tail[j] == kfs[j + 1];
      if NoAdjacentMatches(kfs, instance, property) {
        assert NoAdjacentMatches(tail, instance, property);
      } else {
        var j :| 0 <= j < |kfs| - 1 && InProperty(kfs[j], instance, property) && InProperty(kfs[j + 1], instance, property);
        assert j >= 1;
        assert !NoAdjacentMatches(tail, instance, property);
        var k :| k in Sweep(tail, instance, property) && InProperty(k, instance, property);
        assert k in r;
      }
    }
  }

  /** Two adjacent keyframes of the property: the second survives the sweep. */
  lemma SweepMissesAdjacentMatch(a: Keyframe, b: Keyframe, instance: InstanceId, property: string)
    requires InProperty(a, instance, property) && InProperty(b, instance, property)
    ensures Sweep([a, b], instance, property) == [b]
    ensures exists k :: k in Sweep([a, b], instance, property) && InProperty(k, instance, property)
  {
    assert [a, b][2..] == [];
    assert b in Sweep([a, b], instance, property);
  }

  /** A list holding none of the property's keyframes is its own `Others`. */
  lemma {:induction false} OthersOfCleared(kfs: seq<Keyframe>, instance: InstanceId, property: string)
    requires forall k :: k in kfs ==> !InProperty(k, instance, property)
    ensures Others(kfs, instance, property) == kfs
    decreases |kfs|
  {
    if kfs != [] {
      assert kfs[0] in kfs;
      assert forall k :: k in kfs[1..] ==> k in kfs;
      OthersOfCleared(kfs[1..], instance, property);
      assert kfs == [kfs[0]] + kfs[1..];
    }
  }

  /** Without adjacent matches the sweep is exactly the intended filter. */
  lemma SweepIsFilterWithoutAdjacent(kfs: seq<Keyframe>, instance: InstanceId, property: string)
    requires NoAdjacentMatches(kfs, instance, property)
    ensures Sweep(kfs, instance, property) == Others(kfs, instance, property)
  {
    SweepClearsIffNoAdjacent(kfs, instance, property);
    SweepKeepsOthers(kfs, instance, property);
    OthersOfCleared(Sweep(kfs, instance, property), instance, property);
  }

  /**
   * `DeleteInstanceProperty` as its comment intends ("delete all property
   * keyframes"): the loop re-examines the slot a removal frees, so every
   * keyframe of the property goes and every other one stays, in order.
   */
  method DeleteInstancePropertyIntended(s: State, instance: InstanceId, property: string) returns (r: Result<State, ReducerError>)
    requires Parallel(s)
    ensures instance !in s.instances <==> r.Err?
    ensures r.Err? ==> r.error == UntrackedInstance(instance)
    ensures r.Ok? ==> var id := IndexOf(s.instances, instance);
            r.value == s.(properties := s.properties[id := s.properties[id] - {property}],
                          keyframes := Others(s.keyframes, instance, property))
    ensures r.Ok? ==> property !in r.value.properties[IndexOf(r.value.instances, instance)]
    ensures r.Ok? ==> forall k :: k in r.value.keyframes <==> k in s.keyframes && !InProperty(k, instance, property)
    ensures r.Ok? && Valid(s) ==> Valid(r.value)
  {
    var properties := s.properties;
    var id := IndexOf(s.instances, instance);
    var keyframes := FilterProperty(s.keyframes, instance, property);
    if id == -1 {
      return Err(UntrackedInstance(instance));
    }
    properties := properties[id := properties[id] - {property}];
    r := Ok(s.(properties := properties, keyframes := keyframes));
    OthersMembers(s.keyframes, instance, property);
    if Valid(s) {
      OthersKeepsUnique(s.keyframes, instance, property);
    }
  }

  /** The corrected loop: after a removal the same index is examined again. */
  method FilterProperty(kfs: seq<Keyframe>, instance: InstanceId, property: string) returns (keyframes: seq<Keyframe>)
    ensures keyframes == Others(kfs, instance, property)
  {
    keyframes := kfs;
    var index := 0;
    while index < |keyframes|
      invariant 0 <= index <= |keyframes|
      invariant keyframes[..index] + Others(keyframes[index..], instance, property) == Others(kfs, instance, property)
      decreases |keyframes| - index
    {
      if InProperty(keyframes[index], instance, property) {
        OthersStepDrop(keyframes, index, instance, property);
        keyframes := keyframes[..index] + keyframes[index + 1..];
      } else {
        OthersStepKeep(keyframes, index, instance, property);
        index := index + 1;
      }
    }
    assert keyframes[..index] == keyframes && keyframes[index..] == [];
  }

  /** Filtering keeps identities unique. */
  lemma {:induction false} OthersKeepsUnique(kfs: seq<Keyframe>, instance: InstanceId, property: string)
    requires UniqueKeys(kfs)
    ensures UniqueKeys(Others(kfs, instance, property))
    decreases |kfs|
  {
    if kfs != [] {
      var tail := kfs[1..];
      SuffixUnique(kfs, 1);
      OthersKeepsUnique(tail, instance, property);
      if !InProperty(kfs[0], instance, property) {
        OthersMembers(tail, instance, property);
        ConsUnique(kfs[0], Others(tail, instance, property));
      }
    }
  }

  /** `Others` of a non-empty list, unfolded once. */
  lemma OthersUnfold(kfs: seq<Keyframe>, instance: InstanceId, property: string)
    requires kfs != []
    ensures InProperty(kfs[0], instance, property) ==> Others(kfs, instance, property) == Others(kfs[1..], instance, property)
    ensures !InProperty(kfs[0], instance, property) ==> Others(kfs, instance, property) == [kfs[0]] + Others(kfs[1..], instance, property)
  {
  }

  /** Loop step of the intended sweep on a matching keyframe: it is dropped and its slot examined again. */
  lemma OthersStepDrop(kfs: seq<Keyframe>, i: nat, instance: InstanceId, property: string)
    requires i < |kfs| && InProperty(kfs[i], instance, property)
    ensures var next := kfs[..i] + kfs[i + 1..];
            next[..i] + Others(next[i..], instance, property) == kfs[..i] + Others(kfs[i..], instance, property)
  {
    var tail := kfs[i..];
    OthersUnfold(tail, instance, property);
    assert tail[1..] == kfs[i + 1..];
    var next := kfs[..i] + kfs[i + 1..];
    assert next[..i] == kfs[..i] && next[i..] == kfs[i + 1..];
  }

  /** Loop step of the intended sweep on any other keyframe: it is kept. */
  lemma OthersStepKeep(kfs: seq<Keyframe>, i: nat, instance: InstanceId, property: string)
    requires i < |kfs| && !InProperty(kfs[i], instance, property)
    ensures kfs[..i + 1] + Others(kfs[i + 1..], instance, property) == kfs[..i] + Others(kfs[i..], instance, property)
  {
    var tail := kfs[i..];
    var rest := Others(kfs[i + 1..], instance, property);
    assert Others(tail, instance, property) == [kfs[i]] + rest by {
      OthersUnfold(tail, instance, property);
      assert tail[0] == kfs[i] && tail[1..] == kfs[i + 1..];
    }
    assert kfs[..i + 1] == kfs[..i] + [kfs[i]];
    assert (kfs[..i] + [kfs[i]]) + rest == kfs[..i] + ([kfs[i]] + rest);
  }
}

/**
 * The baseline capture: a module-level list of the values every supported
 * property of every GUI descendant held when the session started.
 */
module InitialProperties {
  import opened Common
  import opened Values
  import SupportedProperties

  /** One captured value. */
  datatype InitialRecord = InitialRecord(instance: InstanceId, property: string, value: KeyframeValue)

  /**
   * A descendant as the host reports it: its identity, whether it `IsA`
   * GuiObject, and its `ClassName`.
   */
  datatype Descendant = Descendant(instance: InstanceId, isGuiObject: bool, className: string)

  /** The records pushed for `instance` over the property list `props`, in list order. */
  function RecordsFor(instance: InstanceId, props: seq<string>, read: (InstanceId, string) -> KeyframeValue): seq<InitialRecord> {
    seq(|props|, k requires 0 <= k < |props| => InitialRecord(instance, props[k], read(instance, props[k])))
  }

  /** The records one descendant contributes: none unless it is a GuiObject. */
  function DescendantRecords(d: Descendant, read: (InstanceId, string) -> KeyframeValue): seq<InitialRecord> {
    if d.isGuiObject
    then RecordsFor(d.instance, SupportedProperties.GetSupportedProperties(d.className), read)
    else []
  }

  /** The records `serializeInstance` appends for a descendant list. */
  function Captured(ds: seq<Descendant>, read: (InstanceId, string) -> KeyframeValue): seq<InitialRecord> {
    if ds == [] then []
    else Captured(ds[..|ds| - 1], read) + DescendantRecords(ds[|ds| - 1], read)
  }

  /** Capturing one more descendant appends its records. */
  lemma CapturedSnoc(ds: seq<Descendant>, d: Descendant, read: (InstanceId, string) -> KeyframeValue)
    ensures Captured(ds + [d], read) == Captured(ds, read) + DescendantRecords(d, read)
  {
    assert (ds + [d])[..|ds|] == ds;
  }

  /** Capturing one more descendant of a list appends its records. */
  lemma CapturedPrefix(ds: seq<Descendant>, i: nat, start: seq<InitialRecord>, read: (InstanceId, string) -> KeyframeValue)
    requires i < |ds|
    ensures start + Captured(ds[..i + 1], read) == start + Captured(ds[..i], read) + DescendantRecords(ds[i], read)
  {
    var a := Captured(ds[..i], read);
    var b := DescendantRecords(ds[i], read);
    assert Captured(ds[..i + 1], read) == a + b by {
      CapturedSnoc(ds[..i], ds[i], read);
      assert ds[..i + 1] == ds[..i] + [ds[i]];
    }
    AppendAssociates(start, a, b);
  }

  /** The record `find` matches: same instance and same property. */
  predicate Matches(rec: InitialRecord, instance: InstanceId, property: string) {
    rec.instance == instance && rec.property == property
  }

  /** `Array.find`: the first matching record, or undefined. */
  function FindFirst(records: seq<InitialRecord>, instance: InstanceId, property: string): (r: Option<InitialRecord>)
    ensures r.None? <==> forall k :: 0 <= k < |records| ==> !Matches(records[k], instance, property)
    ensures r.Some? ==> exists k :: 0 <= k < |records| && records[k] == r.value
                         && Matches(records[k], instance, property)
                         && forall m :: 0 <= m < k ==> !Matches(records[m], instance, property)
  {
    if records == [] then None
    else if Matches(records[0], instance, property) then Some(records[0])
    else
      var r := FindFirst(records[1..], instance, property);
      assert forall k :: 1 <= k < |records| ==> records[k] == records[1..][k - 1];
      r
  }

  /** The module-level `initial` list and the three functions over it. */
  class InitialPropertyStore {
    var initial: seq<InitialRecord>

    constructor ()
      ensures initial == []
    {
      initial := [];
    }

    /**
     * `serializeInstance`: for every GuiObject descendant, in order, pushes one
     * record per supported property, in catalog order.  It never clears.
     */
    method SerializeInstance(descendants: seq<Descendant>, read: (InstanceId, string) -> KeyframeValue)
      modifies this
      ensures initial == old(initial) + Captured(descendants, read)
    {
      ghost var start := initial;
      var i := 0;
      while i < |descendants|
        invariant 0 <= i <= |descendants|
        invariant initial == start + Captured(descendants[..i], read)
      {
        var d := descendants[i];
        CapturedPrefix(descendants, i, start, read);
        CaptureDescendant(d, read);
        i := i + 1;
      }
      assert descendants[..i] == descendants;
    }

    /** The body of the outer `forEach` for one descendant. */
    method CaptureDescendant(d: Descendant, read: (InstanceId, string) -> KeyframeValue)
      modifies this
      ensures initial == old(initial) + DescendantRecords(d, read)
    {
      if d.isGuiObject {
        PushRecords(d.instance, SupportedProperties.GetSupportedProperties(d.className), read);
      }
    }

    /** The inner `forEach`: pushes one record per property of `props`, in order. */
    method PushRecords(instance: InstanceId, props: seq<string>, read: (InstanceId, string) -> KeyframeValue)
      modifies this
      ensures initial == old(initial) + RecordsFor(instance, props, read)
    {
      var j := 0;
      while j < |props|
        invariant 0 <= j <= |props|
        invariant initial == old(initial) + RecordsFor(instance, props[..j], read)
      {
        initial := initial + [InitialRecord(instance, props[j], read(instance, props[j]))];
        assert props[..j + 1][..j] == props[..j];
        j := j + 1;
      }
      assert props[..j] == props;
    }

    /** `getInitialProperty`: the earliest captured record for the pair; reads only. */
    function GetInitialProperty(instance: InstanceId, property: string): (r: Option<InitialRecord>)
      reads this
      ensures r.Some? ==> r.value in initial && Matches(r.value, instance, property)
      ensures r.Some? ==> exists k :: 0 <= k < |initial| && initial[k] == r.value
                           && Matches(initial[k], instance, property)
                           && forall m :: 0 <= m < k ==> !Matches(initial[m], instance, property)
      ensures r.None? ==> forall rec :: rec in initial ==> !Matches(rec, instance, property)
    {
      FindFirst(initial, instance, property)
    }

    /** `clearProperties`: empties the list, after which every lookup misses. */
    method ClearProperties()
      modifies this
      ensures initial == []
      ensures forall i: InstanceId, p: string :: GetInitialProperty(i, p).None?
    {
      initial := [];
    }
  }

  /** Capturing a concatenated descendant list appends the two captures: records follow descendant order. */
  lemma {:induction false} CapturedAppend(a: seq<Descendant>, b: seq<Descendant>, read: (InstanceId, string) -> KeyframeValue)
    ensures Captured(a + b, read) == Captured(a, read) + Captured(b, read)
    decreases |b|
  {
    if b == [] {
      assert a + b == a;
    } else {
      var b' := b[..|b| - 1];
      assert (a + b)[..|a + b| - 1] == a + b';
      CapturedAppend(a, b', read);
    }
  }

  /** `rec` is what capturing `d` records for one of its supported properties. */
  predicate CapturedFrom(d: Descendant, read: (InstanceId, string) -> KeyframeValue, rec: InitialRecord) {
    d.isGuiObject && d.instance == rec.instance
    && rec.property in SupportedProperties.GetSupportedProperties(d.className)
    && rec.value == read(rec.instance, rec.property)
  }

  /**
   * Exactly the (GuiObject descendant, supported property) pairs are captured,
   * each with the value read from the node.
   */
  lemma CapturedMembers(ds: seq<Descendant>, read: (InstanceId, string) -> KeyframeValue, rec: InitialRecord)
    ensures rec in Captured(ds, read) <==> exists d :: d in ds && CapturedFrom(d, read, rec)
  {
    if rec in Captured(ds, read) {
      var d := CapturedSource(ds, read, rec);
    }
    forall d | d in ds && CapturedFrom(d, read, rec)
      ensures rec in Captured(ds, read)
    {
      CapturedComplete(ds, read, d, rec);
    }
  }

  /** Every captured record comes from some descendant in the list. */
  lemma {:induction false} CapturedSource(ds: seq<Descendant>, read: (InstanceId, string) -> KeyframeValue, rec: InitialRecord)
    returns (d: Descendant)
    requires rec in Captured(ds, read)
    ensures d in ds && CapturedFrom(d, read, rec)
  {
    var init := ds[..|ds| - 1];
    var last := ds[|ds| - 1];
    assert Captured(ds, read) == Captured(init, read) + DescendantRecords(last, read);
    if rec in DescendantRecords(last, read) {
      DescendantMembers(last, read, rec);
      d := last;
    } else {
      d := CapturedSource(init, read, rec);
      assert d in ds by {
        var k :| 0 <= k < |init| && init[k] == d;
        assert ds[k] == d;
      }
    }
  }

  /** Every record a listed descendant contributes is captured. */
  lemma {:induction false} CapturedComplete(ds: seq<Descendant>, read: (InstanceId, string) -> KeyframeValue, d: Descendant, rec: InitialRecord)
    requires d in ds && CapturedFrom(d, read, rec)
    ensures rec in Captured(ds, read)
  {
    var init := ds[..|ds| - 1];
    var last := ds[|ds| - 1];
    assert Captured(ds, read) == Captured(init, read) + DescendantRecords(last, read);
    if d == last {
      DescendantMembers(last, read, rec);
    } else {
      assert d in init by {
        var k :| 0 <= k < |ds| && ds[k] == d;
        assert k < |ds| - 1 && init[k] == d;
      }
      CapturedComplete(init, read, d, rec);
    }
  }

  /** The records of one descendant are exactly its (supported property, read value) pairs. */
  lemma DescendantMembers(d: Descendant, read: (InstanceId, string) -> KeyframeValue, rec: InitialRecord)
    ensures rec in DescendantRecords(d, read) <==> CapturedFrom(d, read, rec)
  {
    if d.isGuiObject {
      var props := SupportedProperties.GetSupportedProperties(d.className);
      var rs := RecordsFor(d.instance, props, read);
      assert |rs| == |props|;
      if rec in rs {
        var k :| 0 <= k < |rs| && rs[k] == rec;
        assert props[k] == rec.property;
      }
      if d.instance == rec.instance && rec.property in props && rec.value == read(rec.instance, rec.property) {
        var k :| 0 <= k < |props| && props[k] == rec.property;
        assert rs[k] == rec;
      }
    }
  }

  /** When records are appended, a pair already present keeps resolving to its earliest record. */
  lemma {:induction false} EarliestCaptureWins(a: seq<InitialRecord>, b: seq<InitialRecord>, instance: InstanceId, property: string)
    ensures FindFirst(a, instance, property).Some? ==> FindFirst(a + b, instance, property) == FindFirst(a, instance, property)
    ensures FindFirst(a, instance, property).None? ==> FindFirst(a + b, instance, property) == FindFirst(b, instance, property)
  {
    if a != [] {
      assert (a + b)[0] == a[0];
      assert (a + b)[1..] == a[1..] + b;
      EarliestCaptureWins(a[1..], b, instance, property);
    } else {
      assert a + b == b;
    }
  }

  /** Serializing the same tree twice duplicates the records but leaves every lookup as it was. */
  lemma SecondCaptureChangesNoLookup(initial: seq<InitialRecord>, ds: seq<Descendant>, read: (InstanceId, string) -> KeyframeValue, instance: InstanceId, property: string)
    ensures var once := initial + Captured(ds, read);
            var twice := once + Captured(ds, read);
            |twice| == |once| + |Captured(ds, read)|
            && FindFirst(twice, instance, property) == FindFirst(once, instance, property)
  {
    var c := Captured(ds, read);
    var once := initial + c;
    EarliestCaptureWins(once, c, instance, property);
    if FindFirst(once, instance, property).None? {
      EarliestCaptureWins(initial, c, instance, property);
      assert FindFirst(c, instance, property).None?;
    }
  }
}

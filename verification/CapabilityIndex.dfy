/** The in-memory capability index: descriptors keyed by capability and source, replaced source by source. */
module CapabilityIndex {
  import opened Common
  import opened Sequences

  datatype Descriptor = Descriptor(
    schemaVersion: nat,
    id: string,
    capability: string,
    scope: string,
    permissions: seq<string>,
    risk: Option<nat>,
    enabled: bool)

  datatype Source = Source(schemaVersion: nat, sourceRef: string, trust: string, entries: seq<Descriptor>)

  datatype Indexed = Indexed(descriptor: Descriptor, source: string, trust: string)

  /** Keys are (capability, source). */
  type Index = map<(string, string), Indexed>

  datatype IndexError = Unidentified | IncompleteDescriptor | OutsideManaged | DuplicateDescriptor

  function ValidateSource(s: Source): Outcome<IndexError> {
    if s.schemaVersion == 0 || Blank(s.sourceRef) then Fail(Unidentified)
    else if exists i :: 0 <= i < |s.entries| &&
                        (s.entries[i].schemaVersion == 0 || Blank(s.entries[i].id) || Blank(s.entries[i].scope)) then
                          Fail(IncompleteDescriptor)
    else Pass
  }

  function KeyOf(s: Source, d: Descriptor): (string, string) { (d.id, s.sourceRef) }

  function IndexedOf(s: Source, d: Descriptor): Indexed { Indexed(d, s.sourceRef, s.trust) }

  /** The index without anything from `sources`. */
  function Without(entries: Index, sources: set<string>): Index {
    map k | k in entries && k.1 !in sources :: entries[k]
  }

  /** Adds descriptors one by one; with `unique` a key that is already there is refused. */
  function AddAll(acc: Index, s: Source, ds: seq<Descriptor>): Result<Index, IndexError>
    decreases |ds|
  {
    if |ds| == 0 then Ok(acc)
    else if KeyOf(s, ds[0]) in acc then Err(DuplicateDescriptor)
    else AddAll(acc[KeyOf(s, ds[0]) := IndexedOf(s, ds[0])], s, ds[1..])
  }

  function Collect(acc: Index, managed: set<string>, sources: seq<Source>): Result<Index, IndexError>
    decreases |sources|
  {
    if |sources| == 0 then Ok(acc)
    else if ValidateSource(sources[0]).Fail? then Err(ValidateSource(sources[0]).error)
    else if sources[0].sourceRef !in managed then Err(OutsideManaged)
    else match AddAll(acc, sources[0], sources[0].entries)
      case Err(e) => Err(e)
      case Ok(more) => Collect(more, managed, sources[1..])
  }

  /** Everything is validated before anything is replaced. */
  function Replace(entries: Index, managed: set<string>, sources: seq<Source>): Result<Index, IndexError> {
    if exists m :: m in managed && Blank(m) then Err(Unidentified)
    else match Collect(map[], managed, sources)
      case Err(e) => Err(e)
      case Ok(staged) => Ok(Without(entries, managed) + staged)
  }

  // ----- what a replacement leaves -----

  /** `d` is the descriptor that `sources` offers under key `k`. */
  ghost predicate Offers(sources: seq<Source>, k: (string, string), v: Indexed) {
    exists i, j :: 0 <= i < |sources| && 0 <= j < |sources[i].entries|
                   && KeyOf(sources[i], sources[i].entries[j]) == k && IndexedOf(sources[i], sources[i].entries[j]) == v
  }

  ghost predicate OffersOne(s: Source, ds: seq<Descriptor>, k: (string, string), v: Indexed) {
    exists j :: 0 <= j < |ds| && KeyOf(s, ds[j]) == k && IndexedOf(s, ds[j]) == v
  }

  predicate Holds(entries: Index, k: (string, string), v: Indexed) { k in entries && entries[k] == v }

  /** Accepted additions hold exactly what was there and what was offered. */
  lemma {:induction false} AddedExactly(acc: Index, s: Source, ds: seq<Descriptor>, k: (string, string), v: Indexed)
    requires AddAll(acc, s, ds).Ok?
    ensures Holds(AddAll(acc, s, ds).value, k, v) <==> Holds(acc, k, v) || OffersOne(s, ds, k, v)
    decreases |ds|
  {
    if |ds| > 0 {
      var next := acc[KeyOf(s, ds[0]) := IndexedOf(s, ds[0])];
      AddedExactly(next, s, ds[1..], k, v);
    }
  }

  /** Collecting adds exactly what the sources offer, each of them from the managed set. */
  lemma {:induction false} CollectedExactly(
      acc: Index, managed: set<string>, sources: seq<Source>, k: (string, string), v: Indexed)
    requires Collect(acc, managed, sources).Ok?
    ensures forall i :: 0 <= i < |sources| ==> sources[i].sourceRef in managed
    ensures Holds(Collect(acc, managed, sources).value, k, v) <==> Holds(acc, k, v) || Offers(sources, k, v)
    decreases |sources|
  {
    if |sources| > 0 {
      var first, rest := sources[0], sources[1..];
      var more := AddAll(acc, first, first.entries).value;
      AddedExactly(acc, first, first.entries, k, v);
      CollectedExactly(more, managed, rest, k, v);
      forall i | 0 <= i < |sources| ensures sources[i].sourceRef in managed {
        if i > 0 { assert rest[i - 1] == sources[i]; }
      }
      FirstOrRest(sources, k, v);
    }
  }

  lemma {:induction false} FirstOrRest(sources: seq<Source>, k: (string, string), v: Indexed)
    requires |sources| > 0
    ensures Offers(sources, k, v) <==> OffersOne(sources[0], sources[0].entries, k, v) || Offers(sources[1..], k, v)
  {
    var rest := sources[1..];
    if i, j :| 0 <= i < |sources| && 0 <= j < |sources[i].entries|
               && KeyOf(sources[i], sources[i].entries[j]) == k && IndexedOf(sources[i], sources[i].entries[j]) == v {
      if i > 0 { assert rest[i - 1] == sources[i]; }
    }
    if i, j :| 0 <= i < |rest| && 0 <= j < |rest[i].entries|
               && KeyOf(rest[i], rest[i].entries[j]) == k && IndexedOf(rest[i], rest[i].entries[j]) == v {
      assert sources[i + 1] == rest[i];
    }
  }

  lemma {:induction false} OffersUnderOwnSource(s: Source, k: (string, string), v: Indexed)
    requires OffersOne(s, s.entries, k, v)
    ensures k.1 == s.sourceRef
  {
  }

  /** Replacing keeps every unmanaged entry as it was and holds, for the managed sources, exactly what the
      replacement offers. */
  lemma {:induction false} ReplacedExactly(
      entries: Index, managed: set<string>, sources: seq<Source>, k: (string, string), v: Indexed)
    requires Replace(entries, managed, sources).Ok?
    ensures forall i :: 0 <= i < |sources| ==> sources[i].sourceRef in managed
    ensures Holds(Replace(entries, managed, sources).value, k, v) <==>
            (k.1 !in managed && Holds(entries, k, v)) || Offers(sources, k, v)
  {
    var staged := Collect(map[], managed, sources).value;
    CollectedExactly(map[], managed, sources, k, v);
    if k in staged {
      CollectedExactly(map[], managed, sources, k, staged[k]);
      var i, j :| 0 <= i < |sources| && 0 <= j < |sources[i].entries|
                  && KeyOf(sources[i], sources[i].entries[j]) == k
                     && IndexedOf(sources[i], sources[i].entries[j]) == staged[k];
      assert k.1 == sources[i].sourceRef;
    }
  }

  lemma {:induction false} ReplacedByOne(
      entries: Index, managed: set<string>, s: Source, k: (string, string), v: Indexed)
    requires Replace(entries, managed, [s]).Ok?
    ensures s.sourceRef in managed
    ensures Holds(Replace(entries, managed, [s]).value, k, v) <==>
            (k.1 !in managed && Holds(entries, k, v)) || OffersOne(s, s.entries, k, v)
  {
    ReplacedExactly(entries, managed, [s], k, v);
    FirstOrRest([s], k, v);
    assert [s][0] == s && [s][1..] == [];
  }

  // ----- which replacements are accepted -----

  ghost predicate CompleteSource(s: Source) {
    && s.schemaVersion > 0 && !Blank(s.sourceRef)
    && forall j :: 0 <= j < |s.entries| ==>
                     s.entries[j].schemaVersion > 0 && !Blank(s.entries[j].id) && !Blank(s.entries[j].scope)
  }

  /** Every descriptor of the sources by its id and the source it comes from, in order. */
  function OfferedKeys(sources: seq<Source>): seq<(string, string)> {
    if |sources| == 0 then [] else Map(sources[0].entries, EntryKey(sources[0].sourceRef)) + OfferedKeys(sources[1..])
  }

  function EntryKey(source: string): Descriptor -> (string, string) { (d: Descriptor) => (d.id, source) }

  ghost predicate NewTo(acc: Index, keys: seq<(string, string)>) {
    Distinct(keys) && forall i :: 0 <= i < |keys| ==> keys[i] !in acc
  }

  lemma {:induction false} NewToSplit(acc: Index, a: seq<(string, string)>, b: seq<(string, string)>)
    ensures NewTo(acc, a + b) <==> NewTo(acc, a) && NewTo(acc, b) && forall i :: 0 <= i < |b| ==> b[i] !in a
  {
    var both := a + b;
    if NewTo(acc, both) {
      forall i, j | 0 <= i < j < |a| ensures a[i] != a[j] { assert both[i] != both[j]; }
      forall i, j | 0 <= i < j < |b| ensures b[i] != b[j] { assert both[|a| + i] != both[|a| + j]; }
      forall i | 0 <= i < |a| ensures a[i] !in acc { assert both[i] !in acc; }
      forall i | 0 <= i < |b| ensures b[i] !in acc && b[i] !in a {
        assert both[|a| + i] !in acc;
        forall j | 0 <= j < |a| ensures a[j] != b[i] { assert both[j] != both[|a| + i]; }
      }
    }
  }

  lemma {:induction false} AddsExactly(acc: Index, s: Source, ds: seq<Descriptor>)
    ensures AddAll(acc, s, ds).Ok? <==> NewTo(acc, Map(ds, EntryKey(s.sourceRef)))
    ensures AddAll(acc, s, ds).Ok? ==>
              forall k :: k in AddAll(acc, s, ds).value <==> k in acc || k in Map(ds, EntryKey(s.sourceRef))
    decreases |ds|
  {
    if |ds| > 0 {
      var k, keys := KeyOf(s, ds[0]), Map(ds, EntryKey(s.sourceRef));
      var next := acc[k := IndexedOf(s, ds[0])];
      assert keys == [k] + Map(ds[1..], EntryKey(s.sourceRef));
      NewToSplit(acc, [k], Map(ds[1..], EntryKey(s.sourceRef)));
      AddsExactly(next, s, ds[1..]);
    }
  }

  /** What is new after some keys were added was new before and is none of them. */
  lemma {:induction false} NewAfter(acc: Index, more: Index, added: seq<(string, string)>, keys: seq<(string, string)>)
    requires forall k :: k in more <==> k in acc || k in added
    ensures NewTo(more, keys) <==> NewTo(acc, keys) && forall i :: 0 <= i < |keys| ==> keys[i] !in added
  {
  }

  ghost predicate AllIn(managed: set<string>, sources: seq<Source>) {
    forall i :: 0 <= i < |sources| ==> CompleteSource(sources[i]) && sources[i].sourceRef in managed
  }

  lemma {:induction false} AllInSplit(managed: set<string>, sources: seq<Source>)
    requires |sources| > 0
    ensures AllIn(managed, sources) <==>
            CompleteSource(sources[0]) && sources[0].sourceRef in managed && AllIn(managed, sources[1..])
  {
    var rest := sources[1..];
    assert forall i :: 1 <= i < |sources| ==> sources[i] == rest[i - 1];
    assert forall i :: 0 <= i < |rest| ==> rest[i] == sources[i + 1];
  }

  lemma {:induction false} CollectsExactly(acc: Index, managed: set<string>, sources: seq<Source>)
    ensures Collect(acc, managed, sources).Ok? <==> AllIn(managed, sources) && NewTo(acc, OfferedKeys(sources))
    decreases |sources|
  {
    if |sources| > 0 {
      var first, rest := sources[0], sources[1..];
      var keys := Map(first.entries, EntryKey(first.sourceRef));
      AddsExactly(acc, first, first.entries);
      NewToSplit(acc, keys, OfferedKeys(rest));
      AllInSplit(managed, sources);
      if AddAll(acc, first, first.entries).Ok? {
        var more := AddAll(acc, first, first.entries).value;
        CollectsExactly(more, managed, rest);
        NewAfter(acc, more, keys, OfferedKeys(rest));
      }
    }
  }

  /** A replacement is accepted exactly when every managed source is named, every source offered is complete and
      managed, and no source offers the same descriptor twice. */
  lemma {:induction false} ReplaceSucceedsExactly(entries: Index, managed: set<string>, sources: seq<Source>)
    ensures Replace(entries, managed, sources).Ok? <==>
            && (forall m :: m in managed ==> !Blank(m))
            && (forall i :: 0 <= i < |sources| ==> CompleteSource(sources[i]) && sources[i].sourceRef in managed)
            && Distinct(OfferedKeys(sources))
  {
    CollectsExactly(map[], managed, sources);
  }

  // ----- the registry object -----

  class InMemoryCapabilityRegistry {
    var entries: Index

    constructor ()
      ensures entries == map[]
    {
      entries := map[];
    }

    method RemoveSource(source: string)
      modifies this
      ensures entries == Without(old(entries), {source})
    {
      entries := map k | k in entries && k.1 != source :: entries[k];
    }

    method ReplaceSources(managed: set<string>, sources: seq<Source>) returns (r: Outcome<IndexError>)
      modifies this
      ensures match Replace(old(entries), managed, sources)
              case Ok(next) => r == Pass && entries == next
              case Err(e) => r == Fail(e) && entries == old(entries)
    {
      if exists m :: m in managed && Blank(m) { return Fail(Unidentified); }
      var staged: Index := map[];
      for i := 0 to |sources|
        invariant Collect(map[], managed, sources) == Collect(staged, managed, sources[i..])
        invariant entries == old(entries)
      {
        assert sources[i..][0] == sources[i] && sources[i..][1..] == sources[i + 1..];
        var valid := ValidateSource(sources[i]);
        if valid.Fail? { return Fail(valid.error); }
        if sources[i].sourceRef !in managed { return Fail(OutsideManaged); }
        ghost var before := staged;
        var ds := sources[i].entries;
        for j := 0 to |ds|
          invariant AddAll(before, sources[i], ds) == AddAll(staged, sources[i], ds[j..])
          invariant entries == old(entries)
        {
          assert ds[j..][0] == ds[j] && ds[j..][1..] == ds[j + 1..];
          if KeyOf(sources[i], ds[j]) in staged { return Fail(DuplicateDescriptor); }
          staged := staged[KeyOf(sources[i], ds[j]) := IndexedOf(sources[i], ds[j])];
        }
      }
      entries := Without(entries, managed) + staged;
      return Pass;
    }

    /** Registers a source from outside the package registry; a repeated descriptor overwrites the earlier one. */
    method IndexSource(source: Source) returns (r: Outcome<IndexError>)
      modifies this
      ensures r == ValidateSource(source)
      ensures r.Fail? ==> entries == old(entries)
      ensures r.Pass? ==> forall k: (string, string), v :: k.1 != source.sourceRef ==>
              (Holds(entries, k, v) <==> Holds(old(entries), k, v))
      ensures r.Pass? ==> forall k :: k in entries && k.1 == source.sourceRef ==>
              OffersOne(source, source.entries, k, entries[k])
      ensures r.Pass? ==> forall j :: 0 <= j < |source.entries| ==> KeyOf(source, source.entries[j]) in entries
    {
      r := ValidateSource(source);
      if r.Fail? { return; }
      entries := Without(entries, {source.sourceRef});
      for j := 0 to |source.entries|
        invariant forall k: (string, string), v :: k.1 != source.sourceRef ==>
                  (Holds(entries, k, v) <==> Holds(old(entries), k, v))
        invariant forall k :: k in entries && k.1 == source.sourceRef ==>
                  OffersOne(source, source.entries, k, entries[k])
        invariant forall i :: 0 <= i < j ==> KeyOf(source, source.entries[i]) in entries
      {
        entries := entries[KeyOf(source, source.entries[j]) := IndexedOf(source, source.entries[j])];
      }
    }
  }
}

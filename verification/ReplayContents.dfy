/** What a replay archive holds, told from the request and the stored events, and which archives are valid. */
module ReplayContents {
  import opened Common
  import opened Orders
  import opened Sequences
  import opened Replay

  // ----- requests -----

  ghost predicate NamesOnce(values: seq<string>) {
    && values != [] && (forall x :: x in values ==> !Blank(x))
    && forall i, j :: 0 <= i < j < |values| ==> values[i] != values[j]
  }

  lemma {:induction false} NamesOnceExactly(values: seq<string>)
    ensures AllNonempty(values) && Unique(values) <==> NamesOnce(values)
  {
    MembersCount(values);
    if AllNonempty(values) {
      forall x | x in values ensures !Blank(x) {
        var i :| 0 <= i < |values| && values[i] == x;
      }
    }
    if NamesOnce(values) {
      forall i | 0 <= i < |values| ensures !Blank(values[i]) { assert values[i] in values; }
    }
  }

  /** A request is valid exactly when it is versioned and named over a valid snapshot, names its runs, events and cases,
      each once, and permits no live effects. */
  lemma {:induction false} RequestsExactly(r: Request)
    ensures ValidRequest(r) <==>
            && r.snapshotValid && r.schemaVersion > 0 && !Blank(r.bundle)
            && NamesOnce(r.sourceRuns) && NamesOnce(r.eventRefs) && NamesOnce(r.cases)
            && (r.mode.ExactReplay? || r.mode.CounterfactualDeny?)
  {
    NamesOnceExactly(r.sourceRuns);
    NamesOnceExactly(r.eventRefs);
    NamesOnceExactly(r.cases);
  }

  // ----- records -----

  /** The record of an event: its identity, what the codec keeps of its body, and the digest of both. */
  ghost predicate Records(k: Codec, e: Event, r: Record) {
    && !Blank(e.id) && !Blank(e.run) && e.sequence > 0
    && r.schemaVersion == 1
    && r.envelope.id == e.id && r.envelope.run == e.run && r.envelope.sequence == e.sequence
    && k.project(e) == Some(r.envelope.kept)
    && k.acceptable(r.envelope)
    && r.digest == "fnv64:" + k.hash(r.envelope)
  }

  lemma {:induction false} RecordsExactly(k: Codec, e: Event, r: Record)
    ensures PortableRecord(k, e) == Some(r) <==> Records(k, e, r)
  {
  }

  /** The records are those of the events, one for one. */
  ghost predicate RecordsAll(k: Codec, events: seq<Event>, records: seq<Record>) {
    |records| == |events| && forall i :: 0 <= i < |events| ==> Records(k, events[i], records[i])
  }

  /** The events of the runs, one run after another. */
  function Sequenced(runs: seq<string>, streams: string -> seq<Event>): seq<Event> {
    if |runs| == 0 then [] else Sequenced(runs[..|runs| - 1], streams) + streams(runs[|runs| - 1])
  }

  lemma {:induction false} GatherRecordsAll(k: Codec, run: string, expected: set<string>, events: seq<Event>)
    requires Gather(k, run, expected, events).Ok?
    ensures RecordsAll(k, events, Gather(k, run, expected, events).value)
  {
    if |events| > 0 {
      GatherRecordsAll(k, run, expected, events[..|events| - 1]);
      RecordsExactly(k, events[|events| - 1], PortableRecord(k, events[|events| - 1]).value);
    }
  }

  lemma {:induction false} GatherAllRecordsAll(
      k: Codec, runs: seq<string>, expected: set<string>, streams: string -> seq<Event>)
    requires GatherAll(k, runs, expected, streams).Ok?
    ensures RecordsAll(k, Sequenced(runs, streams), GatherAll(k, runs, expected, streams).value)
    decreases |runs|
  {
    if |runs| > 0 {
      var last := runs[|runs| - 1];
      GatherAllRecordsAll(k, runs[..|runs| - 1], expected, streams);
      GatherRecordsAll(k, last, expected, streams(last));
    }
  }

  // ----- archives as built -----

  /** What the bundle digest is taken of. */
  ghost predicate Identifies(i: Identity, schemaVersion: nat, r: Request, records: seq<Record>) {
    && i.schemaVersion == schemaVersion && i.sourceRuns == r.sourceRuns && i.cases == r.cases
    && i.snapshot == r.snapshot && i.mode == r.mode
    && |i.eventRefs| == |records| && |i.digests| == |records|
    && forall j :: 0 <= j < |records| ==> i.eventRefs[j] == records[j].envelope.id && i.digests[j] == records[j].digest
  }

  lemma {:induction false} IdentityExactly(r: Request, records: seq<Record>, i: Identity)
    ensures Identifies(i, r.schemaVersion, r, records) <==> i == IdentityOf(r, records)
  {
    if Identifies(i, r.schemaVersion, r, records) {
      assert i.eventRefs == Ids(records) && i.digests == Digests(records);
    }
  }

  ghost predicate InTextOrder(sorted: seq<string>, s: seq<string>) {
    multiset(sorted) == multiset(s) && Rising(sorted)
  }

  /** The archive that a request asks for: its own fields, runs and cases in order, and one record for each event of
      the runs, run after run, under their ids. */
  ghost predicate Archives(k: Codec, request: Request, streams: string -> seq<Event>, a: Archive) {
    var m := a.manifest.request;
    && a.schemaVersion == 1 && m.schemaVersion == 1
    && m.bundle == request.bundle && m.snapshot == request.snapshot && m.mode == request.mode
    && InTextOrder(m.sourceRuns, request.sourceRuns) && InTextOrder(m.cases, request.cases)
    && RecordsAll(k, Sequenced(m.sourceRuns, streams), a.events)
    && |m.eventRefs| == |a.events|
    && (forall i :: 0 <= i < |a.events| ==> m.eventRefs[i] == a.events[i].envelope.id)
    && multiset(m.eventRefs) == multiset(request.eventRefs)
    && a.digest == a.manifest.contentDigest
    && exists i :: Identifies(i, request.schemaVersion, m, a.events) && a.digest == "fnv64:" + k.bundleHash(i)
  }

  lemma {:induction false} NormalizedInOrder(r: Request)
    requires ValidRequest(r)
    ensures InTextOrder(Texts(r.sourceRuns), r.sourceRuns) && InTextOrder(Texts(r.cases), r.cases)
  {
    SortedTexts(r.sourceRuns);
    SortedTexts(r.cases);
  }

  /** A store build makes just the archive that the request asks for. */
  lemma {:induction false} BuildsWhatIsAsked(k: Codec, request: Request, store: map<string, seq<Event>>)
    requires Build(k, request, store).Ok?
    ensures Archives(k, request, Stored(store), Build(k, request, store).value)
  {
    var r := Normalized(request);
    var gathered := GatherAll(k, r.sourceRuns, Members(r.eventRefs), Stored(store));
    var a := Build(k, request, store).value;
    NormalizedInOrder(request);
    GatheredSucceeds(k, request, Stored(store));
    BuildSucceedsExactly(k, request, store);
    CompleteExactly(k, request, Stored(store));
    GatherAllRecordsAll(k, r.sourceRuns, Members(r.eventRefs), Stored(store));
    ArchiveFromRecords(k, r, gathered.value);
    assert a == ArchiveFrom(k, r, gathered.value).value;
  }

  lemma {:induction false} ArchiveFromRecords(k: Codec, r: Request, records: seq<Record>)
    requires ArchiveFrom(k, r, records).Ok?
    ensures var a := ArchiveFrom(k, r, records).value;
            var m := a.manifest.request;
            && a.schemaVersion == 1 && m.schemaVersion == 1
            && m.bundle == r.bundle && m.snapshot == r.snapshot && m.mode == r.mode
            && m.sourceRuns == r.sourceRuns && m.cases == r.cases && a.events == records
            && m.eventRefs == Ids(records) && a.digest == a.manifest.contentDigest
            && (exists i :: Identifies(i, r.schemaVersion, m, records) && a.digest == "fnv64:" + k.bundleHash(i))
  {
    IdentityExactly(r, records, IdentityOf(r, records));
    assert Identifies(IdentityOf(r, records), r.schemaVersion, ArchiveFrom(k, r, records).value.manifest.request,
                      records);
  }

  // ----- valid archives -----

  /** The earlier records of the same run. */
  function Earlier(records: seq<Record>, i: int): set<int>
    requires 0 <= i < |records|
  {
    set j | 0 <= j < i && records[j].envelope.run == records[i].envelope.run
  }

  /** Each record carries its number among the records of its run, from one on. */
  ghost predicate Numbered(records: seq<Record>, run: string) {
    forall i :: 0 <= i < |records| && records[i].envelope.run == run ==>
                  records[i].envelope.sequence == |Earlier(records, i)| + 1
  }

  lemma {:induction false} NumberedSnoc(records: seq<Record>, run: string)
    requires |records| > 0
    ensures var front, last := records[..|records| - 1], records[|records| - 1];
            Numbered(records, run) <==>
            Numbered(front, run)
            && (last.envelope.run == run ==> last.envelope.sequence == |OfRun(front, run)| + 1)
  {
    var front, last := records[..|records| - 1], |records| - 1;
    forall i | 0 <= i < last ensures Earlier(records, i) == Earlier(front, i) { }
    if records[last].envelope.run == run {
      FilterPlacesCount(front, (r: Record) => r.envelope.run == run, Earlier(records, last));
    }
  }

  lemma {:induction false} NumberedExactly(records: seq<Record>, run: string)
    ensures Numbered(records, run) <==>
            forall i :: 0 <= i < |OfRun(records, run)| ==> OfRun(records, run)[i].envelope.sequence == i + 1
  {
    if |records| > 0 {
      var front, last := records[..|records| - 1], records[|records| - 1];
      NumberedExactly(front, run);
      NumberedSnoc(records, run);
      assert records == front + [last];
      FilterSnoc(front, last, (r: Record) => r.envelope.run == run);
      SnocNumbers(OfRun(front, run), last, OfRun(records, run), run);
    }
  }

  lemma {:induction false} SnocNumbers(before: seq<Record>, last: Record, after: seq<Record>, run: string)
    requires after == before + if last.envelope.run == run then [last] else []
    ensures (forall i :: 0 <= i < |after| ==> after[i].envelope.sequence == i + 1) <==>
            (forall i :: 0 <= i < |before| ==> before[i].envelope.sequence == i + 1)
            && (last.envelope.run == run ==> last.envelope.sequence == |before| + 1)
  {
    if last.envelope.run == run {
      assert forall i :: 0 <= i < |before| ==> after[i] == before[i];
      assert after[|before|] == last;
    } else {
      assert after == before;
    }
  }

  /** The list names exactly the runs of the records, in text order. */
  ghost predicate NamesRuns(runs: seq<string>, records: seq<Record>) {
    Rising(runs) && forall x :: x in runs <==> exists i :: 0 <= i < |records| && records[i].envelope.run == x
  }

  lemma {:induction false} RunsExactly(runs: seq<string>, records: seq<Record>)
    ensures RunsOf(records) == runs <==> NamesRuns(runs, records)
  {
    var texts := Texts(Runs(records));
    SortedTexts(Runs(records));
    DedupRises(texts);
    DedupMembers(texts);
    SameMembers(Runs(records), texts);
    forall x ensures x in RunsOf(records) <==> exists i :: 0 <= i < |records| && records[i].envelope.run == x {
      if x in RunsOf(records) {
        var i :| 0 <= i < |records| && Runs(records)[i] == x;
        assert records[i].envelope.run == x;
      }
      if i :| 0 <= i < |records| && records[i].envelope.run == x { assert Runs(records)[i] == x; }
    }
    if NamesRuns(runs, records) { RisingIsUnique(RunsOf(records), runs); }
  }

  /** What the validation of an archive asks. */
  ghost predicate Genuine(k: Codec, a: Archive) {
    var m := a.manifest.request;
    && ValidRequest(m) && !Blank(a.manifest.contentDigest)
    && a.schemaVersion > 0 && a.events != [] && a.digest == a.manifest.contentDigest
    && |m.eventRefs| == |a.events|
    && (forall i :: 0 <= i < |a.events| ==>
          && m.eventRefs[i] == a.events[i].envelope.id
          && a.events[i].schemaVersion > 0 && k.acceptable(a.events[i].envelope)
          && a.events[i].digest == "fnv64:" + k.hash(a.events[i].envelope))
    && NamesRuns(m.sourceRuns, a.events)
    && (forall run :: Numbered(a.events, run))
    && exists i :: Identifies(i, m.schemaVersion, m, a.events) && a.digest == "fnv64:" + k.bundleHash(i)
  }

  lemma {:induction false} RunsFoldExactly(records: seq<Record>, runs: seq<string>)
    requires NamesRuns(runs, records)
    ensures (forall i :: 0 <= i < |runs| ==> FoldRun(OfRun(records, runs[i])).Ok?) <==>
            forall run :: Numbered(records, run)
  {
    forall i | 0 <= i < |runs| ensures FoldRun(OfRun(records, runs[i])).Ok? <==> Numbered(records, runs[i]) {
      FoldsExactly(records, runs[i]);
      NumberedExactly(records, runs[i]);
      assert runs[i] in runs;
      var at :| 0 <= at < |records| && records[at].envelope.run == runs[i];
      FilterMembers(records, (r: Record) => r.envelope.run == runs[i]);
      assert records[at] in OfRun(records, runs[i]);
    }
    if forall i :: 0 <= i < |runs| ==> Numbered(records, runs[i]) {
      forall run ensures Numbered(records, run) {
        if run in runs { var i :| 0 <= i < |runs| && runs[i] == run; }
      }
    }
  }

  lemma {:induction false} IdsExactly(records: seq<Record>, refs: seq<string>)
    ensures Ids(records) == refs <==>
            |refs| == |records| && forall i :: 0 <= i < |records| ==> refs[i] == records[i].envelope.id
  {
  }

  lemma {:induction false} DigestExactly(k: Codec, a: Archive)
    requires a.digest == a.manifest.contentDigest
    ensures a.manifest.contentDigest == "fnv64:" + k.bundleHash(IdentityOf(a.manifest.request, a.events)) <==>
            exists i :: Identifies(i, a.manifest.request.schemaVersion, a.manifest.request, a.events)
                        && a.digest == "fnv64:" + k.bundleHash(i)
  {
    var m := a.manifest.request;
    IdentityExactly(m, a.events, IdentityOf(m, a.events));
    forall i ensures Identifies(i, m.schemaVersion, m, a.events) <==> i == IdentityOf(m, a.events) {
      IdentityExactly(m, a.events, i);
    }
  }

  /** An archive is valid exactly when its manifest is, and its records are those that the manifest lists, in order,
      each under its digest and numbered within its run, the runs being those the manifest names, and the digest of the
      whole being right. */
  lemma {:induction false} ValidExactly(k: Codec, a: Archive)
    ensures ValidArchive(k, a) <==> Genuine(k, a)
  {
    var m := a.manifest.request;
    IdsExactly(a.events, m.eventRefs);
    RunsExactly(m.sourceRuns, a.events);
    if a.digest == a.manifest.contentDigest { DigestExactly(k, a); }
    if NamesRuns(m.sourceRuns, a.events) { RunsFoldExactly(a.events, m.sourceRuns); }
  }

  // ----- the status of a replayed session -----

  predicate Changes(r: Record) { r.envelope.kept.session.Some? }

  /** The status shown is the last that a record gives, and the initial one when none does. */
  lemma {:induction false} StatusIsTheLast(run: string, records: seq<Record>, i: int)
    requires FoldFrom(run, records).Ok?
    ensures (forall j :: 0 <= j < |records| ==> !Changes(records[j])) ==>
              FoldFrom(run, records).value.status == "accepted"
    ensures 0 <= i < |records| && Changes(records[i]) && (forall j :: i < j < |records| ==> !Changes(records[j])) ==>
              FoldFrom(run, records).value.status == records[i].envelope.kept.session.value.status
  {
    if |records| > 0 {
      var front := records[..|records| - 1];
      StatusIsTheLast(run, front, i);
    }
  }
}

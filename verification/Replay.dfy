/** Building a portable replay archive, from loose events or from the event store. */
module Replay {
  import opened Common
  import opened Orders
  import opened Sequences

  /** `body` is everything else that the event carries. */
  datatype Event = Event(id: string, run: string, sequence: u64, body: string)

  datatype Field = Source | SessionRef | Workspace | WaitReason | ResumeRef | StopReason | ResultRef

  /** What an event changes about its session; absent fields stay as they are. */
  datatype SessionDelta = SessionDelta(status: string, values: map<Field, string>)

  /** What an envelope keeps of an event's body. */
  datatype Kept = Kept(rest: string, session: Option<SessionDelta>, transcript: Option<string>)

  datatype Envelope = Envelope(id: string, run: string, sequence: u64, kept: Kept)

  datatype Record = Record(schemaVersion: nat, envelope: Envelope, digest: string)

  datatype EffectMode = ExactReplay | CounterfactualDeny | LiveGoverned

  /** `snapshotValid` is the verdict of the snapshot's own validation. */
  datatype Request = Request(
    schemaVersion: nat,
    bundle: string,
    sourceRuns: seq<string>,
    eventRefs: seq<string>,
    cases: seq<string>,
    snapshot: string,
    snapshotValid: bool,
    mode: EffectMode)

  /** A manifest repeats the request, under its own schema version and with the refs in record order. */
  datatype Manifest = Manifest(request: Request, contentDigest: string)

  datatype Archive = Archive(schemaVersion: nat, manifest: Manifest, events: seq<Record>, digest: string)

  /** What the bundle digest covers. */
  datatype Identity = Identity(
    schemaVersion: nat, sourceRuns: seq<string>, eventRefs: seq<string>, digests: seq<string>, cases: seq<string>,
    snapshot: string, mode: EffectMode)

  /** The parts that are not modelled: what an envelope keeps of an event, whether it is acceptable, and
      the two digests. */
  datatype Codec = Codec(
    project: Event -> Option<Kept>,
    acceptable: Envelope -> bool,
    hash: Envelope -> string,
    bundleHash: Identity -> string)

  datatype ReplayError =
    | InvalidRequest
    | NoEvents
    | NotContiguous
    | RefNotCovered
    | BadRecord
    | RefsMismatch
    | InvalidManifest
    | InvalidArchive
    | BundleTaken
    | NotBuilt
    | HistoryChanged

  // ----- requests -----

  predicate AllNonempty(values: seq<string>) {
    |values| > 0 && forall i :: 0 <= i < |values| ==> !Blank(values[i])
  }

  predicate Unique(values: seq<string>) { |Members(values)| == |values| }

  predicate ValidRequest(r: Request) {
    && r.snapshotValid && r.schemaVersion != 0 && !Blank(r.bundle)
    && AllNonempty(r.sourceRuns) && AllNonempty(r.eventRefs) && AllNonempty(r.cases)
    && Unique(r.sourceRuns) && Unique(r.eventRefs) && Unique(r.cases)
    && r.mode != LiveGoverned
  }

  predicate ValidManifest(m: Manifest) { ValidRequest(m.request) && !Blank(m.contentDigest) }

  function Texts(s: seq<string>): seq<string> { Sort(s, TextLess) }

  function Normalized(r: Request): Request {
    r.(sourceRuns := Texts(r.sourceRuns), eventRefs := Texts(r.eventRefs), cases := Texts(r.cases))
  }

  // ----- records -----

  function PortableRecord(k: Codec, e: Event): Option<Record> {
    if Blank(e.id) || Blank(e.run) || e.sequence == 0 || k.project(e).None? then None
    else
      var envelope := Envelope(e.id, e.run, e.sequence, k.project(e).value);
      if k.acceptable(envelope) then Some(Record(1, envelope, "fnv64:" + k.hash(envelope))) else None
  }

  /** The records of one run's events, which must be numbered from one without a gap. */
  function Gather(k: Codec, run: string, expected: set<string>, events: seq<Event>): Result<seq<Record>, ReplayError> {
    if |events| == 0 then Ok([])
    else match Gather(k, run, expected, events[..|events| - 1])
      case Err(e) => Err(e)
      case Ok(records) =>
        var e := events[|events| - 1];
        if e.run != run || e.sequence != |events| then Err(NotContiguous)
        else if e.id !in expected then Err(RefNotCovered)
        else if PortableRecord(k, e).None? then Err(BadRecord)
        else Ok(records + [PortableRecord(k, e).value])
  }

  /** The records of all runs, run after run. */
  function GatherAll(k: Codec, runs: seq<string>, expected: set<string>, streams: string -> seq<Event>)
    : Result<seq<Record>, ReplayError>
  {
    if |runs| == 0 then Ok([])
    else match GatherAll(k, runs[..|runs| - 1], expected, streams)
      case Err(e) => Err(e)
      case Ok(records) =>
        var run := runs[|runs| - 1];
        if |streams(run)| == 0 then Err(NoEvents)
        else match Gather(k, run, expected, streams(run))
          case Err(e) => Err(e)
          case Ok(more) => Ok(records + more)
  }

  function Ids(records: seq<Record>): seq<string> { Map(records, (r: Record) => r.envelope.id) }

  function Runs(records: seq<Record>): seq<string> { Map(records, (r: Record) => r.envelope.run) }

  function Digests(records: seq<Record>): seq<string> { Map(records, (r: Record) => r.digest) }

  function IdentityOf(r: Request, records: seq<Record>): Identity {
    Identity(r.schemaVersion, r.sourceRuns, Ids(records), Digests(records), r.cases, r.snapshot, r.mode)
  }

  // ----- archives -----

  function OfRun(records: seq<Record>, run: string): seq<Record> {
    Filter(records, (r: Record) => r.envelope.run == run)
  }

  datatype Line = Line(id: string, sequence: u64, text: string)

  /** A run's session and transcript, as replaying its records shows them. */
  datatype Projection = Projection(status: string, values: map<Field, string>, lastSequence: u64, transcript: seq<Line>)

  const START: Projection := Projection("accepted", map[], 0, [])

  function Advance(p: Projection, e: Envelope): Projection {
    var seen := p.(lastSequence := e.sequence);
    var changed := match e.kept.session
                   case None => seen
                   case Some(delta) => seen.(status := delta.status, values := seen.values + delta.values);
    match e.kept.transcript
    case None => changed
    case Some(text) => changed.(transcript := changed.transcript + [Line(e.id, e.sequence, text)])
  }

  function FoldFrom(run: string, records: seq<Record>): Result<Projection, ReplayError> {
    if |records| == 0 then Ok(START)
    else match FoldFrom(run, records[..|records| - 1])
      case Err(e) => Err(e)
      case Ok(p) =>
        var e := records[|records| - 1].envelope;
        if e.run != run || e.sequence != |records| then Err(NotContiguous) else Ok(Advance(p, e))
  }

  function FoldRun(records: seq<Record>): Result<Projection, ReplayError> {
    if |records| == 0 then Err(NoEvents) else FoldFrom(records[0].envelope.run, records)
  }

  /** Numbered from one without a gap. */
  predicate FoldsCleanly(records: seq<Record>) {
    |records| > 0 && forall i :: 0 <= i < |records| ==> records[i].envelope.sequence == i + 1
  }

  /** Removes repetitions that stand next to each other. */
  function Dedup(s: seq<string>): seq<string> {
    if |s| <= 1 then s
    else if s[|s| - 2] == s[|s| - 1] then Dedup(s[..|s| - 1])
    else Dedup(s[..|s| - 1]) + [s[|s| - 1]]
  }

  function RunsOf(records: seq<Record>): seq<string> { Dedup(Texts(Runs(records))) }

  predicate ValidRecord(k: Codec, r: Record) {
    r.schemaVersion != 0 && k.acceptable(r.envelope) && r.digest == "fnv64:" + k.hash(r.envelope)
  }

  predicate ValidArchive(k: Codec, a: Archive) {
    && ValidManifest(a.manifest)
    && a.schemaVersion != 0 && |a.events| > 0 && a.digest == a.manifest.contentDigest
    && |a.events| == |a.manifest.request.eventRefs|
    && (forall i :: 0 <= i < |a.events| ==> ValidRecord(k, a.events[i]))
    && Ids(a.events) == a.manifest.request.eventRefs
    && RunsOf(a.events) == a.manifest.request.sourceRuns
    && (forall i :: 0 <= i < |RunsOf(a.events)| ==> FoldRun(OfRun(a.events, RunsOf(a.events)[i])).Ok?)
    && a.manifest.contentDigest == "fnv64:" + k.bundleHash(IdentityOf(a.manifest.request, a.events))
  }

  function ArchiveFrom(k: Codec, r: Request, records: seq<Record>): Result<Archive, ReplayError> {
    var digest := "fnv64:" + k.bundleHash(IdentityOf(r, records));
    var manifest := Manifest(r.(schemaVersion := 1, eventRefs := Ids(records)), digest);
    if !ValidManifest(manifest) then Err(InvalidManifest)
    else
      var archive := Archive(1, manifest, records, digest);
      if ValidArchive(k, archive) then Ok(archive) else Err(InvalidArchive)
  }

  // ----- the two builders -----

  function BySequence(): (Event, Event) -> bool { ByNumber((e: Event) => e.sequence) }

  /** A run's events among loose ones, in order. */
  function Loose(events: seq<Event>): string -> seq<Event> {
    (run: string) => Sort(Filter(events, (e: Event) => e.run == run), BySequence())
  }

  function Portable(k: Codec, request: Request, events: seq<Event>): Result<Archive, ReplayError> {
    if !ValidRequest(request) then Err(InvalidRequest)
    else
      var r := Normalized(request);
      match GatherAll(k, r.sourceRuns, Members(r.eventRefs), Loose(events))
      case Err(e) => Err(e)
      case Ok(records) =>
        if (exists i :: 0 <= i < |events| && events[i].run !in r.sourceRuns)
          || Members(Ids(records)) != Members(r.eventRefs)
        then Err(RefsMismatch)
        else ArchiveFrom(k, r, records)
  }

  function RecordOrder(): (Record, Record) -> bool {
    Then(ByText((r: Record) => r.envelope.run),
         Then(ByNumber((r: Record) => r.envelope.sequence), ByText((r: Record) => r.envelope.id)))
  }

  /** The store's streams, each in the order of its sequence numbers. */
  function Stored(store: map<string, seq<Event>>): string -> seq<Event> {
    (run: string) => if run in store then store[run] else []
  }

  function Collect(k: Codec, runs: seq<string>, refs: seq<string>, store: map<string, seq<Event>>)
    : Result<seq<Record>, ReplayError>
  {
    match GatherAll(k, runs, Members(refs), Stored(store))
    case Err(e) => Err(e)
    case Ok(records) =>
      if Members(Ids(records)) != Members(refs) then Err(RefsMismatch) else Ok(Sort(records, RecordOrder()))
  }

  function Build(k: Codec, request: Request, store: map<string, seq<Event>>): Result<Archive, ReplayError> {
    if !ValidRequest(request) then Err(InvalidRequest)
    else
      var r := Normalized(request);
      match Collect(k, r.sourceRuns, r.eventRefs, store)
      case Err(e) => Err(e)
      case Ok(records) => ArchiveFrom(k, r, records)
  }

  // ----- sorted texts -----

  ghost predicate Rising(s: seq<string>) {
    forall i, j :: 0 <= i < j < |s| ==> TextLess(s[i], s[j])
  }

  lemma {:induction false} TextLessIsWeakOrder()
    ensures WeakOrder(TextLess)
  {
    forall x ensures !TextLess(x, x) { TextLessIrreflexive(x); }
    forall x, y | TextLess(x, y) ensures !TextLess(y, x) { TextLessTotal(x, y); }
    forall x, y, z | TextLess(x, z) ensures TextLess(x, y) || TextLess(y, z) {
      TextLessTotal(x, y);
      TextLessTotal(y, z);
      if TextLess(y, x) && TextLess(x, z) { TextLessTransitive(y, x, z); }
    }
  }

  lemma {:induction false} SortedTexts(s: seq<string>)
    ensures multiset(Texts(s)) == multiset(s) && |Texts(s)| == |s| && Sorted(Texts(s), TextLess)
    ensures Members(Texts(s)) == Members(s)
    ensures Unique(Texts(s)) <==> Unique(s)
    ensures Unique(s) ==> Rising(Texts(s))
  {
    TextLessIsWeakOrder();
    SortSorts(s, TextLess);
    SameMembers(s, Texts(s));
    assert Members(Texts(s)) == Members(s);
    if Unique(s) {
      MembersCount(Texts(s));
      forall i, j | 0 <= i < j < |Texts(s)| ensures TextLess(Texts(s)[i], Texts(s)[j]) {
        TextLessTotal(Texts(s)[i], Texts(s)[j]);
      }
    }
  }

  lemma {:induction false} EmptyTogether(a: seq<string>, b: seq<string>)
    requires forall x :: x in a ==> x in b
    ensures |b| == 0 ==> |a| == 0
  {
    if |a| > 0 { assert a[0] in b; }
  }

  /** There is one rising list of given members. */
  lemma {:induction false} RisingIsUnique(a: seq<string>, b: seq<string>)
    requires Rising(a) && Rising(b) && forall x :: x in a <==> x in b
    ensures a == b
  {
    if |a| > 0 && |b| > 0 {
      assert a[0] in b && b[0] in a;
      FirstIsLeast(a, b[0]);
      FirstIsLeast(b, a[0]);
      TextLessTotal(a[0], b[0]);
      forall x ensures x in a[1..] <==> x in b[1..] {
        RestOfRising(a, x);
        RestOfRising(b, x);
      }
      RisingIsUnique(a[1..], b[1..]);
      assert a == [a[0]] + a[1..] && b == [b[0]] + b[1..];
    } else {
      EmptyTogether(a, b);
      EmptyTogether(b, a);
    }
  }

  lemma {:induction false} FirstIsLeast(s: seq<string>, x: string)
    requires Rising(s) && x in s
    ensures s[0] == x || TextLess(s[0], x)
  {
  }

  lemma {:induction false} RestOfRising(s: seq<string>, x: string)
    requires Rising(s) && |s| > 0
    ensures x in s[1..] <==> x in s && x != s[0]
  {
    TextLessIrreflexive(s[0]);
    if x in s && x != s[0] {
      var i :| 0 <= i < |s| && s[i] == x;
      assert s[1..][i - 1] == x;
    }
  }

  lemma {:induction false} DedupMembers(s: seq<string>)
    ensures forall x :: x in Dedup(s) <==> x in s
    ensures |s| > 0 ==> |Dedup(s)| > 0 && Dedup(s)[|Dedup(s)| - 1] == s[|s| - 1]
  {
    if |s| > 1 {
      DedupMembers(s[..|s| - 1]);
      assert s == s[..|s| - 1] + [s[|s| - 1]];
    }
  }

  lemma {:induction false} DedupRises(s: seq<string>)
    requires Sorted(s, TextLess)
    ensures Rising(Dedup(s))
  {
    if |s| > 1 {
      var front, last := s[..|s| - 1], s[|s| - 1];
      DedupRises(front);
      DedupMembers(front);
      if front[|front| - 1] != last {
        TextLessTotal(front[|front| - 1], last);
        RisingSnoc(Dedup(front), last);
      }
    }
  }

  lemma {:induction false} RisingSnoc(s: seq<string>, x: string)
    requires Rising(s) && |s| > 0 && TextLess(s[|s| - 1], x)
    ensures Rising(s + [x])
  {
    forall i | 0 <= i < |s| - 1 ensures TextLess(s[i], x) { TextLessTransitive(s[i], s[|s| - 1], x); }
  }

  // ----- gathering one run -----

  lemma {:induction false} GatheredRun(k: Codec, run: string, expected: set<string>, events: seq<Event>)
    requires Gather(k, run, expected, events).Ok?
    ensures var records := Gather(k, run, expected, events).value;
            && |records| == |events|
            && forall i :: 0 <= i < |records| ==>
                 events[i].run == run && events[i].sequence == i + 1 && records[i].envelope.run == run
                 && records[i].envelope.sequence == i + 1 && ValidRecord(k, records[i])
                 && records[i].envelope.id in expected && !Blank(records[i].envelope.id)
  {
    if |events| > 0 { GatheredRun(k, run, expected, events[..|events| - 1]); }
  }

  /** Numbered without a gap, a run's events have only one order. */
  lemma {:induction false} ContiguousSortsOneWay(
      k: Codec, run: string, expected: set<string>, a: seq<Event>, b: seq<Event>)
    requires Gather(k, run, expected, Sort(a, BySequence())).Ok? && multiset(a) == multiset(b)
    ensures Sort(a, BySequence()) == Sort(b, BySequence())
  {
    var sorted := Sort(a, BySequence());
    ByNumberIsWeakOrder((e: Event) => e.sequence);
    SortSorts(a, BySequence());
    SortSorts(b, BySequence());
    GatheredRun(k, run, expected, sorted);
    SortedIsUnique(sorted, Sort(b, BySequence()), BySequence());
  }

  // ----- gathering all runs -----

  /** The records lie run by run in rising order of runs, each run numbered from one without a gap. */
  ghost predicate Laid(k: Codec, runs: seq<string>, records: seq<Record>) {
    && (forall i :: 0 <= i < |records| ==>
          records[i].envelope.run in runs && ValidRecord(k, records[i]) && !Blank(records[i].envelope.id))
    && (forall i :: 0 <= i < |runs| ==> FoldsCleanly(OfRun(records, runs[i])))
    && Ascending(records)
  }

  ghost predicate Ascending(records: seq<Record>) {
    forall i, j :: 0 <= i < j < |records| ==> RecordOrder()(records[i], records[j])
  }

  lemma {:induction false} GatheredIsLaid(
      k: Codec, runs: seq<string>, expected: set<string>, streams: string -> seq<Event>)
    requires Rising(runs) && GatherAll(k, runs, expected, streams).Ok?
    ensures Laid(k, runs, GatherAll(k, runs, expected, streams).value)
    ensures forall id :: id in Ids(GatherAll(k, runs, expected, streams).value) ==> id in expected
    decreases |runs|
  {
    if |runs| > 0 {
      var front, run := runs[..|runs| - 1], runs[|runs| - 1];
      GatheredIsLaid(k, front, expected, streams);
      var records := GatherAll(k, front, expected, streams).value;
      var more := Gather(k, run, expected, streams(run)).value;
      GatheredRun(k, run, expected, streams(run));
      AppendedRunIsLaid(k, runs, records, more);
      MapConcat(records, more, (r: Record) => r.envelope.id);
    }
  }

  lemma {:induction false} AppendedRunIsLaid(k: Codec, runs: seq<string>, records: seq<Record>, more: seq<Record>)
    requires |runs| > 0 && Rising(runs) && Laid(k, runs[..|runs| - 1], records) && |more| > 0
    requires forall i :: 0 <= i < |more| ==>
               more[i].envelope.run == runs[|runs| - 1] && more[i].envelope.sequence == i + 1
               && ValidRecord(k, more[i]) && !Blank(more[i].envelope.id)
    ensures Laid(k, runs, records + more)
  {
    var front, run := runs[..|runs| - 1], runs[|runs| - 1];
    AppendedRunFolds(k, runs, records, more);
    forall i, j | 0 <= i < j < |records + more| ensures RecordOrder()((records + more)[i], (records + more)[j]) {
      if i < |records| && j >= |records| {
        var x :| 0 <= x < |front| && front[x] == records[i].envelope.run;
        assert TextLess(runs[x], run);
      } else if i >= |records| {
        TextLessIrreflexive(run);
      }
    }
    forall i | 0 <= i < |records + more| ensures (records + more)[i].envelope.run in runs {
      if i >= |records| { assert runs[|runs| - 1] in runs; }
    }
  }

  lemma {:induction false} AppendedRunFolds(k: Codec, runs: seq<string>, records: seq<Record>, more: seq<Record>)
    requires |runs| > 0 && Rising(runs) && Laid(k, runs[..|runs| - 1], records) && |more| > 0
    requires forall i :: 0 <= i < |more| ==>
             more[i].envelope.run == runs[|runs| - 1] && more[i].envelope.sequence == i + 1
    ensures forall i :: 0 <= i < |runs| ==> FoldsCleanly(OfRun(records + more, runs[i]))
  {
    var front, run := runs[..|runs| - 1], runs[|runs| - 1];
    forall i | 0 <= i < |runs| ensures FoldsCleanly(OfRun(records + more, runs[i])) {
      if i < |front| {
        assert TextLess(runs[i], run);
        TextLessIrreflexive(run);
        OtherRunStays(records, more, front[i]);
        assert FoldsCleanly(OfRun(records, front[i]));
      } else {
        forall x | 0 <= x < |records| ensures records[x].envelope.run != run {
          OlderRunDiffers(runs, records[x].envelope.run);
        }
        NewRunIsAppended(records, more, run);
      }
    }
  }

  lemma {:induction false} OlderRunDiffers(runs: seq<string>, older: string)
    requires |runs| > 0 && Rising(runs) && older in runs[..|runs| - 1]
    ensures older != runs[|runs| - 1]
  {
    var y :| 0 <= y < |runs| - 1 && runs[y] == older;
    TextLessIrreflexive(older);
  }

  lemma {:induction false} OtherRunStays(records: seq<Record>, more: seq<Record>, run: string)
    requires forall i :: 0 <= i < |more| ==> more[i].envelope.run != run
    ensures OfRun(records + more, run) == OfRun(records, run)
  {
    var keep := (r: Record) => r.envelope.run == run;
    FilterConcat(records, more, keep);
    FilterNone(more, keep);
  }

  lemma {:induction false} NewRunIsAppended(records: seq<Record>, more: seq<Record>, run: string)
    requires forall i :: 0 <= i < |records| ==> records[i].envelope.run != run
    requires forall i :: 0 <= i < |more| ==> more[i].envelope.run == run
    ensures OfRun(records + more, run) == more
  {
    var keep := (r: Record) => r.envelope.run == run;
    FilterConcat(records, more, keep);
    FilterAll(more, keep);
    FilterNone(records, keep);
  }

  /** Records that ascend are in sorted order already. */
  lemma {:induction false} AscendingStays(records: seq<Record>)
    requires Ascending(records)
    ensures Sort(records, RecordOrder()) == records
  {
    if |records| > 0 {
      AscendingStays(records[1..]);
      if |records| > 1 {
        assert RecordOrder()(records[0], records[1]);
        OrderIsAsymmetric(records[0], records[1]);
      }
      assert records == [records[0]] + records[1..];
    }
  }

  lemma {:induction false} OrderIsAsymmetric(a: Record, b: Record)
    requires RecordOrder()(a, b)
    ensures !RecordOrder()(b, a)
  {
    TextLessTotal(a.envelope.run, b.envelope.run);
    TextLessTotal(a.envelope.id, b.envelope.id);
  }

  lemma {:induction false} RunHasRecord(records: seq<Record>, run: string)
    requires FoldsCleanly(OfRun(records, run))
    ensures run in Runs(records)
  {
    var mine := OfRun(records, run);
    FilterMembers(records, (r: Record) => r.envelope.run == run);
    assert mine[0] in mine;
    var j :| 0 <= j < |records| && records[j] == mine[0];
    assert Runs(records)[j] == run;
  }

  /** The runs of laid records are the runs they were laid for. */
  lemma {:induction false} LaidRuns(k: Codec, runs: seq<string>, records: seq<Record>)
    requires Rising(runs) && Laid(k, runs, records)
    ensures RunsOf(records) == runs
  {
    SortedTexts(Runs(records));
    DedupRises(Texts(Runs(records)));
    DedupMembers(Texts(Runs(records)));
    SameMembers(Runs(records), Texts(Runs(records)));
    forall x ensures x in Runs(records) <==> x in runs {
      if x in Runs(records) { var i :| 0 <= i < |records| && Runs(records)[i] == x; }
      if x in runs {
        var i :| 0 <= i < |runs| && runs[i] == x;
        RunHasRecord(records, runs[i]);
      }
    }
    RisingIsUnique(RunsOf(records), runs);
  }

  // ----- folding a run -----

  lemma {:induction false} FoldFromExactly(run: string, records: seq<Record>)
    ensures FoldFrom(run, records).Ok? <==>
            forall i :: 0 <= i < |records| ==> records[i].envelope.run == run && records[i].envelope.sequence == i + 1
  {
    if |records| > 0 {
      var front, last := records[..|records| - 1], records[|records| - 1];
      FoldFromExactly(run, front);
      assert records == front + [last];
    }
  }

  /** Folding a run's records fails exactly when there are none or they are not numbered from one without a gap. */
  lemma {:induction false} FoldsExactly(records: seq<Record>, run: string)
    ensures FoldRun(OfRun(records, run)).Ok? <==> FoldsCleanly(OfRun(records, run))
  {
    var mine := OfRun(records, run);
    FilterMembers(records, (r: Record) => r.envelope.run == run);
    forall i | 0 <= i < |mine| ensures mine[i].envelope.run == run { assert mine[i] in mine; }
    if |mine| > 0 { FoldFromExactly(mine[0].envelope.run, mine); }
  }

  predicate Sets(r: Record, f: Field) { r.envelope.kept.session.Some? && f in r.envelope.kept.session.value.values }

  /** The record at `i` is the last to set `f`. */
  predicate LastToSet(records: seq<Record>, f: Field, i: nat) {
    i < |records| && Sets(records[i], f) && forall j :: i < j < |records| ==> !Sets(records[j], f)
  }

  /** A field is shown exactly when some record sets it. */
  lemma {:induction false} FieldSetExactly(run: string, records: seq<Record>, f: Field)
    requires FoldFrom(run, records).Ok?
    ensures f in FoldFrom(run, records).value.values <==> exists j :: 0 <= j < |records| && Sets(records[j], f)
  {
    if |records| > 0 {
      var front, last := records[..|records| - 1], records[|records| - 1];
      FieldSetExactly(run, front, f);
      assert records[|records| - 1] == last;
      if f in FoldFrom(run, front).value.values {
        var j :| 0 <= j < |front| && Sets(front[j], f);
        assert Sets(records[j], f);
      }
      if j :| 0 <= j < |records| && Sets(records[j], f) && !Sets(last, f) { assert Sets(front[j], f); }
    }
  }

  /** A shown field has the value that the last record to set it gives. */
  lemma {:induction false} LastValueWins(run: string, records: seq<Record>, f: Field, i: nat)
    requires FoldFrom(run, records).Ok? && LastToSet(records, f, i)
    ensures f in FoldFrom(run, records).value.values
    ensures FoldFrom(run, records).value.values[f] == records[i].envelope.kept.session.value.values[f]
  {
    var front, last := records[..|records| - 1], records[|records| - 1];
    if i < |front| {
      assert !Sets(last, f) && LastToSet(front, f, i);
      LastValueWins(run, front, f, i);
    }
  }

  function Lines(records: seq<Record>): seq<Line> {
    if |records| == 0 then []
    else
      var e := records[|records| - 1].envelope;
      Lines(records[..|records| - 1])
      + if e.kept.transcript.Some? then [Line(e.id, e.sequence, e.kept.transcript.value)] else []
  }

  /** The transcript is the texts of the records that carry one, in order, under the numbers they have. */
  lemma {:induction false} TranscriptIsExact(run: string, records: seq<Record>)
    requires FoldFrom(run, records).Ok?
    ensures FoldFrom(run, records).value.transcript == Lines(records)
    ensures FoldFrom(run, records).value.lastSequence == |records|
  {
    if |records| > 0 { TranscriptIsExact(run, records[..|records| - 1]); }
  }

  // ----- when an archive comes about -----

  lemma {:induction false} PrefixIsNotBlank(text: string)
    ensures !Blank("fnv64:" + text)
  {
    assert ("fnv64:" + text)[0] == 'f';
  }

  /** The bundle digest does not tell the request's schema version from the manifest's. */
  predicate VersionAgrees(k: Codec, r: Request, records: seq<Record>) {
    k.bundleHash(IdentityOf(r, records)) == k.bundleHash(IdentityOf(r.(schemaVersion := 1), records))
  }

  lemma {:induction false} SameVersionAgrees(k: Codec, r: Request, records: seq<Record>)
    ensures r.schemaVersion == 1 ==> VersionAgrees(k, r, records)
  {
    if r.schemaVersion == 1 { assert r == r.(schemaVersion := 1); }
  }

  lemma {:induction false} PrefixedEqual(a: string, b: string)
    ensures "fnv64:" + a == "fnv64:" + b <==> a == b
  {
    assert ("fnv64:" + a)[6..] == a && ("fnv64:" + b)[6..] == b;
  }

  /** The manifest of a fresh archive is valid exactly when no event is archived twice. */
  lemma {:induction false} FreshManifestIsValid(k: Codec, r: Request, records: seq<Record>)
    requires ValidRequest(r) && Rising(r.sourceRuns) && Laid(k, r.sourceRuns, records)
    ensures var digest := "fnv64:" + k.bundleHash(IdentityOf(r, records));
            ValidManifest(Manifest(r.(schemaVersion := 1, eventRefs := Ids(records)), digest)) <==>
              Distinct(Ids(records))
    ensures |records| > 0
  {
    MembersCount(Ids(records));
    PrefixIsNotBlank(k.bundleHash(IdentityOf(r, records)));
    assert |records| > 0 by {
      assert FoldsCleanly(OfRun(records, r.sourceRuns[0]));
      FilterCounts(records, (x: Record) => x.envelope.run == r.sourceRuns[0]);
    }
    assert AllNonempty(Ids(records));
  }

  lemma {:induction false} ArchiveFromExactly(k: Codec, r: Request, records: seq<Record>)
    requires ValidRequest(r) && Rising(r.sourceRuns) && Laid(k, r.sourceRuns, records)
    ensures ArchiveFrom(k, r, records).Ok? <==> Distinct(Ids(records)) && VersionAgrees(k, r, records)
  {
    var request := r.(schemaVersion := 1, eventRefs := Ids(records));
    LaidRuns(k, r.sourceRuns, records);
    forall i | 0 <= i < |r.sourceRuns| ensures FoldRun(OfRun(records, r.sourceRuns[i])).Ok? {
      FoldsExactly(records, r.sourceRuns[i]);
    }
    PrefixedEqual(k.bundleHash(IdentityOf(r, records)), k.bundleHash(IdentityOf(request, records)));
    assert IdentityOf(request, records) == IdentityOf(r.(schemaVersion := 1), records);
    FreshManifestIsValid(k, r, records);
  }

  // ----- the main results -----

  /** A run's stream can be replayed: it has events, and each belongs to the run, is numbered by its place, is
      requested and can be recorded. */
  ghost predicate RunReplays(k: Codec, run: string, requested: seq<string>, events: seq<Event>) {
    && |events| > 0
    && forall i :: 0 <= i < |events| ==>
         events[i].run == run && events[i].sequence == i + 1 && events[i].id in requested
           && PortableRecord(k, events[i]).Some?
  }

  /** The records of a run's events, in their order. */
  function RecordsOf(k: Codec, events: seq<Event>): seq<Record> {
    if |events| == 0 then []
    else
      RecordsOf(k, events[..|events| - 1])
      + match PortableRecord(k, events[|events| - 1])
        case None => []
        case Some(record) => [record]
  }

  function StreamRecords(k: Codec, runs: seq<string>, streams: string -> seq<Event>): seq<Record> {
    if |runs| == 0 then [] else StreamRecords(k, runs[..|runs| - 1], streams) + RecordsOf(k, streams(runs[|runs| - 1]))
  }

  /** What a builder needs to find: a replayable stream for each requested run, the streams together holding
      exactly the requested events, each once. */
  ghost predicate Complete(k: Codec, request: Request, streams: string -> seq<Event>) {
    && ValidRequest(request)
    && (forall run :: run in request.sourceRuns ==> RunReplays(k, run, request.eventRefs, streams(run)))
    && multiset(Ids(StreamRecords(k, Texts(request.sourceRuns), streams))) == multiset(request.eventRefs)
  }

  ghost predicate Replayable(k: Codec, request: Request, streams: string -> seq<Event>) {
    Complete(k, request, streams)
      && VersionAgrees(k, Normalized(request), StreamRecords(k, Texts(request.sourceRuns), streams))
  }

  lemma {:induction false} GatherExactly(k: Codec, run: string, requested: seq<string>, events: seq<Event>)
    ensures |events| > 0 ==> (Gather(k, run, Members(requested), events).Ok? <==> RunReplays(k, run, requested, events))
    ensures Gather(k, run, Members(requested), events).Ok? ==>
              Gather(k, run, Members(requested), events) == Ok(RecordsOf(k, events))
  {
    if |events| > 0 {
      var front, last := events[..|events| - 1], events[|events| - 1];
      GatherExactly(k, run, requested, front);
      assert events == front + [last];
    }
  }

  lemma {:induction false} GatherAllExactly(
      k: Codec, runs: seq<string>, requested: seq<string>, streams: string -> seq<Event>)
    ensures GatherAll(k, runs, Members(requested), streams).Ok? <==>
            forall run :: run in runs ==> RunReplays(k, run, requested, streams(run))
    ensures GatherAll(k, runs, Members(requested), streams).Ok? ==>
              GatherAll(k, runs, Members(requested), streams) == Ok(StreamRecords(k, runs, streams))
    decreases |runs|
  {
    if |runs| > 0 {
      var front, last := runs[..|runs| - 1], runs[|runs| - 1];
      GatherAllExactly(k, front, requested, streams);
      GatherExactly(k, last, requested, streams(last));
      assert runs == front + [last];
    }
  }

  lemma {:induction false} OnceEachExactly(a: seq<string>, b: seq<string>)
    requires Distinct(b)
    ensures multiset(a) == multiset(b) <==> Members(a) == Members(b) && Distinct(a)
  {
    if Members(a) == Members(b) && Distinct(a) {
      DistinctCounts(a);
      DistinctCounts(b);
    }
    if multiset(a) == multiset(b) {
      SameMembers(a, b);
      assert Members(a) == Members(b);
      MembersCount(a);
      MembersCount(b);
    }
  }

  /** What the first pass of a builder finds, without its error handling. */
  lemma {:induction false} CompleteExactly(k: Codec, request: Request, streams: string -> seq<Event>)
    requires ValidRequest(request)
    ensures var r := Normalized(request);
            var gathered := GatherAll(k, r.sourceRuns, Members(r.eventRefs), streams);
            && (Complete(k, request, streams) <==>
                gathered.Ok? && Members(Ids(gathered.value)) == Members(r.eventRefs) && Distinct(Ids(gathered.value)))
            && (gathered.Ok? ==> gathered.value == StreamRecords(k, r.sourceRuns, streams))
  {
    var records := StreamRecords(k, Texts(request.sourceRuns), streams);
    SortedTexts(request.sourceRuns);
    SortedTexts(request.eventRefs);
    SameMembers(request.sourceRuns, Texts(request.sourceRuns));
    GatherAllExactly(k, Texts(request.sourceRuns), request.eventRefs, streams);
    MembersCount(request.eventRefs);
    OnceEachExactly(Ids(records), request.eventRefs);
  }

  lemma {:induction false} NormalizedIsValid(r: Request)
    requires ValidRequest(r)
    ensures ValidRequest(Normalized(r)) && Rising(Normalized(r).sourceRuns)
  {
    SortedTexts(r.sourceRuns);
    SortedTexts(r.eventRefs);
    SortedTexts(r.cases);
    SortedStaysNonempty(r.sourceRuns);
    SortedStaysNonempty(r.eventRefs);
    SortedStaysNonempty(r.cases);
  }

  lemma {:induction false} SortedStaysNonempty(s: seq<string>)
    requires AllNonempty(s)
    ensures AllNonempty(Texts(s))
  {
    SortedTexts(s);
    SameMembers(s, Texts(s));
    forall i | 0 <= i < |Texts(s)| ensures !Blank(Texts(s)[i]) { assert Texts(s)[i] in s; }
  }

  /** A store build succeeds exactly on replayable requests: the archive it makes always passes its own
      validation, except that a request of another schema version than the manifest's needs a digest
      that cannot tell the two apart. */
  lemma {:induction false} BuildSucceedsExactly(k: Codec, request: Request, store: map<string, seq<Event>>)
    ensures Build(k, request, store).Ok? <==> Replayable(k, request, Stored(store))
    ensures Build(k, request, store).Ok? ==> ValidArchive(k, Build(k, request, store).value)
  {
    if ValidRequest(request) {
      GatheredSucceeds(k, request, Stored(store));
      CompleteExactly(k, request, Stored(store));
    }
  }

  /** A request at the manifest's schema version needs nothing of the digest. */
  lemma {:induction false} VersionOneBuildsExactly(k: Codec, request: Request, store: map<string, seq<Event>>)
    requires request.schemaVersion == 1
    ensures Build(k, request, store).Ok? <==> Complete(k, request, Stored(store))
  {
    BuildSucceedsExactly(k, request, store);
    SameVersionAgrees(k, Normalized(request), StreamRecords(k, Texts(request.sourceRuns), Stored(store)));
  }

  /** A complete request at another version is refused once the digest tells the versions apart: the builder
      rejects the archive it has just made. */
  lemma {:induction false} VersionMismatchIsRefused(k: Codec, request: Request, store: map<string, seq<Event>>)
    requires Complete(k, request, Stored(store)) && !Replayable(k, request, Stored(store))
    ensures request.schemaVersion != 1 && Build(k, request, store) == Err(InvalidArchive)
  {
    var r := Normalized(request);
    var records := StreamRecords(k, r.sourceRuns, Stored(store));
    GatheredSucceeds(k, request, Stored(store));
    CompleteExactly(k, request, Stored(store));
    NormalizedIsValid(request);
    GatheredIsLaid(k, r.sourceRuns, Members(r.eventRefs), Stored(store));
    SameVersionAgrees(k, r, records);
    FreshManifestIsValid(k, r, records);
  }

  /** A digest over nothing but the schema version, which it tells apart. */
  function VersionCodec(): Codec {
    Codec((e: Event) => Some(Kept(e.body, None, None)), (e: Envelope) => true, (e: Envelope) => e.id,
          (i: Identity) => if i.schemaVersion == 1 then "one" else "other")
  }

  function OneEventRequest(schemaVersion: nat): Request {
    Request(schemaVersion, "bundle", ["run"], ["e1"], ["case"], "snapshot", true, ExactReplay)
  }

  function OneEventStore(): map<string, seq<Event>> { map["run" := [Event("e1", "run", 1, "body")]] }

  lemma {:induction false} OneEventIsComplete(schemaVersion: nat)
    requires schemaVersion > 0
    ensures Complete(VersionCodec(), OneEventRequest(schemaVersion), Stored(OneEventStore()))
  {
    var k, request, streams := VersionCodec(), OneEventRequest(schemaVersion), Stored(OneEventStore());
    var events := streams("run");
    assert events[..0] == [] && request.sourceRuns[..0] == [];
    assert "run"[0] != ' ' && "e1"[0] != ' ' && "case"[0] != ' ' && "bundle"[0] != ' ';
    MembersCount(request.sourceRuns);
    MembersCount(request.eventRefs);
    MembersCount(request.cases);
    assert RecordsOf(k, events) == [] + [PortableRecord(k, events[0]).value];
    assert StreamRecords(k, Texts(request.sourceRuns), streams) == [] + RecordsOf(k, events);
    assert Ids(StreamRecords(k, Texts(request.sourceRuns), streams)) == ["e1"];
  }

  /** One request, two versions: the store holds all it names, the first version is built and the second is not. */
  lemma {:induction false} SecondVersionIsRefused()
    ensures ValidRequest(OneEventRequest(2))
            && Build(VersionCodec(), OneEventRequest(2), OneEventStore()) == Err(InvalidArchive)
    ensures Build(VersionCodec(), OneEventRequest(1), OneEventStore()).Ok?
  {
    OneEventIsComplete(1);
    OneEventIsComplete(2);
    VersionOneBuildsExactly(VersionCodec(), OneEventRequest(1), OneEventStore());
    VersionMismatchIsRefused(VersionCodec(), OneEventRequest(2), OneEventStore());
  }

  /** What gathering yields is in sorted order, and an archive is made of it exactly when its ids are distinct
      and the digest does not tell the versions apart. */
  lemma {:induction false} GatheredSucceeds(k: Codec, request: Request, streams: string -> seq<Event>)
    requires ValidRequest(request)
    ensures var r := Normalized(request);
            var gathered := GatherAll(k, r.sourceRuns, Members(r.eventRefs), streams);
            gathered.Ok? ==>
              && Sort(gathered.value, RecordOrder()) == gathered.value
              && (ArchiveFrom(k, r, gathered.value).Ok? <==>
                  Distinct(Ids(gathered.value)) && VersionAgrees(k, r, gathered.value))
  {
    var r := Normalized(request);
    NormalizedIsValid(request);
    if GatherAll(k, r.sourceRuns, Members(r.eventRefs), streams).Ok? {
      var records := GatherAll(k, r.sourceRuns, Members(r.eventRefs), streams).value;
      GatheredIsLaid(k, r.sourceRuns, Members(r.eventRefs), streams);
      AscendingStays(records);
      ArchiveFromExactly(k, r, records);
    }
  }

  lemma {:induction false} PortableSucceedsExactly(k: Codec, request: Request, events: seq<Event>)
    ensures Portable(k, request, events).Ok? <==>
            Replayable(k, request, Loose(events)) && forall i :: 0 <= i < |events| ==>
              events[i].run in request.sourceRuns
    ensures Portable(k, request, events).Ok? ==> ValidArchive(k, Portable(k, request, events).value)
  {
    if ValidRequest(request) {
      var r := Normalized(request);
      SortedTexts(request.sourceRuns);
      SameMembers(request.sourceRuns, r.sourceRuns);
      GatheredSucceeds(k, request, Loose(events));
      CompleteExactly(k, request, Loose(events));
    }
  }

  /** Streams that agree on the runs asked for gather the same records. */
  lemma {:induction false} GatherAllAgrees(
      k: Codec, runs: seq<string>, expected: set<string>, a: string -> seq<Event>, b: string -> seq<Event>)
    requires forall i :: 0 <= i < |runs| ==> a(runs[i]) == b(runs[i])
    ensures GatherAll(k, runs, expected, a) == GatherAll(k, runs, expected, b)
    decreases |runs|
  {
    if |runs| > 0 { GatherAllAgrees(k, runs[..|runs| - 1], expected, a, b); }
  }

  lemma {:induction false} GatheredRunsAreOk(
      k: Codec, runs: seq<string>, expected: set<string>, streams: string -> seq<Event>, i: nat)
    requires GatherAll(k, runs, expected, streams).Ok? && i < |runs|
    ensures Gather(k, runs[i], expected, streams(runs[i])).Ok?
    decreases |runs|
  {
    if i < |runs| - 1 { GatheredRunsAreOk(k, runs[..|runs| - 1], expected, streams, i); }
  }

  lemma {:induction false} LooseForgetsOrder(
      k: Codec, runs: seq<string>, expected: set<string>, a: seq<Event>, b: seq<Event>)
    requires multiset(a) == multiset(b) && GatherAll(k, runs, expected, Loose(a)).Ok?
    ensures GatherAll(k, runs, expected, Loose(b)) == GatherAll(k, runs, expected, Loose(a))
  {
    forall i | 0 <= i < |runs| ensures Loose(a)(runs[i]) == Loose(b)(runs[i]) {
      GatheredRunsAreOk(k, runs, expected, Loose(a), i);
      FilterForgetsOrder(a, b, (e: Event) => e.run == runs[i]);
      ContiguousSortsOneWay(k, runs[i], expected, Filter(a, (e: Event) => e.run == runs[i]),
                            Filter(b, (e: Event) => e.run == runs[i]));
    }
    GatherAllAgrees(k, runs, expected, Loose(a), Loose(b));
  }

  /** From the same events in another order the same archive is built, or none. */
  lemma {:induction false} PortableForgetsOrder(k: Codec, request: Request, a: seq<Event>, b: seq<Event>)
    requires multiset(a) == multiset(b)
    ensures Portable(k, request, a).Ok? <==> Portable(k, request, b).Ok?
    ensures Portable(k, request, a).Ok? ==> Portable(k, request, b) == Portable(k, request, a)
  {
    if Portable(k, request, a).Ok? { PortableCarriesOver(k, request, a, b); }
    if Portable(k, request, b).Ok? { PortableCarriesOver(k, request, b, a); }
  }

  lemma {:induction false} PortableCarriesOver(k: Codec, request: Request, a: seq<Event>, b: seq<Event>)
    requires multiset(a) == multiset(b) && Portable(k, request, a).Ok?
    ensures Portable(k, request, b) == Portable(k, request, a)
  {
    var r := Normalized(request);
    SameMembers(a, b);
    LooseForgetsOrder(k, r.sourceRuns, Members(r.eventRefs), a, b);
    forall i | 0 <= i < |b| ensures b[i].run in r.sourceRuns { assert b[i] in a; }
  }

  // ----- the two builders agree -----

  /** The store keeps, per run, that run's events in order of their sequence numbers. */
  ghost predicate WellKept(store: map<string, seq<Event>>) {
    forall run :: run in store ==> InOrder(store[run], run)
  }

  ghost predicate InOrder(stream: seq<Event>, run: string) {
    (forall i :: 0 <= i < |stream| ==> stream[i].run == run) && Sorted(stream, BySequence())
  }

  /** All events of the given runs, one run after another. */
  ghost function Exported(store: map<string, seq<Event>>, runs: seq<string>): seq<Event> {
    if |runs| == 0 then [] else Exported(store, runs[..|runs| - 1]) + Stored(store)(runs[|runs| - 1])
  }

  lemma {:induction false} ExportedRun(store: map<string, seq<Event>>, runs: seq<string>, run: string)
    requires WellKept(store) && Distinct(runs)
    ensures Filter(Exported(store, runs), (e: Event) => e.run == run) == if run in runs then Stored(store)(run) else []
    ensures forall e :: e in Exported(store, runs) ==> e.run in runs
    decreases |runs|
  {
    if |runs| > 0 {
      var front, last := runs[..|runs| - 1], runs[|runs| - 1];
      var keep := (e: Event) => e.run == run;
      ExportedRun(store, front, run);
      FilterConcat(Exported(store, front), Stored(store)(last), keep);
      if run == last {
        FilterAll(Stored(store)(last), keep);
        assert last !in front;
      } else {
        FilterNone(Stored(store)(last), keep);
      }
      assert runs == front + [last];
    }
  }

  /** A stream in order is what sorting it gives. */
  lemma {:induction false} InOrderStays(stream: seq<Event>)
    requires Sorted(stream, BySequence())
    ensures Sort(stream, BySequence()) == stream
  {
    if |stream| > 0 {
      InOrderStays(stream[1..]);
      assert stream == [stream[0]] + stream[1..];
    }
  }

  lemma {:induction false} ExportedIsStored(store: map<string, seq<Event>>, runs: seq<string>, run: string)
    requires WellKept(store) && Distinct(runs) && run in runs
    ensures Loose(Exported(store, runs))(run) == Stored(store)(run)
  {
    ExportedRun(store, runs, run);
    InOrderStays(Stored(store)(run));
  }

  /** The two builders agree: from the events of the requested runs, in any order, the loose builder makes
      the archive that the engine builds from the store, and fails exactly when the engine does. */
  lemma {:induction false} BuildersAgree(k: Codec, request: Request, store: map<string, seq<Event>>, events: seq<Event>)
    requires WellKept(store) && Distinct(request.sourceRuns)
    requires multiset(events) == multiset(Exported(store, request.sourceRuns))
    ensures Portable(k, request, events).Ok? <==> Build(k, request, store).Ok?
    ensures Build(k, request, store).Ok? ==> Portable(k, request, events) == Build(k, request, store)
  {
    PortableForgetsOrder(k, request, events, Exported(store, request.sourceRuns));
    if ValidRequest(request) { ExportedAgrees(k, request, store); }
  }

  lemma {:induction false} ExportedAgrees(k: Codec, request: Request, store: map<string, seq<Event>>)
    requires WellKept(store) && Distinct(request.sourceRuns) && ValidRequest(request)
    ensures var exported := Exported(store, request.sourceRuns);
            Portable(k, request, exported) == Build(k, request, store)
  {
    var exported, r := Exported(store, request.sourceRuns), Normalized(request);
    NormalizedIsValid(request);
    SortedTexts(request.sourceRuns);
    SameMembers(request.sourceRuns, r.sourceRuns);
    forall i | 0 <= i < |r.sourceRuns| ensures Loose(exported)(r.sourceRuns[i]) == Stored(store)(r.sourceRuns[i]) {
      ExportedIsStored(store, request.sourceRuns, r.sourceRuns[i]);
    }
    GatherAllAgrees(k, r.sourceRuns, Members(r.eventRefs), Loose(exported), Stored(store));
    ExportedRun(store, request.sourceRuns, "");
    forall i | 0 <= i < |exported| ensures exported[i].run in r.sourceRuns { assert exported[i] in exported; }
    GatheredSucceeds(k, request, Stored(store));
  }

  /** Collecting again what a built manifest names finds the archived records, while the store is unchanged. */
  lemma {:induction false} BuiltHistoryIsFound(k: Codec, request: Request, store: map<string, seq<Event>>)
    requires Build(k, request, store).Ok?
    ensures var archive := Build(k, request, store).value;
            Collect(k, archive.manifest.request.sourceRuns, archive.manifest.request.eventRefs, store) ==
              Ok(archive.events)
  {
    var r := Normalized(request);
    var records := GatherAll(k, r.sourceRuns, Members(r.eventRefs), Stored(store)).value;
    GatheredSucceeds(k, request, Stored(store));
  }
}

/** The replay engine as an object that remembers the archives it built. */
module ReplayEngine {
  import opened Common
  import opened Orders
  import opened Sequences
  import R = Replay

  /** The records of one run, event by event. */
  method GatherRun(k: R.Codec, run: string, expected: set<string>, events: seq<R.Event>)
    returns (r: Result<seq<R.Record>, R.ReplayError>)
    ensures r == R.Gather(k, run, expected, events)
  {
    var records: seq<R.Record> := [];
    for i := 0 to |events|
      invariant R.Gather(k, run, expected, events[..i]) == Ok(records)
    {
      assert events[..i + 1][..i] == events[..i];
      var e := events[i];
      if e.run != run || e.sequence != i + 1 {
        GatherStops(k, run, expected, events, i + 1);
        return Err(R.NotContiguous);
      }
      if e.id !in expected {
        GatherStops(k, run, expected, events, i + 1);
        return Err(R.RefNotCovered);
      }
      var record := R.PortableRecord(k, e);
      if record.None? {
        GatherStops(k, run, expected, events, i + 1);
        return Err(R.BadRecord);
      }
      records := records + [record.value];
    }
    assert events[..|events|] == events;
    return Ok(records);
  }

  /** A run that fails part-way fails as a whole, for the same reason. */
  lemma {:induction false} GatherStops(k: R.Codec, run: string, expected: set<string>, events: seq<R.Event>, n: nat)
    requires n <= |events| && R.Gather(k, run, expected, events[..n]).Err?
    ensures R.Gather(k, run, expected, events) == R.Gather(k, run, expected, events[..n])
  {
    if n == |events| {
      assert events[..n] == events;
    } else {
      assert events[..|events| - 1][..n] == events[..n];
      GatherStops(k, run, expected, events[..|events| - 1], n);
    }
  }

  /** Replaying one run's records, one after another. */
  method FoldRun(records: seq<R.Record>) returns (r: Result<R.Projection, R.ReplayError>)
    ensures r == R.FoldRun(records)
  {
    if |records| == 0 { return Err(R.NoEvents); }
    var run, p := records[0].envelope.run, R.START;
    for i := 0 to |records|
      invariant R.FoldFrom(run, records[..i]) == Ok(p)
    {
      assert records[..i + 1][..i] == records[..i];
      var e := records[i].envelope;
      if e.run != run || e.sequence != i + 1 {
        FoldStops(run, records, i + 1);
        return Err(R.NotContiguous);
      }
      p := p.(lastSequence := e.sequence);
      if e.kept.session.Some? {
        p := p.(status := e.kept.session.value.status, values := p.values + e.kept.session.value.values);
      }
      if e.kept.transcript.Some? {
        p := p.(transcript := p.transcript + [R.Line(e.id, e.sequence, e.kept.transcript.value)]);
      }
    }
    assert records[..|records|] == records;
    return Ok(p);
  }

  /** A fold that fails part-way fails as a whole, for the same reason. */
  lemma {:induction false} FoldStops(run: string, records: seq<R.Record>, n: nat)
    requires n <= |records| && R.FoldFrom(run, records[..n]).Err?
    ensures R.FoldFrom(run, records) == R.FoldFrom(run, records[..n])
  {
    if n == |records| {
      assert records[..n] == records;
    } else {
      assert records[..|records| - 1][..n] == records[..n];
      FoldStops(run, records[..|records| - 1], n);
    }
  }

  class DeterministicReplayEngine {
    const codec: R.Codec
    var archives: map<string, R.Archive>

    constructor (codec: R.Codec)
      ensures this.codec == codec && archives == map[]
    {
      this.codec := codec;
      archives := map[];
    }

    /** A bundle name keeps the archive first built under it. */
    method Build(request: R.Request, store: map<string, seq<R.Event>>) returns (r: Result<R.Manifest, R.ReplayError>)
      modifies this
      ensures match R.Build(codec, request, store)
              case Err(e) => r == Err(e) && archives == old(archives)
              case Ok(archive) =>
                var bundle := archive.manifest.request.bundle;
                if bundle in old(archives) then
                  archives == old(archives) && r == if old(archives)[bundle] == archive then Ok(archive.manifest)
                    else Err(R.BundleTaken)
                else archives == old(archives)[bundle := archive] && r == Ok(archive.manifest)
    {
      var built := R.Build(codec, request, store);
      if built.Err? { return Err(built.error); }
      var archive := built.value;
      var bundle := archive.manifest.request.bundle;
      if bundle in archives {
        if archives[bundle] != archive { return Err(R.BundleTaken); }
      } else {
        archives := archives[bundle := archive];
      }
      return Ok(archive.manifest);
    }

    /** An exact replay succeeds only while the store still holds what was archived. */
    method Exact(bundle: R.Manifest, store: map<string, seq<R.Event>>) returns (r: Result<nat, R.ReplayError>)
      ensures r.Ok? <==>
              && R.ValidManifest(bundle) && bundle.request.mode == R.ExactReplay && bundle.request.bundle in archives
              && archives[bundle.request.bundle].manifest == bundle
              && R.Collect(codec, bundle.request.sourceRuns, bundle.request.eventRefs, store) ==
                 Ok(archives[bundle.request.bundle].events)
              && R.ValidArchive(codec, archives[bundle.request.bundle])
      ensures r.Ok? ==> r.value == |archives[bundle.request.bundle].events|
    {
      if !R.ValidManifest(bundle) || bundle.request.mode != R.ExactReplay { return Err(R.InvalidManifest); }
      if bundle.request.bundle !in archives { return Err(R.NotBuilt); }
      var archive := archives[bundle.request.bundle];
      if archive.manifest != bundle { return Err(R.InvalidManifest); }
      var before := R.Collect(codec, bundle.request.sourceRuns, bundle.request.eventRefs, store);
      if before.Err? { return Err(before.error); }
      if before.value != archive.events { return Err(R.HistoryChanged); }
      if !R.ValidArchive(codec, archive) { return Err(R.InvalidArchive); }
      return Ok(|archive.events|);
    }
  }
}

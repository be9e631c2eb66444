/** The interrupt ledger: at most so many interruptions in any window. */
module Attention {
  import opened Common

  datatype Delivery = Hitchhike | Interrupt | Digest | Internal

  /** Minutes of the day, both below 65536; a window may wrap around midnight. */
  datatype TimeWindow = TimeWindow(starts: nat, ends: nat)

  datatype Budget = Budget(quietHours: seq<TimeWindow>, maxInterrupts: nat, window: i64, urgentThreshold: u64)

  datatype Request = Request(mode: Delivery, now: i64, urgency: u64)

  /** Dafny's division and remainder are Euclidean, as are the ones used here. */
  predicate Contains(window: TimeWindow, now: i64) {
    var minute := (now / 60_000) % 1_440;
    if window.starts <= window.ends then window.starts <= minute < window.ends
    else minute >= window.starts || minute < window.ends
  }

  /** A request the ledger is not consulted for is answered at once. */
  function Immediate(request: Request, budget: Budget): Option<Delivery> {
    if request.mode != Interrupt then Some(request.mode)
    else if (exists i :: 0 <= i < |budget.quietHours| && Contains(budget.quietHours[i], request.now))
      && request.urgency < budget.urgentThreshold then Some(Hitchhike)
    else None
  }

  predicate Expired(at: i64, window: i64, now: i64) {
    SatAddSigned(at, window) <= now
  }

  /** Pops expired entries from the front, and only from the front. */
  function Pop(ledger: seq<i64>, window: i64, now: i64): seq<i64> {
    if |ledger| > 0 && Expired(ledger[0], window, now) then Pop(ledger[1..], window, now) else ledger
  }

  function Deliver(ledger: seq<i64>, request: Request, budget: Budget): (seq<i64>, Delivery) {
    match Immediate(request, budget)
    case Some(mode) => (ledger, mode)
    case None =>
      var live := Pop(ledger, budget.window, request.now);
      if |live| >= budget.maxInterrupts then (live, Digest) else (live + [request.now], Interrupt)
  }

  function Serve(ledger: seq<i64>, requests: seq<Request>, budget: Budget): seq<Delivery>
    decreases |requests|
  {
    if |requests| == 0 then []
    else
      var (next, mode) := Deliver(ledger, requests[0], budget);
      [mode] + Serve(next, requests[1..], budget)
  }

  class AttentionLedger {
    var interruptions: seq<i64>

    constructor ()
      ensures interruptions == []
    {
      interruptions := [];
    }

    method Delivery(request: Request, budget: Budget) returns (mode: Delivery)
      modifies this
      ensures (interruptions, mode) == Deliver(old(interruptions), request, budget)
    {
      if request.mode != Interrupt { return request.mode; }
      var quiet := exists i :: 0 <= i < |budget.quietHours| && Contains(budget.quietHours[i], request.now);
      if quiet && request.urgency < budget.urgentThreshold { return Hitchhike; }
      while |interruptions| > 0 && Expired(interruptions[0], budget.window, request.now)
        invariant Pop(interruptions, budget.window, request.now) == Pop(old(interruptions), budget.window, request.now)
        decreases |interruptions|
      {
        interruptions := interruptions[1..];
      }
      if |interruptions| >= budget.maxInterrupts { return Digest; }
      interruptions := interruptions + [request.now];
      return Interrupt;
    }
  }

  // ----- the simple form: count every interruption ever granted -----

  /** How many of the times lie in the half-open interval of the given length. */
  ghost function CountIn(times: seq<i64>, from: int, length: int): nat {
    if |times| == 0 then 0
    else (if from <= times[0] < from + length then 1 else 0) + CountIn(times[1..], from, length)
  }

  ghost function DeliverByHistory(history: seq<i64>, request: Request, budget: Budget): (seq<i64>, Delivery) {
    match Immediate(request, budget)
    case Some(mode) => (history, mode)
    case None =>
      if CountIn(history, request.now - budget.window + 1, budget.window) >= budget.maxInterrupts then (history, Digest)
      else (history + [request.now], Interrupt)
  }

  ghost function ServeByHistory(history: seq<i64>, requests: seq<Request>, budget: Budget): seq<Delivery>
    decreases |requests|
  {
    if |requests| == 0 then []
    else
      var (next, mode) := DeliverByHistory(history, requests[0], budget);
      [mode] + ServeByHistory(next, requests[1..], budget)
  }

  /** The times at which a run of requests was granted an interruption. */
  function Granted(requests: seq<Request>, answers: seq<Delivery>): seq<i64>
    requires |answers| == |requests|
  {
    if |requests| == 0 then []
    else (if answers[0] == Interrupt then [requests[0].now] else []) + Granted(requests[1..], answers[1..])
  }

  lemma {:induction false} ServeAnswersAll(ledger: seq<i64>, requests: seq<Request>, budget: Budget)
    ensures |Serve(ledger, requests, budget)| == |requests|
    decreases |requests|
  {
    if |requests| > 0 { ServeAnswersAll(Deliver(ledger, requests[0], budget).0, requests[1..], budget); }
  }

  function GrantTimes(requests: seq<Request>, budget: Budget): seq<i64> {
    ServeAnswersAll([], requests, budget);
    Granted(requests, Serve([], requests, budget))
  }

  // ----- the clock -----

  /** The clock never runs backwards, starting from `since`. */
  predicate Ordered(requests: seq<Request>, since: int) {
    |requests| > 0 ==> since <= requests[0].now && Ordered(requests[1..], requests[0].now)
  }

  predicate UpTo(requests: seq<Request>, limit: int) {
    forall i :: 0 <= i < |requests| ==> requests[i].now <= limit
  }

  /** Saturation matters at the last instant only. */
  lemma {:induction false} ExpiredExactly(at: i64, window: i64, now: i64)
    ensures Expired(at, window, now) <==> at + window <= now || (now == I64_MAX && at + window > I64_MAX)
  {
  }

  // ----- counting -----

  lemma {:induction false} CountConcat(a: seq<i64>, b: seq<i64>, from: int, length: int)
    ensures CountIn(a + b, from, length) == CountIn(a, from, length) + CountIn(b, from, length)
  {
    if |a| == 0 {
      assert a + b == b;
    } else {
      assert (a + b)[1..] == a[1..] + b;
      CountConcat(a[1..], b, from, length);
    }
  }

  lemma {:induction false} CountNone(times: seq<i64>, from: int, length: int)
    requires forall i :: 0 <= i < |times| ==> times[i] < from
    ensures CountIn(times, from, length) == 0
  {
    if |times| > 0 { CountNone(times[1..], from, length); }
  }

  lemma {:induction false} CountAll(times: seq<i64>, from: int, length: int)
    requires forall i :: 0 <= i < |times| ==> from <= times[i] < from + length
    ensures CountIn(times, from, length) == |times|
  {
    if |times| > 0 { CountAll(times[1..], from, length); }
  }

  /** An interval that ends later counts no more than one that starts earlier, when nothing lies beyond. */
  lemma {:induction false} CountNarrows(times: seq<i64>, from: int, wider: int, length: int, last: int)
    requires forall i :: 0 <= i < |times| ==> times[i] <= last
    requires wider <= from && last < wider + length
    ensures CountIn(times, from, length) <= CountIn(times, wider, length)
  {
    if |times| > 0 { CountNarrows(times[1..], from, wider, length, last); }
  }

  // ----- the ledger refines the history -----

  ghost predicate Sorted(times: seq<i64>) {
    forall i, j :: 0 <= i <= j < |times| ==> times[i] <= times[j]
  }

  /** What is gone has expired, and what remains is in order. */
  ghost predicate Tracks(gone: seq<i64>, ledger: seq<i64>, window: int, now: int) {
    && (forall i :: 0 <= i < |gone| ==> gone[i] + window <= now)
    && Sorted(ledger)
    && (forall i :: 0 <= i < |ledger| ==> ledger[i] <= now)
  }

  /** Popping removes a run of expired entries from the front and stops at one that is not. */
  lemma {:induction false} PopDrops(ledger: seq<i64>, window: i64, now: i64) returns (n: nat)
    ensures n <= |ledger| && Pop(ledger, window, now) == ledger[n..]
    ensures forall i :: 0 <= i < n ==> Expired(ledger[i], window, now)
    ensures n < |ledger| ==> !Expired(ledger[n], window, now)
  {
    if |ledger| > 0 && Expired(ledger[0], window, now) {
      var m := PopDrops(ledger[1..], window, now);
      n := m + 1;
      assert ledger[1..][m..] == ledger[n..];
      forall i | 0 <= i < n ensures Expired(ledger[i], window, now) {
        if i > 0 { assert ledger[i] == ledger[1..][i - 1]; }
      }
    } else {
      n := 0;
    }
  }

  lemma {:induction false} PoppedAreGone(gone: seq<i64>, popped: seq<i64>, window: i64, now: i64)
    requires now < I64_MAX && forall i :: 0 <= i < |gone| ==> gone[i] + window <= now
    requires forall i :: 0 <= i < |popped| ==> Expired(popped[i], window, now)
    ensures forall i :: 0 <= i < |gone + popped| ==> (gone + popped)[i] + window <= now
  {
    forall i | 0 <= i < |gone + popped| ensures (gone + popped)[i] + window <= now {
      if i >= |gone| { assert Expired(popped[i - |gone|], window, now); }
    }
  }

  lemma {:induction false} PoppedCountsWindow(gone: seq<i64>, ledger: seq<i64>, window: i64, now: i64)
    returns (popped: seq<i64>)
    requires Tracks(gone, ledger, window, now) && now < I64_MAX
    ensures ledger == popped + Pop(ledger, window, now)
    ensures Tracks(gone + popped, Pop(ledger, window, now), window, now)
    ensures CountIn(gone + ledger, now - window + 1, window) == |Pop(ledger, window, now)|
  {
    var n := PopDrops(ledger, window, now);
    popped := ledger[..n];
    assert ledger == popped + ledger[n..];
    PoppedAreGone(gone, popped, window, now);
    assert gone + ledger == (gone + popped) + Pop(ledger, window, now);
    SplitCounts(gone + popped, Pop(ledger, window, now), window, now);
  }

  /** Only the live part of a split history lies in the trailing window. */
  lemma {:induction false} SplitCounts(gone: seq<i64>, live: seq<i64>, window: i64, now: i64)
    requires forall i :: 0 <= i < |gone| ==> gone[i] + window <= now
    requires forall i :: 0 <= i < |live| ==> live[i] <= now < live[i] + window
    ensures CountIn(gone + live, now - window + 1, window) == |live|
  {
    CountConcat(gone, live, now - window + 1, window);
    CountNone(gone, now - window + 1, window);
    CountAll(live, now - window + 1, window);
  }

  /** One request: both forms answer alike, and the ledger goes on tracking the history. */
  lemma {:induction false} DeliverTracks(gone: seq<i64>, ledger: seq<i64>, request: Request, budget: Budget)
    returns (popped: seq<i64>)
    requires Tracks(gone, ledger, budget.window, request.now) && request.now < I64_MAX
    ensures var (next, mode) := Deliver(ledger, request, budget);
            && DeliverByHistory(gone + ledger, request, budget) == ((gone + popped) + next, mode)
            && Tracks(gone + popped, next, budget.window, request.now)
  {
    if Immediate(request, budget).Some? {
      popped := [];
      assert gone + popped == gone;
    } else {
      popped := PoppedCountsWindow(gone, ledger, budget.window, request.now);
      var live := Pop(ledger, budget.window, request.now);
      assert gone + ledger == (gone + popped) + live;
      assert gone + ledger + [request.now] == (gone + popped) + (live + [request.now]);
    }
  }

  lemma {:induction false} LedgerTracksHistory(
      gone: seq<i64>, ledger: seq<i64>, requests: seq<Request>, budget: Budget, since: int)
    requires Ordered(requests, since) && UpTo(requests, I64_MAX - 1)
    requires Tracks(gone, ledger, budget.window, since)
    ensures Serve(ledger, requests, budget) == ServeByHistory(gone + ledger, requests, budget)
    decreases |requests|
  {
    if |requests| > 0 {
      var now := requests[0].now;
      var popped := DeliverTracks(gone, ledger, requests[0], budget);
      LedgerTracksHistory(gone + popped, Deliver(ledger, requests[0], budget).0, requests[1..], budget, now);
    }
  }

  // ----- the bound -----

  ghost predicate AtMost(times: seq<i64>, most: nat, length: int) {
    forall from: int :: CountIn(times, from, length) <= most
  }

  lemma {:induction false} HistoryStepBounds(history: seq<i64>, request: Request, budget: Budget)
    requires AtMost(history, budget.maxInterrupts, budget.window)
    requires forall i :: 0 <= i < |history| ==> history[i] <= request.now
    ensures AtMost(DeliverByHistory(history, request, budget).0, budget.maxInterrupts, budget.window)
  {
    var next := DeliverByHistory(history, request, budget).0;
    forall from: int ensures CountIn(next, from, budget.window) <= budget.maxInterrupts {
      if next != history {
        CountConcat(history, [request.now], from, budget.window);
        if from <= request.now < from + budget.window {
          CountNarrows(history, from, request.now - budget.window + 1, budget.window, request.now);
        }
      }
    }
  }

  lemma {:induction false} HistoryBounds(history: seq<i64>, requests: seq<Request>, budget: Budget, since: int)
    requires Ordered(requests, since)
    requires AtMost(history, budget.maxInterrupts, budget.window)
    requires forall i :: 0 <= i < |history| ==> history[i] <= since
    ensures var answers := ServeByHistory(history, requests, budget);
            |answers| == |requests| && AtMost(history + Granted(requests, answers), budget.maxInterrupts, budget.window)
    decreases |requests|
  {
    if |requests| == 0 {
      assert history + [] == history;
    } else {
      HistoryStepBounds(history, requests[0], budget);
      var (next, mode) := DeliverByHistory(history, requests[0], budget);
      HistoryBounds(next, requests[1..], budget, requests[0].now);
      var rest := ServeByHistory(next, requests[1..], budget);
      var answers := ServeByHistory(history, requests, budget);
      assert answers[1..] == rest;
      assert history + Granted(requests, answers) == next + Granted(requests[1..], rest);
    }
  }

  // ----- the main results -----

  /** Popping expired fronts answers every request as counting the whole history would, while the clock
      does not run backwards and stays below the last instant. */
  lemma {:induction false} LedgerRefinesHistory(requests: seq<Request>, budget: Budget)
    requires Ordered(requests, I64_MIN) && UpTo(requests, I64_MAX - 1)
    ensures Serve([], requests, budget) == ServeByHistory([], requests, budget)
  {
    LedgerTracksHistory([], [], requests, budget, I64_MIN);
    var none: seq<i64> := [];
    assert none + none == none;
  }

  /** No window of the policy's length, anywhere in the whole history, holds more grants than allowed. */
  lemma {:induction false} WindowsAreBounded(requests: seq<Request>, budget: Budget)
    requires Ordered(requests, I64_MIN) && UpTo(requests, I64_MAX - 1)
    ensures AtMost(GrantTimes(requests, budget), budget.maxInterrupts, budget.window)
  {
    LedgerRefinesHistory(requests, budget);
    HistoryBounds([], requests, budget, I64_MIN);
    assert [] + GrantTimes(requests, budget) == GrantTimes(requests, budget);
  }

  // ----- the last instant -----

  function AtTheEnd(n: nat, urgency: u64): seq<Request> {
    seq(n, _ => Request(Interrupt, I64_MAX, urgency))
  }

  lemma {:induction false} EndIsAlwaysGranted(ledger: seq<i64>, n: nat, budget: Budget)
    requires budget.maxInterrupts > 0 && budget.window > 0
    requires |ledger| <= 1 && forall i :: 0 <= i < |ledger| ==> ledger[i] == I64_MAX
    ensures var requests := AtTheEnd(n, budget.urgentThreshold);
            var answers := Serve(ledger, requests, budget);
            |answers| == n && Granted(requests, answers) == seq(n, _ => I64_MAX)
    decreases n
  {
    if n > 0 {
      var requests := AtTheEnd(n, budget.urgentThreshold);
      assert requests[1..] == AtTheEnd(n - 1, budget.urgentThreshold);
      assert Pop(ledger, budget.window, I64_MAX) == [] by {
        if |ledger| > 0 { assert ledger[1..] == []; }
      }
      assert [] + [I64_MAX] == [I64_MAX];
      EndIsAlwaysGranted([I64_MAX], n - 1, budget);
      var answers := Serve(ledger, requests, budget);
      assert answers[1..] == Serve([I64_MAX], requests[1..], budget);
      assert [I64_MAX] + seq(n - 1, _ => I64_MAX) == seq(n, _ => I64_MAX);
    }
  }

  lemma {:induction false} EndIsOrdered(n: nat, urgency: u64, since: int)
    requires since <= I64_MAX
    ensures Ordered(AtTheEnd(n, urgency), since)
  {
    if n > 0 {
      assert AtTheEnd(n, urgency)[1..] == AtTheEnd(n - 1, urgency);
      EndIsOrdered(n - 1, urgency, I64_MAX);
    }
  }

  ghost predicate KeepsBound(requests: seq<Request>, budget: Budget) {
    AtMost(GrantTimes(requests, budget), budget.maxInterrupts, budget.window)
  }

  /** With a clock that never runs backwards and never passes `limit`, the bound holds for every run exactly
      when `limit` is before the last instant, or the policy allows no interruption, or its window is empty. */
  lemma {:induction false} BoundHoldsExactly(budget: Budget, limit: i64)
    ensures (forall requests :: Ordered(requests, I64_MIN) && UpTo(requests, limit) ==> KeepsBound(requests, budget))
            <==> limit < I64_MAX || budget.maxInterrupts == 0 || budget.window <= 0
  {
    if limit < I64_MAX {
      forall requests | Ordered(requests, I64_MIN) && UpTo(requests, limit) ensures KeepsBound(requests, budget) {
        WindowsAreBounded(requests, budget);
      }
    } else if budget.maxInterrupts == 0 {
      forall requests ensures KeepsBound(requests, budget) { NothingGranted([], requests, budget); }
    } else if budget.window <= 0 {
      forall requests ensures KeepsBound(requests, budget) { EmptyWindow(GrantTimes(requests, budget), budget.window); }
    } else {
      var n := budget.maxInterrupts + 1;
      var requests := AtTheEnd(n, budget.urgentThreshold);
      EndIsOrdered(n, budget.urgentThreshold, I64_MIN);
      EndIsAlwaysGranted([], n, budget);
      CountAll(GrantTimes(requests, budget), I64_MAX, budget.window);
      assert UpTo(requests, limit) && !KeepsBound(requests, budget);
    }
  }

  lemma {:induction false} NothingGranted(ledger: seq<i64>, requests: seq<Request>, budget: Budget)
    requires budget.maxInterrupts == 0
    ensures var answers := Serve(ledger, requests, budget);
            |answers| == |requests| && Granted(requests, answers) == []
    decreases |requests|
  {
    if |requests| > 0 {
      var next := Deliver(ledger, requests[0], budget).0;
      NothingGranted(next, requests[1..], budget);
      assert Serve(ledger, requests, budget)[1..] == Serve(next, requests[1..], budget);
    }
  }

  lemma {:induction false} EmptyWindow(times: seq<i64>, length: int)
    requires length <= 0
    ensures AtMost(times, 0, length)
  {
    if |times| > 0 { EmptyWindow(times[1..], length); }
  }

  // ----- every answer -----

  const MINUTE := 60_000
  const DAY := 86_400_000

  function Clip(minutes: nat): nat { if minutes <= 1_440 then minutes else 1_440 }

  /** The occurrence of the window that starts on the given day, counted from the epoch, on the line of time;
      a window that ends before it starts runs into the next day. */
  ghost predicate Occurs(window: TimeWindow, day: int, now: i64) {
    var starts, ends := day * DAY + Clip(window.starts) * MINUTE, day * DAY + Clip(window.ends) * MINUTE;
    starts <= now < if window.starts <= window.ends then ends else ends + DAY
  }

  lemma {:induction false} MinuteOfDay(now: i64) returns (day: int, minute: nat)
    ensures minute == (now / 60_000) % 1_440
    ensures day * DAY + minute * MINUTE <= now < day * DAY + (minute + 1) * MINUTE && minute < 1_440
  {
    var minutes := now / 60_000;
    day, minute := minutes / 1_440, minutes % 1_440;
    assert minutes * MINUTE <= now < (minutes + 1) * MINUTE;
    assert minutes == day * 1_440 + minute;
  }

  /** A window contains an instant exactly when one of its daily occurrences does. */
  lemma {:induction false} ContainsExactly(window: TimeWindow, now: i64)
    ensures Contains(window, now) <==> exists day: int :: Occurs(window, day, now)
  {
    var today, minute := MinuteOfDay(now);
    if Contains(window, now) {
      if window.starts <= window.ends || minute >= window.starts {
        assert Occurs(window, today, now);
      } else {
        assert Occurs(window, today - 1, now);
      }
    }
    if day :| Occurs(window, day, now) {
      assert day == today || day == today - 1;
    }
  }

  ghost predicate Quiet(budget: Budget, now: i64) {
    exists i :: 0 <= i < |budget.quietHours| && exists day: int :: Occurs(budget.quietHours[i], day, now)
  }

  /** What the policy says about a request, given the times of the grants before it. */
  ghost function Due(request: Request, budget: Budget, earlier: seq<i64>): Delivery {
    if request.mode != Interrupt then request.mode
    else if Quiet(budget, request.now) && request.urgency < budget.urgentThreshold then Hitchhike
    else if CountIn(earlier, request.now - budget.window + 1, budget.window) < budget.maxInterrupts then Interrupt
    else Digest
  }

  lemma {:induction false} DueByHistory(history: seq<i64>, request: Request, budget: Budget)
    ensures DeliverByHistory(history, request, budget).1 == Due(request, budget, history)
  {
    forall i | 0 <= i < |budget.quietHours|
      ensures Contains(budget.quietHours[i], request.now) <==>
              exists day: int :: Occurs(budget.quietHours[i], day, request.now)
    {
      ContainsExactly(budget.quietHours[i], request.now);
    }
  }

  lemma {:induction false} HistoryAnswers(history: seq<i64>, requests: seq<Request>, budget: Budget, i: nat)
    requires i < |requests|
    ensures var answers, front := ServeByHistory(history, requests, budget),
            ServeByHistory(history, requests[..i], budget);
            && |answers| == |requests| && |front| == i
            && answers[i] == Due(requests[i], budget, history + Granted(requests[..i], front))
    decreases |requests|
  {
    var (next, mode) := DeliverByHistory(history, requests[0], budget);
    var rest := requests[1..];
    DueByHistory(history, requests[0], budget);
    HistoryAnswersAll(next, rest, budget);
    if i == 0 {
      assert requests[..0] == [] && history + [] == history;
    } else {
      HistoryAnswers(next, rest, budget, i - 1);
      assert requests[..i][1..] == rest[..i - 1] && requests[..i][0] == requests[0];
      var front, more := ServeByHistory(history, requests[..i], budget), ServeByHistory(next, rest[..i - 1], budget);
      assert front == [mode] + more && front[1..] == more;
      assert history + Granted(requests[..i], front) == next + Granted(rest[..i - 1], more);
    }
  }

  lemma {:induction false} HistoryAnswersAll(history: seq<i64>, requests: seq<Request>, budget: Budget)
    ensures |ServeByHistory(history, requests, budget)| == |requests|
    decreases |requests|
  {
    if |requests| > 0 { HistoryAnswersAll(DeliverByHistory(history, requests[0], budget).0, requests[1..], budget); }
  }

  lemma {:induction false} OrderedFront(requests: seq<Request>, since: int, i: nat)
    requires Ordered(requests, since) && i <= |requests|
    ensures Ordered(requests[..i], since)
    decreases i
  {
    if i > 0 {
      assert requests[..i][1..] == requests[1..][..i - 1];
      OrderedFront(requests[1..], requests[0].now, i - 1);
    }
  }

  /** While the clock does not run backwards and stays below the last instant, every answer of a run is what the
      policy says: a request not to interrupt is passed through, quiet hours hold back what is not urgent, and an
      interruption is granted exactly while the trailing window holds fewer grants than allowed. */
  lemma {:induction false} AnswersExactly(requests: seq<Request>, budget: Budget, i: nat)
    requires Ordered(requests, I64_MIN) && UpTo(requests, I64_MAX - 1) && i < |requests|
    ensures var answers := Serve([], requests, budget);
            |answers| == |requests| && answers[i] == Due(requests[i], budget, GrantTimes(requests[..i], budget))
  {
    LedgerRefinesHistory(requests, budget);
    OrderedFront(requests, I64_MIN, i);
    LedgerRefinesHistory(requests[..i], budget);
    HistoryAnswers([], requests, budget, i);
    assert [] + GrantTimes(requests[..i], budget) == GrantTimes(requests[..i], budget);
  }

  // ----- a clock that may run backwards -----

  /** Urgent requests at the given times. */
  function RequestsAt(times: seq<i64>, urgency: u64): seq<Request> {
    seq(|times|, i requires 0 <= i < |times| => Request(Interrupt, times[i], urgency))
  }

  ghost predicate GrantedTo(ledger: seq<i64>, times: seq<i64>, budget: Budget, granted: seq<i64>) {
    var requests := RequestsAt(times, budget.urgentThreshold);
    var answers := Serve(ledger, requests, budget);
    |answers| == |times| && Granted(requests, answers) == granted
  }

  /** One grant, then the rest. */
  lemma {:induction false} GrantFirst(ledger: seq<i64>, times: seq<i64>, budget: Budget, rest: seq<i64>)
    requires |times| > 0 && |Pop(ledger, budget.window, times[0])| < budget.maxInterrupts
    requires GrantedTo(Pop(ledger, budget.window, times[0]) + [times[0]], times[1..], budget, rest)
    ensures GrantedTo(ledger, times, budget, [times[0]] + rest)
  {
    var next := Pop(ledger, budget.window, times[0]) + [times[0]];
    var requests, tail := RequestsAt(times, budget.urgentThreshold), RequestsAt(times[1..], budget.urgentThreshold);
    assert requests[1..] == tail;
    assert Deliver(ledger, requests[0], budget) == (next, Interrupt);
    assert Serve(ledger, requests, budget)[1..] == Serve(next, tail, budget);
  }

  function Repeat(t: i64, n: nat): seq<i64> { seq(n, _ => t) }

  lemma {:induction false} GrantRepeated(t: i64, k: nat, n: nat, budget: Budget, rest: seq<i64>, granted: seq<i64>)
    requires budget.window > 0 && t < I64_MAX && k + n <= budget.maxInterrupts
    requires GrantedTo(Repeat(t, k + n), rest, budget, granted)
    ensures GrantedTo(Repeat(t, k), Repeat(t, n) + rest, budget, Repeat(t, n) + granted)
    decreases n
  {
    if n == 0 {
      assert Repeat(t, 0) + rest == rest && Repeat(t, 0) + granted == granted;
    } else {
      GrantRepeated(t, k + 1, n - 1, budget, rest, granted);
      var times := Repeat(t, n) + rest;
      assert Pop(Repeat(t, k), budget.window, t) == Repeat(t, k);
      assert Repeat(t, k) + [t] == Repeat(t, k + 1) && times[1..] == Repeat(t, n - 1) + rest;
      GrantFirst(Repeat(t, k), times, budget, Repeat(t, n - 1) + granted);
      assert [t] + (Repeat(t, n - 1) + granted) == Repeat(t, n) + granted;
    }
  }

  lemma {:induction false} PopRepeated(t: i64, n: nat, window: i64, now: i64)
    requires Expired(t, window, now)
    ensures Pop(Repeat(t, n), window, now) == []
    decreases n
  {
    if n > 0 {
      assert Repeat(t, n)[1..] == Repeat(t, n - 1);
      PopRepeated(t, n - 1, window, now);
    }
  }

  /** As many grants at `t` as are allowed, one a window later, which empties the ledger, and one more at `t`. */
  function RewindTimes(budget: Budget, t: i64): seq<i64>
    requires t + budget.window <= I64_MAX
    requires budget.window > 0
  {
    Repeat(t, budget.maxInterrupts) + [t + budget.window, t]
  }

  lemma {:induction false} RewindBreaksBound(budget: Budget, t: i64)
    requires budget.maxInterrupts >= 2 && budget.window > 0 && t + budget.window < I64_MAX
    ensures !KeepsBound(RequestsAt(RewindTimes(budget, t), budget.urgentThreshold), budget)
  {
    var n, later := budget.maxInterrupts, t + budget.window;
    var none: seq<i64> := [];
    assert [later, t][1..] == [t] && [t][1..] == none && Repeat(t, 0) == none;
    PopRepeated(t, n, budget.window, later);
    assert none + [later] == [later];
    GrantFirst([later], [t], budget, none);
    GrantFirst(Repeat(t, n), [later, t], budget, [t] + none);
    GrantRepeated(t, 0, n, budget, [later, t], [later] + ([t] + none));
    assert Repeat(t, n) + ([later] + ([t] + none)) == RewindTimes(budget, t);
    CountConcat(Repeat(t, n), [later, t], t, budget.window);
    CountAll(Repeat(t, n), t, budget.window);
    assert CountIn([t], t, budget.window) == 1;
  }

  /** Each grant comes at least `length` after every one before it. */
  ghost predicate Spaced(times: seq<i64>, length: int) {
    forall i, j :: 0 <= i < j < |times| ==> times[i] + length <= times[j]
  }

  lemma {:induction false} CountBeyond(times: seq<i64>, from: int, length: int)
    requires forall i :: 0 <= i < |times| ==> from + length <= times[i]
    ensures CountIn(times, from, length) == 0
  {
    if |times| > 0 { CountBeyond(times[1..], from, length); }
  }

  lemma {:induction false} SpacedCounts(times: seq<i64>, from: int, length: int)
    requires Spaced(times, length)
    ensures CountIn(times, from, length) <= 1
  {
    if |times| > 0 {
      if from <= times[0] < from + length {
        forall i | 0 <= i < |times[1..]| ensures from + length <= times[1..][i] {
          assert times[1..][i] == times[i + 1];
        }
        CountBeyond(times[1..], from, length);
      } else {
        SpacedCounts(times[1..], from, length);
      }
    }
  }

  lemma {:induction false} CountFits(times: seq<i64>, from: int, length: int)
    ensures CountIn(times, from, length) <= |times|
  {
    if |times| > 0 { CountFits(times[1..], from, length); }
  }

  /** Where only one interruption is allowed, the ledger holds the last grant, and grants are spaced. */
  lemma {:induction false} SingleGrantsAreSpaced(ledger: seq<i64>, requests: seq<Request>, budget: Budget)
    requires budget.maxInterrupts == 1 && budget.window > 0 && UpTo(requests, I64_MAX - 1) && |ledger| <= 1
    ensures var answers := Serve(ledger, requests, budget);
            |answers| == |requests| && Spaced(ledger + Granted(requests, answers), budget.window)
    decreases |requests|
  {
    if |requests| > 0 {
      var (next, mode) := Deliver(ledger, requests[0], budget);
      var now := requests[0].now;
      SingleDelivers(ledger, requests[0], budget);
      SingleGrantsAreSpaced(next, requests[1..], budget);
      var answers := Serve(ledger, requests, budget);
      var rest := Granted(requests[1..], answers[1..]);
      assert answers[1..] == Serve(next, requests[1..], budget);
      if mode == Interrupt {
        SpacedFront(ledger, now, rest, budget.window);
        assert [now] + rest == Granted(requests, answers);
      } else {
        assert Granted(requests, answers) == [] + rest == rest;
      }
    }
  }

  lemma {:induction false} SingleDelivers(ledger: seq<i64>, request: Request, budget: Budget)
    requires budget.maxInterrupts == 1 && request.now < I64_MAX && |ledger| <= 1
    ensures var (next, mode) := Deliver(ledger, request, budget);
            if mode == Interrupt then
              next == [request.now] && (|ledger| > 0 ==> ledger[0] + budget.window <= request.now)
            else next == ledger
  {
    if |ledger| > 0 { assert ledger[1..] == []; }
    assert [] + [request.now] == [request.now];
  }

  lemma {:induction false} SpacedFront(ledger: seq<i64>, now: i64, rest: seq<i64>, length: int)
    requires length > 0 && Spaced([now] + rest, length)
    requires |ledger| <= 1 && forall i :: 0 <= i < |ledger| ==> ledger[i] + length <= now
    ensures Spaced(ledger + ([now] + rest), length)
  {
    var s := [now] + rest;
    forall j | 0 <= j < |s| ensures now <= s[j] {
      if j > 0 { assert s[0] + length <= s[j]; }
    }
  }

  /** Where no entry can expire before the limit, no more than the allowed number are ever granted. */
  lemma {:induction false} NothingExpires(ledger: seq<i64>, requests: seq<Request>, budget: Budget, limit: int)
    requires I64_MIN + budget.window > limit && limit < I64_MAX && UpTo(requests, limit)
             && |ledger| <= budget.maxInterrupts
    ensures var answers := Serve(ledger, requests, budget);
            |answers| == |requests| && |ledger| + |Granted(requests, answers)| <= budget.maxInterrupts
    decreases |requests|
  {
    if |requests| > 0 {
      assert Pop(ledger, budget.window, requests[0].now) == ledger;
      var next := Deliver(ledger, requests[0], budget).0;
      NothingExpires(next, requests[1..], budget, limit);
      assert Serve(ledger, requests, budget)[1..] == Serve(next, requests[1..], budget);
    }
  }

  /** The bound survives a clock that may run backwards only where no two grants can meet again: it holds for
      every run up to `limit` exactly when the policy allows no interruption, or its window is empty, or the
      limit is before the last instant and the policy allows a single interruption or a window too long to
      ever expire. */
  lemma {:induction false} AnyClockBoundHoldsExactly(budget: Budget, limit: i64)
    ensures (forall requests :: UpTo(requests, limit) ==> KeepsBound(requests, budget))
            <==> budget.maxInterrupts == 0 || budget.window <= 0
                 || (limit < I64_MAX && (budget.maxInterrupts == 1 || I64_MIN + budget.window > limit))
  {
    if budget.maxInterrupts == 0 || budget.window <= 0 {
      forall requests ensures KeepsBound(requests, budget) {
        if budget.maxInterrupts == 0 { NothingGranted([], requests, budget); }
        else { EmptyWindow(GrantTimes(requests, budget), budget.window); }
      }
    } else if limit == I64_MAX {
      BoundHoldsExactly(budget, limit);
    } else if budget.maxInterrupts == 1 {
      forall requests | UpTo(requests, limit) ensures KeepsBound(requests, budget) {
        SingleKeepsBound(requests, budget);
      }
    } else if I64_MIN + budget.window > limit {
      forall requests | UpTo(requests, limit) ensures KeepsBound(requests, budget) {
        EndlessKeepsBound(requests, budget, limit);
      }
    } else {
      RewindBreaksBound(budget, I64_MIN);
      assert UpTo(RequestsAt(RewindTimes(budget, I64_MIN), budget.urgentThreshold), limit);
    }
  }

  lemma {:induction false} SingleKeepsBound(requests: seq<Request>, budget: Budget)
    requires budget.maxInterrupts == 1 && budget.window > 0 && UpTo(requests, I64_MAX - 1)
    ensures KeepsBound(requests, budget)
  {
    SingleGrantsAreSpaced([], requests, budget);
    assert [] + GrantTimes(requests, budget) == GrantTimes(requests, budget);
    forall from: int ensures CountIn(GrantTimes(requests, budget), from, budget.window) <= 1 {
      SpacedCounts(GrantTimes(requests, budget), from, budget.window);
    }
  }

  lemma {:induction false} EndlessKeepsBound(requests: seq<Request>, budget: Budget, limit: int)
    requires I64_MIN + budget.window > limit && limit < I64_MAX && UpTo(requests, limit)
    ensures KeepsBound(requests, budget)
  {
    NothingExpires([], requests, budget, limit);
    forall from: int ensures CountIn(GrantTimes(requests, budget), from, budget.window) <= budget.maxInterrupts {
      CountFits(GrantTimes(requests, budget), from, budget.window);
    }
  }
}

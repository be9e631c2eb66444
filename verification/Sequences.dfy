/** Members, sums and maps of sequences. */
module Sequences {

  ghost predicate Distinct<T>(s: seq<T>) {
    forall i, j :: 0 <= i < j < |s| ==> s[i] != s[j]
  }

  function Members<T(==)>(s: seq<T>): set<T> {
    set x | x in s
  }

  lemma {:induction false} MembersSnoc<T>(s: seq<T>, x: T)
    ensures Members(s + [x]) == Members(s) + {x}
  {
  }

  /** A sequence has as many members as places exactly when it repeats nothing. */
  lemma {:induction false} MembersCount<T>(s: seq<T>)
    ensures |Members(s)| <= |s|
    ensures |Members(s)| == |s| <==> Distinct(s)
  {
    if |s| == 0 {
      assert Members(s) == {};
    } else {
      var front, last := s[..|s| - 1], s[|s| - 1];
      assert s == front + [last];
      MembersCount(front);
      MembersSnoc(front, last);
      if last in front {
        var i :| 0 <= i < |front| && front[i] == last;
        assert s[i] == s[|s| - 1];
        assert Members(s) == Members(front);
      } else if Distinct(front) {
        assert Distinct(s);
      } else {
        var i, j :| 0 <= i < j < |front| && front[i] == front[j];
        assert s[i] == s[j];
      }
    }
  }

  lemma {:induction false} SubsetCount<T>(a: set<T>, b: set<T>)
    requires a <= b
    ensures |a| <= |b|
    ensures |a| == |b| <==> a == b
  {
    assert b == a + (b - a);
    assert |b| == |a| + |b - a|;
  }

  /** Distinct members of a finite universe are no more than the universe. */
  lemma {:induction false} DistinctFits<T>(s: seq<T>, universe: set<T>)
    requires Distinct(s) && forall x :: x in s ==> x in universe
    ensures |s| <= |universe|
  {
    MembersCount(s);
    SubsetCount(Members(s), universe);
  }

  // ----- sums -----

  function SumOver<T>(s: seq<T>, f: T -> nat): nat {
    if |s| == 0 then 0 else f(s[0]) + SumOver(s[1..], f)
  }

  lemma {:induction false} SumEqual<T>(s: seq<T>, f: T -> nat, g: T -> nat)
    requires forall i :: 0 <= i < |s| ==> f(s[i]) == g(s[i])
    ensures SumOver(s, f) == SumOver(s, g)
  {
    if |s| > 0 {
      assert forall i :: 0 <= i < |s[1..]| ==> s[1..][i] == s[i + 1];
      SumEqual(s[1..], f, g);
    }
  }

  lemma {:induction false} SumAtMost<T>(s: seq<T>, f: T -> nat, g: T -> nat)
    requires forall i :: 0 <= i < |s| ==> f(s[i]) <= g(s[i])
    ensures SumOver(s, f) <= SumOver(s, g)
  {
    if |s| > 0 {
      assert forall i :: 0 <= i < |s[1..]| ==> s[1..][i] == s[i + 1];
      SumAtMost(s[1..], f, g);
    }
  }

  /** Changing the summand at one place changes the sum by that difference. */
  lemma {:induction false} SumChangesAt<T>(s: seq<T>, f: T -> nat, g: T -> nat, at: int)
    requires 0 <= at < |s|
    requires forall i :: 0 <= i < |s| && i != at ==> f(s[i]) == g(s[i])
    ensures SumOver(s, g) - SumOver(s, f) == g(s[at]) - f(s[at])
  {
    assert forall i :: 0 <= i < |s[1..]| ==> s[1..][i] == s[i + 1];
    if at == 0 {
      SumEqual(s[1..], f, g);
    } else {
      SumChangesAt(s[1..], f, g, at - 1);
    }
  }

  lemma {:induction false} SumDrops<T>(s: seq<T>, f: T -> nat, g: T -> nat, at: int)
    requires forall i :: 0 <= i < |s| ==> g(s[i]) <= f(s[i])
    requires 0 <= at < |s| && g(s[at]) < f(s[at])
    ensures SumOver(s, g) < SumOver(s, f)
    decreases |s|
  {
    assert forall i :: 0 <= i < |s[1..]| ==> s[1..][i] == s[i + 1];
    SumAtMost(s[1..], g, f);
    if at > 0 { SumDrops(s[1..], f, g, at - 1); }
  }

  lemma {:induction false} SumConcat<T>(a: seq<T>, b: seq<T>, f: T -> nat)
    ensures SumOver(a + b, f) == SumOver(a, f) + SumOver(b, f)
  {
    if |a| == 0 {
      assert a + b == b;
    } else {
      assert (a + b)[1..] == a[1..] + b;
      SumConcat(a[1..], b, f);
    }
  }

  lemma {:induction false} SumSplit<T>(s: seq<T>, n: nat, f: T -> nat)
    requires n <= |s|
    ensures SumOver(s, f) == SumOver(s[..n], f) + SumOver(s[n..], f)
  {
    assert s == s[..n] + s[n..];
    SumConcat(s[..n], s[n..], f);
  }

  function Map<A, B>(s: seq<A>, m: A -> B): (r: seq<B>)
    ensures |r| == |s| && forall i :: 0 <= i < |s| ==> r[i] == m(s[i])
  {
    seq(|s|, i requires 0 <= i < |s| => m(s[i]))
  }

  lemma {:induction false} SumMap<A, B>(s: seq<A>, m: A -> B, f: B -> nat, g: A -> nat)
    requires forall x :: f(m(x)) == g(x)
    ensures SumOver(Map(s, m), f) == SumOver(s, g)
  {
    if |s| > 0 {
      assert Map(s, m)[1..] == Map(s[1..], m);
      SumMap(s[1..], m, f, g);
    }
  }

  /** `iter().take(n)` */
  function TakeFirst<T>(s: seq<T>, n: nat): seq<T> { if n <= |s| then s[..n] else s }

  /** `iter().skip(n)` */
  function Skip<T>(s: seq<T>, n: nat): seq<T> { if n <= |s| then s[n..] else [] }

  lemma {:induction false} SumTakeFirst<T>(s: seq<T>, n: nat, f: T -> nat)
    ensures SumOver(TakeFirst(s, n), f) <= SumOver(s, f)
    ensures SumOver(Skip(s, n), f) <= SumOver(s, f)
  {
    if n <= |s| { SumSplit(s, n, f); }
  }

  lemma {:induction false} MapConcat<A, B>(a: seq<A>, b: seq<A>, m: A -> B)
    ensures Map(a + b, m) == Map(a, m) + Map(b, m)
  {
  }
}

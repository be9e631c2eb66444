/** Orderings, stable sorting and filtering, shared by every component that sorts. */
module Orders {
  import opened Sequences

  // ----- text order -----

  /** Strict lexicographic order on text, by code point. */
  predicate TextLess(a: string, b: string) {
    |b| > 0 && (|a| == 0 || a[0] < b[0] || (a[0] == b[0] && TextLess(a[1..], b[1..])))
  }

  lemma {:induction false} TextLessIrreflexive(a: string)
    ensures !TextLess(a, a)
  {
    if |a| > 0 { TextLessIrreflexive(a[1..]); }
  }

  lemma {:induction false} TextLessTotal(a: string, b: string)
    ensures !TextLess(a, a)
    ensures !(TextLess(a, b) && TextLess(b, a))
    ensures a == b || TextLess(a, b) || TextLess(b, a)
    decreases |a| + |b|
  {
    TextLessIrreflexive(a);
    if |a| > 0 && |b| > 0 {
      TextLessTotal(a[1..], b[1..]);
      assert a == [a[0]] + a[1..] && b == [b[0]] + b[1..];
    }
  }

  lemma {:induction false} TextLessTransitive(a: string, b: string, c: string)
    requires TextLess(a, b) && TextLess(b, c)
    ensures TextLess(a, c)
  {
    if |a| > 0 && a[0] == b[0] && b[0] == c[0] {
      TextLessTransitive(a[1..], b[1..], c[1..]);
    }
  }

  // ----- orders on any type -----

  /** A strict weak order: what a comparator passed to a sort must be. */
  ghost predicate WeakOrder<T(!new)>(less: (T, T) -> bool) {
    && (forall x :: !less(x, x))
    && (forall x, y :: less(x, y) ==> !less(y, x))
    && (forall x, y, z :: less(x, z) ==> less(x, y) || less(y, z))
  }

  ghost predicate Sorted<T>(s: seq<T>, less: (T, T) -> bool) {
    forall i, j :: 0 <= i < j < |s| ==> !less(s[j], s[i])
  }

  /** No two different elements tie. */
  ghost predicate NoTies<T>(s: seq<T>, less: (T, T) -> bool) {
    forall i, j :: 0 <= i < |s| && 0 <= j < |s| && s[i] != s[j] ==> less(s[i], s[j]) || less(s[j], s[i])
  }

  function Insert<T>(x: T, s: seq<T>, less: (T, T) -> bool): seq<T> {
    if |s| == 0 then [x]
    else if less(s[0], x) then [s[0]] + Insert(x, s[1..], less)
    else [x] + s
  }

  /** The stable sort of `s`. */
  function Sort<T>(s: seq<T>, less: (T, T) -> bool): seq<T> {
    if |s| == 0 then [] else Insert(s[0], Sort(s[1..], less), less)
  }

  lemma {:induction false} InsertKeeps<T>(x: T, s: seq<T>, less: (T, T) -> bool)
    ensures multiset(Insert(x, s, less)) == multiset(s) + multiset{x}
  {
    if |s| > 0 {
      assert s == [s[0]] + s[1..];
      InsertKeeps(x, s[1..], less);
    }
  }

  lemma {:induction false} InsertSorted<T(!new)>(x: T, s: seq<T>, less: (T, T) -> bool)
    requires WeakOrder(less) && Sorted(s, less)
    ensures Sorted(Insert(x, s, less), less)
  {
    if |s| > 0 {
      if less(s[0], x) {
        var rest := Insert(x, s[1..], less);
        InsertSorted(x, s[1..], less);
        InsertKeeps(x, s[1..], less);
        forall j | 0 <= j < |rest| ensures !less(rest[j], s[0]) {
          assert rest[j] in multiset(rest);
          if rest[j] != x {
            var k :| 0 <= k < |s[1..]| && s[1..][k] == rest[j];
            assert rest[j] == s[k + 1];
          }
        }
      } else {
        forall j | 0 <= j < |s| ensures !less(s[j], x) {
        }
      }
    }
  }

  lemma {:induction false} SortSorts<T(!new)>(s: seq<T>, less: (T, T) -> bool)
    requires WeakOrder(less)
    ensures Sorted(Sort(s, less), less)
    ensures multiset(Sort(s, less)) == multiset(s)
    ensures |Sort(s, less)| == |s|
  {
    if |s| > 0 {
      SortSorts(s[1..], less);
      InsertSorted(s[0], Sort(s[1..], less), less);
      InsertKeeps(s[0], Sort(s[1..], less), less);
      assert s == [s[0]] + s[1..];
    }
    assert |multiset(Sort(s, less))| == |multiset(s)|;
  }

  lemma {:induction false} SameMembers<T>(a: seq<T>, b: seq<T>)
    requires multiset(a) == multiset(b)
    ensures |a| == |b|
    ensures forall x :: x in a <==> x in b
  {
    assert |multiset(a)| == |multiset(b)|;
    forall x ensures x in a <==> x in b {
      assert x in a <==> x in multiset(a);
      assert x in b <==> x in multiset(b);
    }
  }

  /** Rearranging a sequence whose keys are distinct keeps them distinct. */
  lemma {:induction false} DistinctKeysForgetOrder<T, K>(a: seq<T>, b: seq<T>, key: T -> K)
    requires multiset(a) == multiset(b) && Distinct(Map(a, key))
    ensures Distinct(Map(b, key))
  {
    SameMembers(a, b);
    MembersCount(Map(a, key));
    MembersCount(Map(b, key));
    assert Members(Map(a, key)) == Members(Map(b, key)) by {
      forall k ensures k in Map(a, key) <==> k in Map(b, key) {
        if k in Map(a, key) { var i :| 0 <= i < |a| && Map(a, key)[i] == k; KeyIsIn(a[i], b, key); }
        if k in Map(b, key) { var i :| 0 <= i < |b| && Map(b, key)[i] == k; KeyIsIn(b[i], a, key); }
      }
    }
  }

  lemma {:induction false} KeyIsIn<T, K>(x: T, s: seq<T>, key: T -> K)
    requires x in s
    ensures key(x) in Map(s, key)
  {
    var i :| 0 <= i < |s| && s[i] == x;
    assert Map(s, key)[i] == key(x);
  }

  lemma {:induction false} SortedFirstsAgree<T>(a: seq<T>, b: seq<T>, less: (T, T) -> bool)
    requires Sorted(a, less) && Sorted(b, less) && NoTies(a, less)
    requires multiset(a) == multiset(b) && |a| > 0 && |b| > 0
    ensures a[0] == b[0]
  {
    assert a[0] in multiset(b) && b[0] in multiset(a);
    var i :| 0 <= i < |b| && b[i] == a[0];
    var j :| 0 <= j < |a| && a[j] == b[0];
  }

  lemma {:induction false} RestCounts<T>(s: seq<T>)
    requires |s| > 0
    ensures multiset(s[1..]) == multiset(s) - multiset{s[0]}
  {
    assert s == [s[0]] + s[1..];
  }

  /** Without ties, there is only one sorted arrangement. */
  lemma {:induction false} SortedIsUnique<T>(a: seq<T>, b: seq<T>, less: (T, T) -> bool)
    requires Sorted(a, less) && Sorted(b, less) && NoTies(a, less)
    requires multiset(a) == multiset(b)
    ensures a == b
  {
    assert |multiset(a)| == |multiset(b)|;
    if |a| > 0 {
      SortedFirstsAgree(a, b, less);
      assert a == [a[0]] + a[1..] && b == [b[0]] + b[1..];
      RestCounts(a);
      RestCounts(b);
      SortedIsUnique(a[1..], b[1..], less);
    }
  }

  /** Sorting forgets the order of its input when no two elements tie. */
  lemma {:induction false} SortForgetsOrder<T(!new)>(a: seq<T>, b: seq<T>, less: (T, T) -> bool)
    requires WeakOrder(less) && multiset(a) == multiset(b) && NoTies(a, less)
    ensures Sort(a, less) == Sort(b, less)
  {
    SortSorts(a, less);
    SortSorts(b, less);
    SameMembers(a, Sort(a, less));
    assert NoTies(Sort(a, less), less) by {
      forall i, j | 0 <= i < |Sort(a, less)| && 0 <= j < |Sort(a, less)| && Sort(a, less)[i] != Sort(a, less)[j]
        ensures less(Sort(a, less)[i], Sort(a, less)[j]) || less(Sort(a, less)[j], Sort(a, less)[i])
      {
        assert Sort(a, less)[i] in a && Sort(a, less)[j] in a;
      }
    }
    SortedIsUnique(Sort(a, less), Sort(b, less), less);
  }

  lemma {:induction false} DistinctCounts<T>(s: seq<T>)
    requires Distinct(s)
    ensures multiset(s) == multiset(Members(s))
  {
    if |s| > 0 {
      var front, last := s[..|s| - 1], s[|s| - 1];
      assert s == front + [last];
      DistinctCounts(front);
      MembersSnoc(front, last);
      assert last !in front;
    }
  }

  /** Sequences without repetition and with the same members are rearrangements of each other. */
  lemma {:induction false} DistinctSameMembers<T>(a: seq<T>, b: seq<T>)
    requires Distinct(a) && Distinct(b) && forall x :: x in a <==> x in b
    ensures multiset(a) == multiset(b)
  {
    DistinctCounts(a);
    DistinctCounts(b);
    assert Members(a) == Members(b);
  }

  // ----- composed orders -----

  function ByText<T>(key: T -> string): (T, T) -> bool {
    (x: T, y: T) => TextLess(key(x), key(y))
  }

  function ByNumber<T>(key: T -> int): (T, T) -> bool {
    (x: T, y: T) => key(x) < key(y)
  }

  /** The first order decides, and the second only between its ties. */
  function Then<T>(first: (T, T) -> bool, second: (T, T) -> bool): (T, T) -> bool {
    (x: T, y: T) => first(x, y) || (!first(y, x) && second(x, y))
  }

  lemma {:induction false} ByTextIsWeakOrder<T(!new)>(key: T -> string)
    ensures WeakOrder(ByText(key))
  {
    var less := ByText(key);
    forall x ensures !less(x, x) { TextLessIrreflexive(key(x)); }
    forall x, y | less(x, y) ensures !less(y, x) { TextLessTotal(key(x), key(y)); }
    forall x, y, z | less(x, z) ensures less(x, y) || less(y, z) {
      TextLessTotal(key(x), key(y));
      TextLessTotal(key(y), key(z));
      if TextLess(key(y), key(x)) && TextLess(key(x), key(z)) { TextLessTransitive(key(y), key(x), key(z)); }
    }
  }

  lemma {:induction false} ByNumberIsWeakOrder<T(!new)>(key: T -> int)
    ensures WeakOrder(ByNumber(key))
  {
  }

  lemma {:induction false} ThenIsWeakOrder<T(!new)>(first: (T, T) -> bool, second: (T, T) -> bool)
    requires WeakOrder(first) && WeakOrder(second)
    ensures WeakOrder(Then(first, second))
  {
    var less := Then(first, second);
    forall x, y, z | less(x, z) ensures less(x, y) || less(y, z) {
      assert first(x, z) ==> first(x, y) || first(y, z);
      assert first(y, x) ==> first(y, z) || first(z, x);
      assert first(z, y) ==> first(z, x) || first(x, y);
      assert second(x, z) ==> second(x, y) || second(y, z);
    }
  }

  // ----- filtering -----

  function Filter<T>(s: seq<T>, keep: T -> bool): seq<T> {
    if |s| == 0 then []
    else if keep(s[0]) then [s[0]] + Filter(s[1..], keep)
    else Filter(s[1..], keep)
  }

  lemma {:induction false} FilterCounts<T>(s: seq<T>, keep: T -> bool)
    ensures forall x :: multiset(Filter(s, keep))[x] == if keep(x) then multiset(s)[x] else 0
    ensures |Filter(s, keep)| <= |s|
  {
    if |s| > 0 {
      assert s == [s[0]] + s[1..];
      FilterCounts(s[1..], keep);
    }
  }

  lemma {:induction false} FilterMembers<T>(s: seq<T>, keep: T -> bool)
    ensures forall x :: x in Filter(s, keep) <==> x in s && keep(x)
  {
    FilterCounts(s, keep);
    forall x ensures x in Filter(s, keep) <==> x in s && keep(x) {
      assert x in Filter(s, keep) <==> x in multiset(Filter(s, keep));
      assert x in s <==> x in multiset(s);
    }
  }

  lemma {:induction false} FilterConcat<T>(a: seq<T>, b: seq<T>, keep: T -> bool)
    ensures Filter(a + b, keep) == Filter(a, keep) + Filter(b, keep)
  {
    if |a| == 0 {
      assert a + b == b;
    } else {
      assert (a + b)[1..] == a[1..] + b;
      FilterConcat(a[1..], b, keep);
    }
  }

  lemma {:induction false} FilterAll<T>(s: seq<T>, keep: T -> bool)
    requires forall i :: 0 <= i < |s| ==> keep(s[i])
    ensures Filter(s, keep) == s
  {
    if |s| > 0 { FilterAll(s[1..], keep); }
  }

  lemma {:induction false} FilterNone<T>(s: seq<T>, keep: T -> bool)
    requires forall i :: 0 <= i < |s| ==> !keep(s[i])
    ensures Filter(s, keep) == []
  {
    if |s| > 0 { FilterNone(s[1..], keep); }
  }

  /** Moving an element to the front rearranges the sequence. */
  lemma {:induction false} ToFrontCounts<T>(s: seq<T>, k: nat)
    requires k < |s|
    ensures multiset([s[k]] + (s[..k] + s[k + 1..])) == multiset(s)
  {
    assert s == s[..k] + ([s[k]] + s[k + 1..]);
  }

  lemma {:induction false} WithoutCounts<T>(s: seq<T>, k: nat)
    requires k < |s|
    ensures multiset(s[..k] + s[k + 1..]) == multiset(s) - multiset{s[k]}
  {
    assert s == s[..k] + ([s[k]] + s[k + 1..]);
  }

  lemma {:induction false} FilterWithout<T>(s: seq<T>, k: nat, keep: T -> bool)
    requires k < |s|
    ensures multiset(Filter(s, keep)) ==
            multiset(Filter(s[..k] + s[k + 1..], keep)) + if keep(s[k]) then multiset{s[k]} else multiset{}
  {
    assert s == s[..k] + ([s[k]] + s[k + 1..]);
    FilterConcat(s[..k], [s[k]] + s[k + 1..], keep);
    FilterConcat(s[..k], s[k + 1..], keep);
    assert ([s[k]] + s[k + 1..])[1..] == s[k + 1..];
  }

  lemma {:induction false} FilterRearranged<T>(a: seq<T>, b: seq<T>, keep: T -> bool)
    requires multiset(a) == multiset(b)
    ensures multiset(Filter(a, keep)) == multiset(Filter(b, keep))
    decreases |a|
  {
    if |a| == 0 {
      SameMembers(a, b);
    } else {
      SameMembers(a, b);
      assert a[0] in b;
      var k :| 0 <= k < |b| && b[k] == a[0];
      RestCounts(a);
      WithoutCounts(b, k);
      FilterRearranged(a[1..], b[..k] + b[k + 1..], keep);
      FilterWithout(b, k, keep);
    }
  }

  /** Rearranging a sequence rearranges what a filter keeps. */
  lemma {:induction false} FilterForgetsOrder<T>(a: seq<T>, b: seq<T>, keep: T -> bool)
    requires multiset(a) == multiset(b)
    ensures multiset(Filter(a, keep)) == multiset(Filter(b, keep)) && |Filter(a, keep)| == |Filter(b, keep)|
  {
    FilterRearranged(a, b, keep);
    assert |multiset(Filter(a, keep))| == |multiset(Filter(b, keep))|;
  }

  lemma {:induction false} FilterTwice<T>(s: seq<T>, first: T -> bool, second: T -> bool, both: T -> bool)
    requires forall i :: 0 <= i < |s| ==> both(s[i]) == (first(s[i]) && second(s[i]))
    ensures Filter(Filter(s, first), second) == Filter(s, both)
  {
    if |s| > 0 {
      FilterTwice(s[1..], first, second, both);
      if first(s[0]) { assert ([s[0]] + Filter(s[1..], first))[1..] == Filter(s[1..], first); }
    }
  }

  /** Filters that agree place by place keep equally many. */
  lemma {:induction false} FilterAgrees<A, B>(a: seq<A>, b: seq<B>, keepA: A -> bool, keepB: B -> bool)
    requires |a| == |b| && forall i :: 0 <= i < |a| ==> keepA(a[i]) == keepB(b[i])
    ensures |Filter(a, keepA)| == |Filter(b, keepB)|
  {
    if |a| > 0 { FilterAgrees(a[1..], b[1..], keepA, keepB); }
  }

  lemma {:induction false} FilterSnoc<T>(s: seq<T>, x: T, keep: T -> bool)
    ensures Filter(s + [x], keep) == Filter(s, keep) + if keep(x) then [x] else []
  {
    FilterConcat(s, [x], keep);
    assert [x][1..] == [];
  }

  /** A filtered sequence is as long as there are places whose element is kept. */
  lemma {:induction false} FilterPlacesCount<T>(s: seq<T>, keep: T -> bool, places: set<int>)
    requires forall i :: i in places <==> 0 <= i < |s| && keep(s[i])
    ensures |Filter(s, keep)| == |places|
    decreases |s|
  {
    if |s| == 0 {
      assert forall i :: i in places ==> 0 <= i < |s|;
      assert forall i :: i !in places;
    } else {
      var front, last := s[..|s| - 1], |s| - 1;
      assert s == front + [s[last]];
      FilterSnoc(front, s[last], keep);
      FilterPlacesCount(front, keep, places - {last});
      assert keep(s[last]) ==> places == (places - {last}) + {last};
      assert !keep(s[last]) ==> places == places - {last};
    }
  }

  /** In a sorted sequence of distinct, tie-free elements, as many come before an element as are less, and
      any rearrangement of the sequence holds as many. */
  lemma {:induction false} SortedRank<T(!new)>(
      s: seq<T>, shuffled: seq<T>, less: (T, T) -> bool, i: nat, before: T -> bool)
    requires Sorted(s, less) && NoTies(s, less) && Distinct(s) && i < |s|
    requires forall x, y :: less(x, y) ==> !less(y, x)
    requires multiset(s) == multiset(shuffled)
    requires forall j :: 0 <= j < |s| ==> before(s[j]) == less(s[j], s[i])
    ensures |Filter(shuffled, before)| == i
  {
    assert s == s[..i] + s[i..];
    FilterConcat(s[..i], s[i..], before);
    FilterAll(s[..i], before);
    FilterNone(s[i..], before);
    FilterForgetsOrder(s, shuffled, before);
  }

  /** `where` places each element of `sub` in `s`, in order: `sub` keeps the order of `s`. */
  ghost predicate Places<T>(sub: seq<T>, s: seq<T>, places: seq<nat>) {
    && |places| == |sub|
    && (forall i :: 0 <= i < |sub| ==> places[i] < |s| && s[places[i]] == sub[i])
    && (forall i, j :: 0 <= i < j < |sub| ==> places[i] < places[j])
  }

  lemma {:induction false} ShiftPlaces<T>(sub: seq<T>, x: T, s: seq<T>, places: seq<nat>) returns (shifted: seq<nat>)
    requires Places(sub, s, places)
    ensures Places(sub, [x] + s, shifted)
    ensures forall i :: 0 <= i < |shifted| ==> shifted[i] > 0
  {
    shifted := seq(|places|, i requires 0 <= i < |places| => places[i] + 1);
    forall i | 0 <= i < |sub| ensures shifted[i] < |[x] + s| && ([x] + s)[shifted[i]] == sub[i] {
      assert ([x] + s)[places[i] + 1] == s[places[i]];
    }
  }

  lemma {:induction false} FilterPlaces<T>(s: seq<T>, keep: T -> bool) returns (places: seq<nat>)
    ensures Places(Filter(s, keep), s, places)
  {
    if |s| == 0 {
      places := [];
    } else {
      var rest := FilterPlaces(s[1..], keep);
      places := ShiftPlaces(Filter(s[1..], keep), s[0], s[1..], rest);
      assert [s[0]] + s[1..] == s;
      if keep(s[0]) { places := [0] + places; }
    }
  }

  lemma {:induction false} SumFilter<T>(s: seq<T>, keep: T -> bool, f: T -> nat)
    ensures SumOver(Filter(s, keep), f) <= SumOver(s, f)
  {
    if |s| > 0 {
      SumFilter(s[1..], keep, f);
      assert ([s[0]] + Filter(s[1..], keep))[1..] == Filter(s[1..], keep);
    }
  }

  lemma {:induction false} SumInsert<T>(x: T, s: seq<T>, less: (T, T) -> bool, f: T -> nat)
    ensures SumOver(Insert(x, s, less), f) == f(x) + SumOver(s, f)
  {
    if |s| > 0 && less(s[0], x) {
      SumInsert(x, s[1..], less, f);
      assert ([s[0]] + Insert(x, s[1..], less))[1..] == Insert(x, s[1..], less);
    } else {
      assert ([x] + s)[1..] == s;
    }
  }

  lemma {:induction false} SumSort<T>(s: seq<T>, less: (T, T) -> bool, f: T -> nat)
    ensures SumOver(Sort(s, less), f) == SumOver(s, f)
  {
    if |s| > 0 {
      SumSort(s[1..], less, f);
      SumInsert(s[0], Sort(s[1..], less), less, f);
    }
  }
}

/** The stable sort that Rust's `sort_by_key` and Python's `sorted` and `list.sort` perform. */
module Sorting {

  ghost predicate TotalPreorder<T(!new)>(le: (T, T) -> bool) {
    && (forall a, b :: le(a, b) || le(b, a))
    && (forall a, b, c :: le(a, b) && le(b, c) ==> le(a, c))
  }

  predicate Sorted<T>(s: seq<T>, le: (T, T) -> bool) {
    forall i, j :: 0 <= i < j < |s| ==> le(s[i], s[j])
  }

  /** Sorted with no two elements of equal rank. */
  predicate StrictlySorted<T>(s: seq<T>, le: (T, T) -> bool) {
    forall i, j :: 0 <= i < j < |s| ==> le(s[i], s[j]) && !le(s[j], s[i])
  }

  predicate RanksDiffer<T>(s: seq<T>, le: (T, T) -> bool) {
    forall i, j :: 0 <= i < j < |s| ==> !le(s[i], s[j]) || !le(s[j], s[i])
  }

  /** Puts `x` after every element that does not rank above it. */
  function Insert<T>(s: seq<T>, x: T, le: (T, T) -> bool): seq<T> {
    if s == [] then [x]
    else
      var last := s[|s| - 1];
      if le(last, x) then s + [x] else Insert(s[..|s| - 1], x, le) + [last]
  }

  function Sort<T>(s: seq<T>, le: (T, T) -> bool): seq<T> {
    if s == [] then [] else Insert(Sort(s[..|s| - 1], le), s[|s| - 1], le)
  }

  lemma {:induction false} InsertMultiset<T>(s: seq<T>, x: T, le: (T, T) -> bool)
    ensures multiset(Insert(s, x, le)) == multiset(s) + multiset{x}
  {
    if s != [] {
      var init, last := s[..|s| - 1], s[|s| - 1];
      InsertMultiset(init, x, le);
      assert s == init + [last];
    }
  }

  lemma InsertAdds<T>(s: seq<T>, x: T, le: (T, T) -> bool)
    ensures multiset(Insert(s, x, le)) == multiset(s) + multiset{x}
    ensures |Insert(s, x, le)| == |s| + 1
    ensures forall y :: y in Insert(s, x, le) <==> y in s || y == x
  {
    hide Insert;
    InsertMultiset(s, x, le);
    var inserted := Insert(s, x, le);
    assert |multiset(inserted)| == |inserted| && |multiset(s)| == |s|;
    forall y ensures y in inserted <==> y in s || y == x {
      assert y in inserted <==> y in multiset(inserted);
      assert y in s <==> y in multiset(s);
    }
  }

  lemma {:induction false} SortPermutes<T>(s: seq<T>, le: (T, T) -> bool)
    ensures multiset(Sort(s, le)) == multiset(s)
    ensures |Sort(s, le)| == |s|
    ensures forall y :: y in Sort(s, le) <==> y in s
  {
    hide Insert;
    if s != [] {
      var init, last := s[..|s| - 1], s[|s| - 1];
      SortPermutes(init, le);
      InsertAdds(Sort(init, le), last, le);
      assert s == init + [last];
    }
  }

  lemma {:induction false} InsertKeepsSorted<T(!new)>(s: seq<T>, x: T, le: (T, T) -> bool)
    requires TotalPreorder(le) && Sorted(s, le)
    ensures Sorted(Insert(s, x, le), le)
  {
    if s != [] {
      var init, last := s[..|s| - 1], s[|s| - 1];
      if !le(last, x) {
        InsertKeepsSorted(init, x, le);
        InsertAdds(init, x, le);
        var inserted := Insert(init, x, le);
        forall i | 0 <= i < |inserted| ensures le(inserted[i], last) {
          assert inserted[i] in inserted;
        }
      }
    }
  }

  lemma {:induction false} SortSorts<T(!new)>(s: seq<T>, le: (T, T) -> bool)
    requires TotalPreorder(le)
    ensures Sorted(Sort(s, le), le)
  {
    if s != [] {
      SortSorts(s[..|s| - 1], le);
      InsertKeepsSorted(Sort(s[..|s| - 1], le), s[|s| - 1], le);
    }
  }

  /** Elements of different ranks come out strictly sorted. */
  lemma {:induction false} InsertKeepsStrict<T(!new)>(s: seq<T>, x: T, le: (T, T) -> bool)
    requires TotalPreorder(le) && StrictlySorted(s, le)
    requires forall y :: y in s ==> !le(x, y) || !le(y, x)
    ensures StrictlySorted(Insert(s, x, le), le)
  {
    if s != [] {
      var init, last := s[..|s| - 1], s[|s| - 1];
      assert s == init + [last];
      if le(last, x) {
        forall i | 0 <= i < |s| ensures le(s[i], x) && !le(x, s[i]) {
          assert s[i] in s;
        }
      } else {
        InsertKeepsStrict(init, x, le);
        InsertAdds(init, x, le);
        var inserted := Insert(init, x, le);
        forall i | 0 <= i < |inserted| ensures le(inserted[i], last) && !le(last, inserted[i]) {
          assert inserted[i] in inserted;
        }
      }
    }
  }

  lemma {:induction false} SortIsStrict<T(!new)>(s: seq<T>, le: (T, T) -> bool)
    requires TotalPreorder(le) && RanksDiffer(s, le)
    ensures StrictlySorted(Sort(s, le), le)
  {
    if s != [] {
      var init := s[..|s| - 1];
      SortIsStrict(init, le);
      SortPermutes(init, le);
      InsertKeepsStrict(Sort(init, le), s[|s| - 1], le);
    }
  }

  /** There is one strictly sorted sequence of any given elements. */
  lemma {:induction false} StrictOrderIsUnique<T(!new)>(a: seq<T>, b: seq<T>, le: (T, T) -> bool)
    requires TotalPreorder(le) && StrictlySorted(a, le) && StrictlySorted(b, le)
    requires forall x :: x in a <==> x in b
    ensures a == b
  {
    hide TotalPreorder, StrictlySorted;
    assert |b| > 0 ==> b[0] in b;
    if a != [] {
      assert a[0] in a;
      var x, y := a[|a| - 1], b[|b| - 1];
      assert x in b && y in a;
      GreatestIsOne(a, b, le);
      var p, q := a[..|a| - 1], b[..|b| - 1];
      assert a == p + [x] && b == q + [x];
      forall z ensures z in p <==> z in q {
        LastIsNotEarlier(a, z, le);
        LastIsNotEarlier(b, z, le);
        assert z in p ==> z in a;
        assert z in q ==> z in b;
      }
      InitIsStrict(a, le);
      InitIsStrict(b, le);
      StrictOrderIsUnique(p, q, le);
    }
  }

  lemma InitIsStrict<T>(s: seq<T>, le: (T, T) -> bool)
    requires StrictlySorted(s, le) && s != []
    ensures StrictlySorted(s[..|s| - 1], le)
  {}

  /** No two elements rank above one another. */
  lemma GreatestIsOne<T(!new)>(a: seq<T>, b: seq<T>, le: (T, T) -> bool)
    requires TotalPreorder(le) && StrictlySorted(a, le) && StrictlySorted(b, le) && a != [] && b != []
    requires a[|a| - 1] in b && b[|b| - 1] in a
    ensures a[|a| - 1] == b[|b| - 1]
  {
    hide TotalPreorder, StrictlySorted;
    LastIsGreatest(a, b[|b| - 1], le);
    LastIsGreatest(b, a[|a| - 1], le);
  }

  lemma LastIsGreatest<T(!new)>(s: seq<T>, x: T, le: (T, T) -> bool)
    requires TotalPreorder(le) && StrictlySorted(s, le) && x in s
    ensures x == s[|s| - 1] || (le(x, s[|s| - 1]) && !le(s[|s| - 1], x))
  {}

  lemma LastIsNotEarlier<T(!new)>(s: seq<T>, x: T, le: (T, T) -> bool)
    requires TotalPreorder(le) && StrictlySorted(s, le) && s != []
    ensures x in s[..|s| - 1] ==> x != s[|s| - 1]
  {}

  // ----- stability

  /** The elements that rank equal to `x`, in order. */
  function OfRank<T>(s: seq<T>, x: T, le: (T, T) -> bool): seq<T> {
    if s == [] then []
    else
      var last := s[|s| - 1];
      OfRank(s[..|s| - 1], x, le) + if le(x, last) && le(last, x) then [last] else []
  }

  lemma OfRankAppend<T>(s: seq<T>, y: T, x: T, le: (T, T) -> bool)
    ensures OfRank(s + [y], x, le) == OfRank(s, x, le) + if le(x, y) && le(y, x) then [y] else []
  {
    assert (s + [y])[..|s|] == s;
  }

  lemma NotBothOfRank<T(!new)>(a: T, b: T, x: T, le: (T, T) -> bool)
    requires TotalPreorder(le) && !le(a, b)
    ensures !(le(a, x) && le(x, b))
  {}

  lemma {:induction false} InsertIsStable<T(!new)>(s: seq<T>, y: T, x: T, le: (T, T) -> bool)
    requires TotalPreorder(le)
    ensures OfRank(Insert(s, y, le), x, le) == OfRank(s + [y], x, le)
  {
    hide OfRank, TotalPreorder;
    if s == [] {
      assert s + [y] == [y];
    } else {
      var init, last := s[..|s| - 1], s[|s| - 1];
      if !le(last, y) {
        NotBothOfRank(last, y, x, le);
        InsertIsStable(init, y, x, le);
        OfRankAppend(Insert(init, y, le), last, x, le);
        OfRankAppend(init, y, x, le);
        OfRankAppend(init, last, x, le);
        assert s == init + [last];
        OfRankAppend(s, y, x, le);
      }
    }
  }

  /** Elements of equal rank keep their order. */
  lemma {:induction false} SortIsStable<T(!new)>(s: seq<T>, x: T, le: (T, T) -> bool)
    requires TotalPreorder(le)
    ensures OfRank(Sort(s, le), x, le) == OfRank(s, x, le)
  {
    if s != [] {
      var init, last := s[..|s| - 1], s[|s| - 1];
      SortIsStable(init, x, le);
      InsertIsStable(Sort(init, le), last, x, le);
      OfRankAppend(Sort(init, le), last, x, le);
    }
  }

  // ----- strings in code point order

  predicate StringLe(a: string, b: string) {
    a == "" || (b != "" && (a[0] < b[0] || (a[0] == b[0] && StringLe(a[1..], b[1..]))))
  }

  lemma {:induction false} StringLeIsTotal(a: string, b: string)
    ensures StringLe(a, b) || StringLe(b, a)
    ensures StringLe(a, b) && StringLe(b, a) ==> a == b
  {
    if a != "" && b != "" {
      StringLeIsTotal(a[1..], b[1..]);
      assert a == [a[0]] + a[1..] && b == [b[0]] + b[1..];
    }
  }

  lemma {:induction false} StringLeIsTransitive(a: string, b: string, c: string)
    requires StringLe(a, b) && StringLe(b, c)
    ensures StringLe(a, c)
  {
    if a != "" && a[0] == b[0] && b[0] == c[0] {
      StringLeIsTransitive(a[1..], b[1..], c[1..]);
    }
  }

  lemma StringLeIsPreorder()
    ensures TotalPreorder(StringLe)
  {
    forall a: string, b: string ensures StringLe(a, b) || StringLe(b, a) {
      StringLeIsTotal(a, b);
    }
    forall a: string, b: string, c: string | StringLe(a, b) && StringLe(b, c) ensures StringLe(a, c) {
      StringLeIsTransitive(a, b, c);
    }
  }

  // ----- selecting

  /** The positions below `n` at which `p` holds, in order. */
  predicate Picks(at: seq<nat>, n: nat, p: nat -> bool) {
    && (forall k :: 0 <= k < |at| ==> at[k] < n && p(at[k]))
    && (forall k, l :: 0 <= k < l < |at| ==> at[k] < at[l])
    && (forall i :: 0 <= i < n && p(i) ==> i in at)
  }

  lemma PicksNothing(p: nat -> bool)
    ensures Picks([], 0, p)
  {}

  lemma PicksNext(at: seq<nat>, n: nat, p: nat -> bool)
    requires Picks(at, n, p)
    ensures Picks(if p(n) then at + [n] else at, n + 1, p)
  {
    var next := if p(n) then at + [n] else at;
    forall i | 0 <= i < n + 1 && p(i) ensures i in next {
      if i < n {
        assert i in at;
      } else {
        assert (at + [n])[|at|] == n;
      }
    }
  }

  // ----- counting

  function Count<T(==)>(s: seq<T>, x: T): nat {
    if s == [] then 0 else Count(s[..|s| - 1], x) + if s[|s| - 1] == x then 1 else 0
  }

  lemma CountAppend<T>(s: seq<T>, y: T, x: T)
    ensures Count(s + [y], x) == Count(s, x) + if y == x then 1 else 0
  {
    assert (s + [y])[..|s|] == s;
  }

  lemma {:induction false} CountConcat<T>(a: seq<T>, b: seq<T>, x: T)
    ensures Count(a + b, x) == Count(a, x) + Count(b, x)
  {
    if b == [] {
      assert a + b == a;
    } else {
      var init, last := b[..|b| - 1], b[|b| - 1];
      assert a + b == (a + init) + [last];
      CountConcat(a, init, x);
      CountAppend(a + init, last, x);
    }
  }

  lemma {:induction false} CountIsMembership<T>(s: seq<T>, x: T)
    ensures Count(s, x) > 0 <==> x in s
  {
    if s != [] {
      CountIsMembership(s[..|s| - 1], x);
      assert s == s[..|s| - 1] + [s[|s| - 1]];
    }
  }

  lemma {:induction false} CountOfDistinct<T>(s: seq<T>, x: T)
    requires forall i, j :: 0 <= i < j < |s| ==> s[i] != s[j]
    ensures Count(s, x) <= 1
  {
    if s != [] {
      CountOfDistinct(s[..|s| - 1], x);
      CountIsMembership(s[..|s| - 1], x);
    }
  }

  lemma {:induction false} CountOfRepeated<T>(s: seq<T>, i: nat, j: nat)
    requires i < j < |s| && s[i] == s[j]
    ensures Count(s, s[i]) >= 2
  {
    var init := s[..|s| - 1];
    if j < |s| - 1 {
      CountOfRepeated(init, i, j);
    } else {
      assert init[i] == s[i];
      CountIsMembership(init, s[i]);
    }
  }

  lemma {:induction false} InsertCounts<T>(s: seq<T>, y: T, le: (T, T) -> bool, x: T)
    ensures Count(Insert(s, y, le), x) == Count(s + [y], x)
  {
    CountAppend(s, y, x);
    if s != [] && !le(s[|s| - 1], y) {
      InsertCounts(s[..|s| - 1], y, le, x);
      CountAppend(s[..|s| - 1], y, x);
      CountAppend(Insert(s[..|s| - 1], y, le), s[|s| - 1], x);
    }
  }

  /** Sorting loses and duplicates nothing. */
  lemma {:induction false} SortCounts<T>(s: seq<T>, le: (T, T) -> bool, x: T)
    ensures Count(Sort(s, le), x) == Count(s, x)
  {
    if s != [] {
      SortCounts(s[..|s| - 1], le, x);
      InsertCounts(Sort(s[..|s| - 1], le), s[|s| - 1], le, x);
      CountAppend(Sort(s[..|s| - 1], le), s[|s| - 1], x);
    }
  }
}

/**
 * The order the mocked vendor puts reviews in before filtering: by rating or by
 * submission time, ascending or descending, with the comparator `dir * (a - b)`.
 * A review whose submission time does not parse has a NaN key, and a NaN comparison
 * counts as a tie. The sort itself is a stable insertion sort, written once as a
 * function (`Sort`) and once in place on an array (`SortInPlace`).
 */
module ReviewOrder {
  import opened Maybe
  import opened HostawayReview

  /** The sort key and the direction. */
  datatype Order = Order(byRating: bool, ascending: bool)

  /** The key a review is compared on; None stands for NaN. */
  function Key(r: Review, o: Order): Option<int> {
    if o.byRating then Some(r.rating) else r.submittedAt
  }

  /** `dir * (key(a) - key(b))`, with a NaN result read as 0 (a tie). */
  function Compare(a: Review, b: Review, o: Order): (c: int)
    ensures Key(a, o).None? || Key(b, o).None? ==> c == 0
    ensures Key(a, o).Some? && Key(b, o).Some? ==>
              (c > 0 <==> (if o.ascending then Key(a, o).value > Key(b, o).value
                                           else Key(a, o).value < Key(b, o).value))
  {
    match (Key(a, o), Key(b, o))
    case (Some(ka), Some(kb)) => if o.ascending then ka - kb else kb - ka
    case _ => 0
  }

  /** Every review in `s` has a defined key. */
  predicate AllKeyed(s: seq<Review>, o: Order) {
    forall i :: 0 <= i < |s| ==> Key(s[i], o).Some?
  }

  /** The position of a keyed review in the requested direction. */
  function Rank(r: Review, o: Order): int
    requires Key(r, o).Some?
  {
    if o.ascending then Key(r, o).value else -Key(r, o).value
  }

  /** Ranks never decrease from left to right. */
  predicate Sorted(s: seq<Review>, o: Order)
    requires AllKeyed(s, o)
  {
    forall i, j :: 0 <= i < j < |s| ==> Rank(s[i], o) <= Rank(s[j], o)
  }

  /** Insert `x` into `t` behind every element that does not compare greater than it. */
  function Insert(t: seq<Review>, x: Review, o: Order): (r: seq<Review>)
    ensures |r| == |t| + 1
  {
    if t == [] || Compare(t[|t| - 1], x, o) <= 0 then t + [x]
    else Insert(t[..|t| - 1], x, o) + [t[|t| - 1]]
  }

  /** Insertion adds `x` and keeps everything else. */
  lemma {:induction false} InsertIsPermutation(t: seq<Review>, x: Review, o: Order)
    ensures multiset(Insert(t, x, o)) == multiset(t) + multiset{x}
  {
    if t != [] && Compare(t[|t| - 1], x, o) > 0 {
      var init := t[..|t| - 1];
      InsertIsPermutation(init, x, o);
      assert t == init + [t[|t| - 1]];
    }
  }

  /** The stable insertion sort of `s`. */
  function Sort(s: seq<Review>, o: Order): (r: seq<Review>)
    ensures |r| == |s|
  {
    if s == [] then [] else Insert(Sort(s[..|s| - 1], o), s[|s| - 1], o)
  }

  /** Sorting only reorders: the result is a permutation of the input. */
  lemma {:induction false} SortIsPermutation(s: seq<Review>, o: Order)
    ensures multiset(Sort(s, o)) == multiset(s)
  {
    if s != [] {
      SortIsPermutation(s[..|s| - 1], o);
      InsertIsPermutation(Sort(s[..|s| - 1], o), s[|s| - 1], o);
      assert s == s[..|s| - 1] + [s[|s| - 1]];
    }
  }

  /** A review is keyed when it occurs in a keyed list. */
  lemma KeyedMember(s: seq<Review>, x: Review, o: Order)
    requires AllKeyed(s, o) && x in s
    ensures Key(x, o).Some?
  {
  }

  /** Inserting into a sorted list keeps it sorted. */
  lemma {:induction false} InsertSorted(t: seq<Review>, x: Review, o: Order)
    requires AllKeyed(t, o) && Key(x, o).Some? && Sorted(t, o)
    ensures AllKeyed(Insert(t, x, o), o) && Sorted(Insert(t, x, o), o)
  {
    var r := Insert(t, x, o);
    InsertIsPermutation(t, x, o);
    forall i | 0 <= i < |r| ensures Key(r[i], o).Some? {
      assert r[i] in multiset(r);
      assert r[i] in multiset(t) || r[i] == x;
    }
    if t == [] || Compare(t[|t| - 1], x, o) <= 0 {
      forall i, j | 0 <= i < j < |r| ensures Rank(r[i], o) <= Rank(r[j], o) {
        if j == |t| && i < |t| - 1 {
          assert Rank(t[i], o) <= Rank(t[|t| - 1], o);
        }
      }
    } else {
      var init := t[..|t| - 1];
      var last := t[|t| - 1];
      InsertSorted(init, x, o);
      var ri := Insert(init, x, o);
      InsertIsPermutation(init, x, o);
      assert r == ri + [last];
      forall i, j | 0 <= i < j < |r| ensures Rank(r[i], o) <= Rank(r[j], o) {
        if j == |ri| {
          assert r[i] in multiset(ri);
          assert r[i] in multiset(init) || r[i] == x;
          if r[i] != x {
            var k :| 0 <= k < |init| && init[k] == r[i];
            assert Rank(t[k], o) <= Rank(t[|t| - 1], o);
          }
        } else {
          assert r[i] == ri[i] && r[j] == ri[j];
        }
      }
    }
  }

  /** The sort orders a list whose keys are all defined. */
  lemma {:induction false} SortSorted(s: seq<Review>, o: Order)
    requires AllKeyed(s, o)
    ensures AllKeyed(Sort(s, o), o) && Sorted(Sort(s, o), o)
  {
    if s != [] {
      SortSorted(s[..|s| - 1], o);
      InsertSorted(Sort(s[..|s| - 1], o), s[|s| - 1], o);
    }
  }

  // ---------------------------------------------------------------------------
  // Filtering and stability

  /** `s.filter(p)`: the elements that satisfy `p`, in order. */
  function Filter<T>(s: seq<T>, p: T -> bool): (r: seq<T>)
    ensures |r| <= |s|
    ensures forall x :: x in r ==> x in s && p(x)
    ensures forall x :: x in s && p(x) ==> x in r
  {
    if s == [] then []
    else
      var init := Filter(s[..|s| - 1], p);
      var last := s[|s| - 1];
      assert forall x :: x in s ==> x in s[..|s| - 1] || x == last;
      if p(last) then init + [last] else init
  }

  /** Filtering a list with a last element appended. */
  lemma FilterSnoc<T>(s: seq<T>, x: T, p: T -> bool)
    ensures Filter(s + [x], p) == if p(x) then Filter(s, p) + [x] else Filter(s, p)
  {
    assert (s + [x])[..|s + [x]| - 1] == s;
  }

  /** Inserting `x` behind a list none of whose elements compares greater than it appends it. */
  lemma {:induction false} InsertAfterAll(u: seq<Review>, x: Review, o: Order)
    requires forall k :: 0 <= k < |u| ==> Compare(u[k], x, o) <= 0
    ensures Insert(u, x, o) == u + [x]
  {
  }

  /** Filtering commutes with insertion into a sorted list. */
  lemma {:induction false} FilterInsert(t: seq<Review>, x: Review, o: Order, p: Review -> bool)
    requires AllKeyed(t, o) && Key(x, o).Some? && Sorted(t, o)
    ensures Filter(Insert(t, x, o), p) ==
              if p(x) then Insert(Filter(t, p), x, o) else Filter(t, p)
  {
    if t == [] {
      FilterSnoc([], x, p);
    } else if Compare(t[|t| - 1], x, o) <= 0 {
      FilterInsertAtEnd(t, x, o, p);
    } else {
      var init := t[..|t| - 1];
      var last := t[|t| - 1];
      assert t == init + [last];
      assert Insert(t, x, o) == Insert(init, x, o) + [last];
      FilterInsert(init, x, o, p);
      FilterSnoc(Insert(init, x, o), last, p);
      FilterSnoc(init, last, p);
      var fi := Filter(init, p);
      if p(x) && p(last) {
        assert (fi + [last])[..|fi + [last]| - 1] == fi;
        assert Insert(fi + [last], x, o) == Insert(fi, x, o) + [last];
      }
    }
  }

  /** When `x` goes at the end of a sorted list, it also goes at the end of any part of it. */
  lemma FilterInsertAtEnd(t: seq<Review>, x: Review, o: Order, p: Review -> bool)
    requires AllKeyed(t, o) && Key(x, o).Some? && Sorted(t, o)
    requires t != [] && Compare(t[|t| - 1], x, o) <= 0
    ensures Filter(Insert(t, x, o), p) ==
              if p(x) then Insert(Filter(t, p), x, o) else Filter(t, p)
  {
    FilterSnoc(t, x, p);
    var ft := Filter(t, p);
    forall k | 0 <= k < |ft| ensures Compare(ft[k], x, o) <= 0 {
      assert ft[k] in t;
      var m :| 0 <= m < |t| && t[m] == ft[k];
      if m < |t| - 1 { assert Rank(t[m], o) <= Rank(t[|t| - 1], o); }
    }
    InsertAfterAll(ft, x, o);
  }

  /**
   * Sorting and then filtering gives what filtering and then sorting gives: the
   * filter keeps the sorted order among the reviews it lets through.
   */
  lemma {:induction false} FilterSortCommute(s: seq<Review>, o: Order, p: Review -> bool)
    requires AllKeyed(s, o)
    ensures Filter(Sort(s, o), p) == Sort(Filter(s, p), o)
  {
    if s != [] {
      var init := s[..|s| - 1];
      var last := s[|s| - 1];
      assert s == init + [last];
      FilterSortCommute(init, o, p);
      SortSorted(init, o);
      FilterInsert(Sort(init, o), last, o, p);
      FilterSnoc(init, last, p);
      if p(last) {
        var fi := Filter(init, p);
        assert (fi + [last])[..|fi + [last]| - 1] == fi;
      }
    }
  }

  /** No element compares greater than the one after it. */
  predicate InOrder(s: seq<Review>, o: Order) {
    forall i :: 0 < i < |s| ==> Compare(s[i - 1], s[i], o) <= 0
  }

  /** A list in which no review compares greater than the one after it is left as it is. */
  lemma {:induction false} SortOrderedIsIdentity(s: seq<Review>, o: Order)
    requires InOrder(s, o)
    ensures Sort(s, o) == s
  {
    if s != [] {
      var init := s[..|s| - 1];
      var last := s[|s| - 1];
      OrderedPrefix(s, o);
      SortOrderedIsIdentity(init, o);
      InsertAfterLast(init, last, o);
      assert s == init + [last];
    }
  }

  /** Dropping the last element of a list in order leaves a list in order, whose last
      element does not compare greater than the dropped one. */
  lemma OrderedPrefix(s: seq<Review>, o: Order)
    requires s != [] && InOrder(s, o)
    ensures InOrder(s[..|s| - 1], o)
    ensures |s| > 1 ==> Compare(s[|s| - 2], s[|s| - 1], o) <= 0
  {
    var init := s[..|s| - 1];
    forall i | 0 < i < |init| ensures Compare(init[i - 1], init[i], o) <= 0 {
      assert init[i - 1] == s[i - 1] && init[i] == s[i];
    }
  }

  /** An element that the last one does not compare greater than goes at the end. */
  lemma InsertAfterLast(t: seq<Review>, x: Review, o: Order)
    requires t == [] || Compare(t[|t| - 1], x, o) <= 0
    ensures Insert(t, x, o) == t + [x]
  {
  }

  /**
   * Stability: the reviews that share one rank come out in their input order.
   */
  lemma SortIsStable(s: seq<Review>, o: Order, rank: int)
    requires AllKeyed(s, o)
    ensures Filter(Sort(s, o), r => Key(r, o).Some? && Rank(r, o) == rank)
            == Filter(s, r => Key(r, o).Some? && Rank(r, o) == rank)
  {
    var p := r => Key(r, o).Some? && Rank(r, o) == rank;
    FilterSortCommute(s, o, p);
    var f := Filter(s, p);
    forall i | 0 < i < |f| ensures Compare(f[i - 1], f[i], o) <= 0 {
      assert f[i - 1] in f && f[i] in f;
    }
    assert InOrder(f, o);
    SortOrderedIsIdentity(f, o);
  }

  // ---------------------------------------------------------------------------
  // The same sort, in place

  /**
   * `working.sort(comparator)` on the copied array: insertion sort, placing each
   * element in turn into the sorted prefix before it.
   */
  method SortInPlace(a: array<Review>, o: Order)
    modifies a
    ensures a[..] == Sort(old(a[..]), o)
  {
    ghost var input := a[..];
    var i := 0;
    while i < a.Length
      invariant 0 <= i <= a.Length
      invariant a[..i] == Sort(input[..i], o)
      invariant a[i..] == input[i..]
    {
      assert a[i] == input[i];
      InsertInPlace(a, i, o);
      SortStep(input, i, o);
      i := i + 1;
    }
    assert input[..a.Length] == input;
  }

  /** Sorting one more element of `s` inserts it into the sorted prefix. */
  lemma SortStep(s: seq<Review>, i: nat, o: Order)
    requires i < |s|
    ensures Sort(s[..i + 1], o) == Insert(Sort(s[..i], o), s[i], o)
  {
    assert s[..i + 1][..i] == s[..i];
  }

  /** One step of the insertion sort: shift every element of the prefix `a[..i]` that
      compares greater than `a[i]` one slot to the right and put `a[i]` in the gap. */
  method InsertInPlace(a: array<Review>, i: nat, o: Order)
    requires i < a.Length
    modifies a
    ensures a[..i + 1] == Insert(old(a[..i]), old(a[i]), o)
    ensures a[i + 1..] == old(a[i + 1..])
  {
    var x := a[i];
    ghost var sorted := a[..i];
    var j := ShiftGreater(a, i, x, o, sorted);
    a[j] := x;
    InsertPlacement(sorted, j, x, o);
    Assemble(a[..i + 1], sorted, j, x);
  }

  /** The shifting loop of one insertion step: the trailing elements of the prefix
      `a[..i]` that compare greater than `x` move one slot to the right, leaving a gap
      at `j` behind an element not greater than `x` (or at the front). */
  method ShiftGreater(a: array<Review>, i: nat, x: Review, o: Order, ghost sorted: seq<Review>) returns (j: nat)
    requires i < a.Length && sorted == a[..i]
    modifies a
    ensures j <= i
    ensures forall k {:trigger a[k]} :: 0 <= k < j ==> a[k] == sorted[k]
    ensures forall k {:trigger a[k]} :: j < k <= i ==> a[k] == sorted[k - 1]
    ensures forall k :: i < k < a.Length ==> a[k] == old(a[k])
    ensures j == 0 || Compare(sorted[j - 1], x, o) <= 0
    ensures forall k :: j <= k < i ==> Compare(sorted[k], x, o) > 0
  {
    j := i;
    while j > 0 && Compare(a[j - 1], x, o) > 0
      invariant 0 <= j <= i
      invariant forall k {:trigger a[k]} :: 0 <= k < j ==> a[k] == sorted[k]
      invariant forall k {:trigger a[k]} :: j < k <= i ==> a[k] == sorted[k - 1]
      invariant forall k :: i < k < a.Length ==> a[k] == old(a[k])
      invariant forall k :: j <= k < i ==> Compare(sorted[k], x, o) > 0
    {
      assert a[j - 1] == sorted[j - 1];
      a[j] := a[j - 1];
      j := j - 1;
    }
  }

  /** A sequence that agrees with `t` before `j`, holds `x` at `j` and agrees with `t`
      shifted by one after `j` is `t` with `x` put in at `j`. */
  lemma Assemble(s: seq<Review>, t: seq<Review>, j: nat, x: Review)
    requires |s| == |t| + 1 && j <= |t|
    requires forall k :: 0 <= k < j ==> s[k] == t[k]
    requires s[j] == x
    requires forall k :: j < k < |s| ==> s[k] == t[k - 1]
    ensures s == t[..j] + [x] + t[j..]
  {
    var r := t[..j] + [x] + t[j..];
    forall k | 0 <= k < |s| ensures s[k] == r[k] {
      if k < j {
        assert r[k] == t[..j][k];
      } else if k > j {
        assert r[k] == t[j..][k - j - 1];
      }
    }
  }

  /** Insertion puts `x` behind the last element not greater than it: after a prefix
      ending in such an element (or empty), before a suffix of greater ones. */
  lemma {:induction false} InsertPlacement(t: seq<Review>, j: nat, x: Review, o: Order)
    requires j <= |t|
    requires j == 0 || Compare(t[j - 1], x, o) <= 0
    requires forall k :: j <= k < |t| ==> Compare(t[k], x, o) > 0
    ensures Insert(t, x, o) == t[..j] + [x] + t[j..]
    decreases |t|
  {
    if j < |t| {
      var init := t[..|t| - 1];
      assert Insert(t, x, o) == Insert(init, x, o) + [t[|t| - 1]];
      InsertPlacement(init, j, x, o);
      assert init[..j] == t[..j] && init[j..] + [t[|t| - 1]] == t[j..];
    } else {
      assert t[..j] == t && t[j..] == [];
    }
  }
}

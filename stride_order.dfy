/** The order in which the stride layout's constructor visits dimensions when
    it decides contiguity: dimension indices sorted by ascending stride, ties
    kept in index order (an insertion sort that only moves an earlier entry
    past a strictly larger stride). */
module StrideOrder {

  /** Dimension x comes before dimension y: smaller stride, or equal stride and
      smaller index. */
  predicate LexBefore(s: seq<int>, x: int, y: int)
    requires 0 <= x < |s| && 0 <= y < |s|
  {
    s[x] < s[y] || (s[x] == s[y] && x < y)
  }

  predicate InRange(p: seq<int>, n: int)
  {
    forall a | 0 <= a < |p| :: 0 <= p[a] < n
  }

  /** Every entry strictly precedes every later entry. */
  predicate LexSorted(p: seq<int>, s: seq<int>)
    requires InRange(p, |s|)
  {
    forall a, b | 0 <= a < b < |p| :: LexBefore(s, p[a], p[b])
  }

  /** A stable ascending sort of the dimension indices by stride: every index
      appears, and entries are strictly ordered by `LexBefore` (so none
      appears twice). */
  predicate IsStableSort(p: seq<int>, s: seq<int>)
  {
    |p| == |s| && InRange(p, |s|) && (forall x | 0 <= x < |s| :: x in p) && LexSorted(p, s)
  }

  /** One step of the sort: index i moves back from the end of `order` past
      every entry whose stride is strictly larger than its own. */
  function InsertByStride(order: seq<int>, i: int, s: seq<int>): seq<int>
    requires 0 <= i < |s| && InRange(order, |s|)
  {
    if |order| > 0 && s[i] < s[order[|order| - 1]] then
      InsertByStride(order[..|order| - 1], i, s) + [order[|order| - 1]]
    else
      order + [i]
  }

  lemma {:induction false} InsertMembers(order: seq<int>, i: int, s: seq<int>)
    requires 0 <= i < |s| && InRange(order, i)
    ensures |InsertByStride(order, i, s)| == |order| + 1
    ensures InRange(InsertByStride(order, i, s), i + 1)
    ensures forall x :: x in InsertByStride(order, i, s) <==> x in order || x == i
  {
    if |order| > 0 && s[i] < s[order[|order| - 1]] {
      var init := order[..|order| - 1];
      InsertMembers(init, i, s);
      assert order == init + [order[|order| - 1]];
    }
  }

  /** The order after the first n insertions. */
  function StableOrder(s: seq<int>, n: nat): (p: seq<int>)
    requires n <= |s|
    ensures |p| == n && InRange(p, n)
  {
    if n == 0 then []
    else
      var prev := StableOrder(s, n - 1);
      InsertMembers(prev, n - 1, s);
      InsertByStride(prev, n - 1, s)
  }

  /** After n insertions every one of the first n indices is in the order. */
  lemma {:induction false} StableOrderHoldsAll(s: seq<int>, n: nat)
    requires n <= |s|
    ensures forall x | 0 <= x < n :: x in StableOrder(s, n)
  {
    if n > 0 {
      StableOrderHoldsAll(s, n - 1);
      InsertMembers(StableOrder(s, n - 1), n - 1, s);
    }
  }

  lemma LexBeforeTransitive(s: seq<int>, x: int, y: int, z: int)
    requires 0 <= x < |s| && 0 <= y < |s| && 0 <= z < |s|
    requires LexBefore(s, x, y) && LexBefore(s, y, z)
    ensures LexBefore(s, x, z)
  {
  }

  /** Inserting the largest index so far into a sorted order keeps it sorted. */
  lemma {:induction false} InsertSorted(order: seq<int>, i: int, s: seq<int>)
    requires 0 <= i < |s| && InRange(order, i) && LexSorted(order, s)
    ensures InRange(InsertByStride(order, i, s), |s|)
    ensures LexSorted(InsertByStride(order, i, s), s)
  {
    InsertMembers(order, i, s);
    if |order| > 0 && s[i] < s[order[|order| - 1]] {
      var init := order[..|order| - 1];
      var last := order[|order| - 1];
      InsertSorted(init, i, s);
      InsertMembers(init, i, s);
      var r0 := InsertByStride(init, i, s);
      forall a | 0 <= a < |r0|
        ensures LexBefore(s, r0[a], last)
      {
        assert r0[a] in r0;
        if r0[a] != i {
          var b :| 0 <= b < |init| && init[b] == r0[a];
          assert order[b] == r0[a];
        }
      }
    } else if |order| > 0 {
      var last := order[|order| - 1];
      assert LexBefore(s, last, i);
      forall a | 0 <= a < |order| - 1
        ensures LexBefore(s, order[a], i)
      {
        LexBeforeTransitive(s, order[a], last, i);
      }
    }
  }

  /** The insertion order is a stable ascending sort by stride. */
  lemma {:induction false} StableOrderSorts(s: seq<int>, n: nat)
    requires n <= |s|
    ensures LexSorted(StableOrder(s, n), s)
  {
    if n > 0 {
      StableOrderSorts(s, n - 1);
      InsertSorted(StableOrder(s, n - 1), n - 1, s);
    }
  }

  lemma StableOrderIsStableSort(s: seq<int>)
    ensures IsStableSort(StableOrder(s, |s|), s)
  {
    StableOrderSorts(s, |s|);
    StableOrderHoldsAll(s, |s|);
  }

  /** Two strictly sorted sequences with the same entries are the same sequence:
      there is only one stable sort of a list of strides. */
  lemma {:induction false} StableSortUnique(p: seq<int>, q: seq<int>, s: seq<int>)
    requires InRange(p, |s|) && InRange(q, |s|) && LexSorted(p, s) && LexSorted(q, s)
    requires forall x :: x in p <==> x in q
    ensures p == q
  {
    if |p| > 0 { assert p[0] in q; }
    if |q| > 0 { assert q[0] in p; }
    if |p| > 0 {
      if p[0] != q[0] {
        FirstIsLeast(p, s, q[0]);
        FirstIsLeast(q, s, p[0]);
        assert false;
      }
      forall x
        ensures x in p[1..] <==> x in q[1..]
      {
        if x in p[1..] {
          FirstIsLeast(p, s, x);
          assert x in q;
          var b :| 0 <= b < |q| && q[b] == x;
          assert q[1..][b - 1] == x;
        }
        if x in q[1..] {
          FirstIsLeast(q, s, x);
          assert x in p;
          var a :| 0 <= a < |p| && p[a] == x;
          assert p[1..][a - 1] == x;
        }
      }
      StableSortUnique(p[1..], q[1..], s);
      assert p == [p[0]] + p[1..];
      assert q == [q[0]] + q[1..];
    }
  }

  /** The first entry of a strictly sorted sequence precedes every other entry. */
  lemma FirstIsLeast(p: seq<int>, s: seq<int>, x: int)
    requires InRange(p, |s|) && LexSorted(p, s) && |p| > 0
    ensures x in p[1..] ==> LexBefore(s, p[0], x) && x != p[0]
    ensures x in p && x != p[0] ==> LexBefore(s, p[0], x)
  {
    if x in p && x != p[0] {
      var a :| 0 <= a < |p| && p[a] == x;
    }
    if x in p[1..] {
      var a :| 0 <= a < |p[1..]| && p[1..][a] == x;
      assert p[a + 1] == x;
    }
  }

  /** The insertion passes the last entry of a prefix while its stride is
      strictly larger. */
  lemma InsertShifts(prefix: seq<int>, i: int, s: seq<int>, j: nat)
    requires 0 <= i < |s| && InRange(prefix, |s|) && 0 < j <= |prefix|
    requires s[i] < s[prefix[j - 1]]
    ensures InsertByStride(prefix[..j], i, s) == InsertByStride(prefix[..j - 1], i, s) + [prefix[j - 1]]
  {
    assert prefix[..j][..j - 1] == prefix[..j - 1];
  }

  /** The insertion stops in front of the first entry whose stride is not larger. */
  lemma InsertStops(prefix: seq<int>, i: int, s: seq<int>, j: nat)
    requires 0 <= i < |s| && InRange(prefix, |s|) && j <= |prefix|
    requires j == 0 || s[i] >= s[prefix[j - 1]]
    ensures InsertByStride(prefix[..j], i, s) == prefix[..j] + [i]
  {
  }

  /** Where the inner loop stands: `a` holds the untouched entries `prefix[..j]`,
      a gap at j, and the shifted entries `prefix[j..i]` after it; what is
      left to do is the insertion into `prefix[..j]`. */
  ghost predicate Shifted(a: seq<int>, prefix: seq<int>, i: int, j: int, s: seq<int>)
  {
    && 0 <= j <= i < |a| && i < |s| && |prefix| == i && InRange(prefix, |s|)
    && (forall k | 0 <= k < j :: 0 <= a[k] < |s|)
    && a[..j] == prefix[..j] && a[j + 1..i + 1] == prefix[j..i]
    && InsertByStride(prefix, i, s) == InsertByStride(prefix[..j], i, s) + prefix[j..i]
  }

  /** Before the inner loop nothing has moved. */
  lemma ShiftStarts(a: seq<int>, i: int, s: seq<int>)
    requires 0 <= i < |a| && i < |s| && InRange(a[..i], i)
    ensures Shifted(a, a[..i], i, i, s)
  {
    var prefix := a[..i];
    assert prefix[..i] == prefix && prefix[i..i] == [];
    assert a[i + 1..i + 1] == [];
    forall k | 0 <= k < i
      ensures 0 <= a[k] < |s|
    {
      assert a[k] == prefix[k];
    }
  }

  /** Copying entry j - 1 up into slot j moves the gap down by one. */
  lemma ShiftAdvances(a: seq<int>, prefix: seq<int>, i: int, j: int, s: seq<int>)
    requires Shifted(a, prefix, i, j, s) && j > 0 && s[i] < s[a[j - 1]]
    ensures Shifted(a[j := a[j - 1]], prefix, i, j - 1, s)
  {
    var b := a[j := a[j - 1]];
    assert a[j - 1] == prefix[j - 1] by {
      assert a[..j][j - 1] == prefix[..j][j - 1];
    }
    InsertShifts(prefix, i, s, j);
    assert prefix[j - 1..i] == [prefix[j - 1]] + prefix[j..i];
    assert b[..j - 1] == a[..j - 1] == prefix[..j - 1];
    assert b[j..i + 1] == [a[j - 1]] + a[j + 1..i + 1];
  }

  /** Writing i into the gap completes the insertion. */
  lemma ShiftEnds(a: seq<int>, prefix: seq<int>, i: int, j: int, s: seq<int>)
    requires Shifted(a, prefix, i, j, s) && (j == 0 || s[i] >= s[a[j - 1]])
    ensures a[j := i][..i + 1] == InsertByStride(prefix, i, s)
  {
    if j > 0 {
      assert a[j - 1] == prefix[j - 1] by {
        assert a[..j][j - 1] == prefix[..j][j - 1];
      }
    }
    InsertStops(prefix, i, s, j);
    var b := a[j := i];
    assert b[..j] == a[..j];
    assert b[j + 1..i + 1] == a[j + 1..i + 1];
    assert b[..i + 1] == b[..j] + [b[j]] + b[j + 1..i + 1];
  }

  /** One pass of the constructor's inner loop: entries of `p[..i]` with a
      strictly larger stride than dimension i move up by one, and i is written
      into the gap. */
  method InsertIndex(p: array<int>, i: int, s: seq<int>)
    requires 0 <= i < p.Length && i < |s| && InRange(p[..i], i)
    modifies p
    ensures p[..i + 1] == InsertByStride(old(p[..i]), i, s)
    ensures p[i + 1..] == old(p[i + 1..])
  {
    ghost var prefix := p[..i];
    ShiftStarts(p[..], i, s);
    var j := i;
    while j > 0 && s[i] < s[p[j - 1]]
      invariant Shifted(p[..], prefix, i, j, s)
      invariant p[i + 1..] == old(p[i + 1..])
    {
      ShiftAdvances(p[..], prefix, i, j, s);
      p[j] := p[j - 1];
      j := j - 1;
    }
    ShiftEnds(p[..], prefix, i, j, s);
    p[j] := i;
  }

  /** The sort as the constructor runs it: an array of max(rank, 1) entries,
      each new index shifted back past strictly larger strides. */
  method SortByStride(s: seq<int>) returns (order: seq<int>)
    ensures order == StableOrder(s, |s|)
  {
    var n := |s|;
    var p := new int[if n == 0 then 1 else n];
    var i := 0;
    while i < n
      invariant 0 <= i <= n
      invariant p[..i] == StableOrder(s, i)
    {
      InsertIndex(p, i, s);
      i := i + 1;
    }
    order := p[..n];
  }
}

/** The shape of a multidimensional view: an ordered list of dimensions, each
    either fixed in the type (a static extent) or supplied when the object is
    built (a dynamic extent). Both implementations in the repository store the
    shape as a chain of levels, one per template argument; `Extents` below is
    that chain, read from the first level to the last. */
module Extents {

  import opened Outcomes

  /** The template argument that marks a dimension as supplied at run time. */
  const DynamicExtent: int := -1

  /** One level of the chain. A static level carries its compile-time size, a
      dynamic level the value it holds; `n` is the size either way. */
  datatype Dim = Static(n: int) | Dynamic(n: int)

  /** A static level never carries the marker value: that template argument
      denotes a dynamic dimension. */
  type Extents = e: seq<Dim> | forall k | 0 <= k < |e| :: e[k].Static? ==> e[k].n != DynamicExtent

  /** The template argument list an extents object was instantiated with. */
  function PackOf(e: Extents): seq<int>
  {
    seq(|e|, k requires 0 <= k < |e| => if e[k].Static? then e[k].n else DynamicExtent)
  }

  /** `rank_dynamic()`: each dynamic level adds one on the way down the chain. */
  function RankDynamic(pack: seq<int>): (r: nat)
    ensures r <= |pack|
  {
    if |pack| == 0 then 0
    else (if pack[0] == DynamicExtent then 1 else 0) + RankDynamic(pack[1..])
  }

  /** The count of dynamic dimensions adds up over a concatenation. */
  lemma {:induction false} RankDynamicAppend(a: seq<int>, b: seq<int>)
    ensures RankDynamic(a + b) == RankDynamic(a) + RankDynamic(b)
  {
    if |a| > 0 {
      assert (a + b)[0] == a[0] && (a + b)[1..] == a[1..] + b;
      RankDynamicAppend(a[1..], b);
    } else {
      assert a + b == b;
    }
  }

  /** `rank_dynamic()` is the number of template arguments equal to the marker. */
  lemma {:induction false} RankDynamicCounts(pack: seq<int>)
    ensures RankDynamic(pack) == multiset(pack)[DynamicExtent]
  {
    if |pack| > 0 {
      assert pack == [pack[0]] + pack[1..];
      RankDynamicCounts(pack[1..]);
    }
  }

  /** The number of dynamic dimensions before dimension k: the position of
      dimension k's run-time value among the constructor arguments. */
  function DynamicIndex(pack: seq<int>, k: nat): (j: nat)
    requires k < |pack|
    ensures pack[k] == DynamicExtent ==> j < RankDynamic(pack)
  {
    assert pack == pack[..k] + pack[k..];
    RankDynamicAppend(pack[..k], pack[k..]);
    RankDynamic(pack[..k])
  }

  // ---------------------------------------------------------------------------
  // Lookups. The chain in `bits/extents.hpp` numbers its levels R = rank()
  // down to 1 and answers `extent(k)` by asking for level rank() - k; the
  // helper in `mdspan_helper.hpp` numbers them from 0 and asks the next level
  // for k - 1. Past the last level both answer 1.
  // ---------------------------------------------------------------------------

  /** `extents_analyse<R, ...>::static_extent(r)`. */
  function AnalyseStaticExtent(pack: seq<int>, r: int): (s: int)
    ensures s == if 1 <= r <= |pack| then pack[|pack| - r] else 1
  {
    if |pack| == 0 then 1
    else if r == |pack| then pack[0]
    else AnalyseStaticExtent(pack[1..], r)
  }

  /** `extents::static_extent(k)`: the k-th template argument, 1 past the rank. */
  function StaticExtent(pack: seq<int>, k: nat): (s: int)
    ensures s == if k < |pack| then pack[k] else 1
  {
    AnalyseStaticExtent(pack, |pack| - k)
  }

  /** `extents_analyse<R, ...>::extent(r)`. */
  function AnalyseExtent(e: Extents, r: int): (x: int)
    ensures x == if 1 <= r <= |e| then e[|e| - r].n else 1
  {
    if |e| == 0 then 1
    else if r == |e| then e[0].n
    else AnalyseExtent(e[1..], r)
  }

  /** `extents::extent(k)`: the size of dimension k, 1 past the rank. */
  function Extent(e: Extents, k: nat): (x: int)
    ensures x == if k < |e| then e[k].n else 1
  {
    AnalyseExtent(e, |e| - k)
  }

  /** `extents_helper::static_extent(k)`: the older chain agrees with `StaticExtent`. */
  function HelperStaticExtent(pack: seq<int>, k: nat): (s: int)
    ensures s == StaticExtent(pack, k)
  {
    if |pack| == 0 then 1
    else if k == 0 then pack[0]
    else HelperStaticExtent(pack[1..], k - 1)
  }

  /** `extents_helper::extent(k)`: the older chain agrees with `Extent`. */
  function HelperExtent(e: Extents, k: nat): (x: int)
    ensures x == Extent(e, k)
  {
    if |e| == 0 then 1
    else if k == 0 then e[0].n
    else HelperExtent(e[1..], k - 1)
  }

  // ---------------------------------------------------------------------------
  // Construction
  // ---------------------------------------------------------------------------

  /** The variadic constructor: every dynamic level takes the next run-time
      value in order, static levels take none. The caller passes exactly
      `rank_dynamic()` values (a static assertion). */
  function FromDynamicValues(pack: seq<int>, values: seq<int>): (e: Extents)
    requires |values| == RankDynamic(pack)
    ensures PackOf(e) == pack
  {
    if |pack| == 0 then []
    else
      var rest := if pack[0] == DynamicExtent then values[1..] else values;
      var level := if pack[0] == DynamicExtent then Dynamic(values[0]) else Static(pack[0]);
      [level] + FromDynamicValues(pack[1..], rest)
  }

  /** Dimension k of a freshly built object: its static size, or the run-time
      value whose position is the number of dynamic dimensions before it. */
  lemma {:induction false} FromDynamicValuesAt(pack: seq<int>, values: seq<int>, k: nat)
    requires |values| == RankDynamic(pack) && k < |pack|
    ensures FromDynamicValues(pack, values)[k].n ==
      if pack[k] == DynamicExtent then values[DynamicIndex(pack, k)] else pack[k]
  {
    if k > 0 {
      var rest := if pack[0] == DynamicExtent then values[1..] else values;
      FromDynamicValuesAt(pack[1..], rest, k - 1);
      assert pack[..k] == [pack[0]] + pack[1..][..k - 1];
    }
  }

  /** The constructor from an array of `rank_dynamic()` values: level by level,
      a dynamic level takes `de[r]` and hands `r + 1` on. It builds the same
      object as the variadic constructor fed with the values from `r` on. */
  function FromArray(pack: seq<int>, de: seq<int>, r: nat): (e: Extents)
    requires r + RankDynamic(pack) <= |de|
    ensures e == FromDynamicValues(pack, de[r..r + RankDynamic(pack)])
  {
    if |pack| == 0 then []
    else if pack[0] == DynamicExtent then
      var n := RankDynamic(pack[1..]);
      var values := de[r..r + n + 1];
      assert values[0] == de[r] && values[1..] == de[r + 1..r + 1 + n];
      [Dynamic(de[r])] + FromArray(pack[1..], de, r + 1)
    else
      [Static(pack[0])] + FromArray(pack[1..], de, r)
  }

  /** The default constructor: every dynamic level holds 0. */
  function DefaultExtents(pack: seq<int>): (e: Extents)
    ensures PackOf(e) == pack
    ensures forall k | 0 <= k < |pack| :: e[k].n == if pack[k] == DynamicExtent then 0 else pack[k]
  {
    if |pack| == 0 then []
    else [if pack[0] == DynamicExtent then Dynamic(0) else Static(pack[0])] + DefaultExtents(pack[1..])
  }

  /** Building from a concatenated pack and value list concatenates the results. */
  lemma {:induction false} FromDynamicValuesAppend(p1: seq<int>, v1: seq<int>, p2: seq<int>, v2: seq<int>)
    requires |v1| == RankDynamic(p1) && |v2| == RankDynamic(p2)
    ensures RankDynamic(p1 + p2) == |v1 + v2|
    ensures FromDynamicValues(p1 + p2, v1 + v2) == FromDynamicValues(p1, v1) + FromDynamicValues(p2, v2)
  {
    RankDynamicAppend(p1, p2);
    if |p1| == 0 {
      assert p1 + p2 == p2 && v1 + v2 == v2;
    } else {
      var dynamic := p1[0] == DynamicExtent;
      var rest := if dynamic then v1[1..] else v1;
      assert (p1 + p2)[0] == p1[0] && (p1 + p2)[1..] == p1[1..] + p2;
      assert (if dynamic then (v1 + v2)[1..] else v1 + v2) == rest + v2;
      var head := if dynamic then Dynamic(v1[0]) else Static(p1[0]);
      assert dynamic ==> (v1 + v2)[0] == v1[0];
      FromDynamicValuesAppend(p1[1..], rest, p2, v2);
      var x, y := FromDynamicValues(p1[1..], rest), FromDynamicValues(p2, v2);
      assert FromDynamicValues(p1, v1) == [head] + x;
      assert FromDynamicValues(p1 + p2, v1 + v2) == [head] + (x + y);
      assert [head] + (x + y) == ([head] + x) + y;
    }
  }

  /** With no dynamic dimension the default constructor and the variadic
      constructor without arguments build the same object. */
  lemma {:induction false} DefaultIsFromNoValues(pack: seq<int>)
    requires RankDynamic(pack) == 0
    ensures DefaultExtents(pack) == FromDynamicValues(pack, [])
  {
    if |pack| > 0 {
      DefaultIsFromNoValues(pack[1..]);
    }
  }

  /** The run-time values an extents object holds, in order. */
  function DynamicValues(e: Extents): (values: seq<int>)
    ensures |values| == RankDynamic(PackOf(e))
  {
    if |e| == 0 then []
    else
      assert PackOf(e) == [PackOf(e)[0]] + PackOf(e[1..]);
      (if e[0].Dynamic? then [e[0].n] else []) + DynamicValues(e[1..])
  }

  /** Building from an object's own pack and run-time values gives it back. */
  lemma {:induction false} FromOwnValues(e: Extents)
    ensures FromDynamicValues(PackOf(e), DynamicValues(e)) == e
  {
    if |e| > 0 {
      var pack, values := PackOf(e), DynamicValues(e);
      assert pack[1..] == PackOf(e[1..]);
      var rest := if pack[0] == DynamicExtent then values[1..] else values;
      assert rest == DynamicValues(e[1..]);
      FromOwnValues(e[1..]);
      assert e == [e[0]] + e[1..];
    }
  }

  /** Reading back the run-time values of a freshly built object gives the
      values it was built from. */
  lemma {:induction false} ValuesRoundTrip(pack: seq<int>, values: seq<int>)
    requires |values| == RankDynamic(pack)
    ensures DynamicValues(FromDynamicValues(pack, values)) == values
  {
    if |pack| > 0 {
      var rest := if pack[0] == DynamicExtent then values[1..] else values;
      ValuesRoundTrip(pack[1..], rest);
      var e := FromDynamicValues(pack, values);
      assert e[1..] == FromDynamicValues(pack[1..], rest);
      if pack[0] == DynamicExtent {
        assert values == [values[0]] + values[1..];
      }
    }
  }

  // ---------------------------------------------------------------------------
  // Conversion and assignment between extents of the same rank
  // ---------------------------------------------------------------------------

  /** The converting constructor and converting assignment of `bits/extents.hpp`
      (and the converting constructor of the helper chain): a dynamic level
      copies `rhs.extent(R)` from the matching level of the other object; a
      static level keeps its compile-time size and checks nothing. */
  function Convert(pack: seq<int>, other: Extents): (e: Extents)
    requires |pack| == |other|
    ensures PackOf(e) == pack
    ensures forall k | 0 <= k < |pack| ::
      e[k].n == if pack[k] == DynamicExtent then other[k].n else pack[k]
  {
    if |pack| == 0 then []
    else
      var level := if pack[0] == DynamicExtent then Dynamic(AnalyseExtent(other, |other|)) else Static(pack[0]);
      [level] + Convert(pack[1..], other[1..])
  }

  /** Two objects of the same rank whose static sizes agree with each other's values. */
  predicate Compatible(pack: seq<int>, other: Extents)
  {
    |pack| == |other| && forall k | 0 <= k < |pack| :: pack[k] != DynamicExtent ==> pack[k] == other[k].n
  }

  /** Two objects describe the same shape: equal rank, equal size in every dimension. */
  predicate SameExtents(a: Extents, b: Extents)
  {
    |a| == |b| && forall k | 0 <= k < |a| :: a[k].n == b[k].n
  }

  /** Converting between compatible shapes keeps every extent; converting
      between incompatible ones keeps the static sizes of the target. */
  lemma ConvertKeepsShape(pack: seq<int>, other: Extents)
    requires |pack| == |other|
    ensures Compatible(pack, other) <==> SameExtents(Convert(pack, other), other)
  {
    var e := Convert(pack, other);
    if SameExtents(e, other) {
      forall k | 0 <= k < |pack| && pack[k] != DynamicExtent
        ensures pack[k] == other[k].n
      {
        assert e[k].n == pack[k];
      }
    }
  }

  lemma CompatibleCons(pack: seq<int>, other: Extents)
    requires |pack| == |other| > 0
    ensures Compatible(pack, other) <==>
      (pack[0] != DynamicExtent ==> pack[0] == other[0].n) && Compatible(pack[1..], other[1..])
  {
    if (pack[0] != DynamicExtent ==> pack[0] == other[0].n) && Compatible(pack[1..], other[1..]) {
      forall k | 0 <= k < |pack| && pack[k] != DynamicExtent
        ensures pack[k] == other[k].n
      {
        if k > 0 {
          assert pack[1..][k - 1] == pack[k];
        }
      }
    }
  }

  lemma SameExtentsCons(a: Extents, b: Extents)
    requires |a| == |b| > 0
    ensures SameExtents(a, b) <==> a[0].n == b[0].n && SameExtents(a[1..], b[1..])
  {
    if a[0].n == b[0].n && SameExtents(a[1..], b[1..]) {
      forall k | 0 <= k < |a|
        ensures a[k].n == b[k].n
      {
        if k > 0 {
          assert a[1..][k - 1] == a[k];
        }
      }
    }
  }

  /** The helper chain's assignment: a dynamic level takes the other's value, a
      static level is assigned a level built from the other's value and asserts
      that the two sizes are equal. */
  function HelperAssign(self: Extents, other: Extents): (r: Checked<Extents>)
    requires |self| == |other|
    ensures r.Ok? <==> Compatible(PackOf(self), other)
    ensures r.Ok? ==> PackOf(r.value) == PackOf(self) && SameExtents(r.value, other)
  {
    if |self| == 0 then Ok([])
    else
      assert PackOf(self) == [PackOf(self)[0]] + PackOf(self[1..]);
      CompatibleCons(PackOf(self), other);
      match HelperAssign(self[1..], other[1..])
      case AssertionFailed => AssertionFailed
      case Ok(rest) => AssignLevel(self, other, rest)
  }

  /** One level of `HelperAssign`, once the levels below have been assigned. */
  function AssignLevel(self: Extents, other: Extents, rest: Extents): (r: Checked<Extents>)
    requires |self| == |other| > 0
    requires PackOf(rest) == PackOf(self[1..]) && SameExtents(rest, other[1..])
    ensures r.Ok? <==> (self[0].Static? ==> self[0].n == other[0].n)
    ensures r.Ok? ==> PackOf(r.value) == PackOf(self) && SameExtents(r.value, other)
  {
    var level := if self[0].Dynamic? then Dynamic(other[0].n) else self[0];
    var e := [level] + rest;
    assert e[1..] == rest;
    assert PackOf(e) == [PackOf(e)[0]] + PackOf(rest);
    assert PackOf(self) == [PackOf(self)[0]] + PackOf(self[1..]);
    SameExtentsCons(e, other);
    if level.n == other[0].n then Ok(e) else AssertionFailed
  }

  // ---------------------------------------------------------------------------
  // Equality
  // ---------------------------------------------------------------------------

  /** `operator==` of `bits/extents.hpp`: ranks first, then every extent in turn. */
  method Equal(lhs: Extents, rhs: Extents) returns (equal: bool)
    ensures equal <==> SameExtents(lhs, rhs)
  {
    equal := |lhs| == |rhs|;
    var r := 0;
    while r < |lhs|
      invariant 0 <= r <= |lhs|
      invariant equal <==> |lhs| == |rhs| && forall k | 0 <= k < r :: lhs[k].n == rhs[k].n
    {
      equal := equal && Extent(lhs, r) == Extent(rhs, r);
      r := r + 1;
    }
  }

  /** `operator!=`: the negation of `operator==`. */
  method NotEqual(lhs: Extents, rhs: Extents) returns (differ: bool)
    ensures differ <==> !SameExtents(lhs, rhs)
  {
    var equal := Equal(lhs, rhs);
    differ := !equal;
  }

  /** `extents_helper::equal`: level by level down two chains of the same rank. */
  function HelperEqual(a: Extents, b: Extents): (r: bool)
    requires |a| == |b|
    ensures r <==> SameExtents(a, b)
  {
    if |a| == 0 then true
    else
      assert forall k | 1 <= k < |a| :: a[k] == a[1..][k - 1] && b[k] == b[1..][k - 1];
      a[0].n == b[0].n && HelperEqual(a[1..], b[1..])
  }

  /** The older `operator==`: equal ranks, then the helper comparison. The
      helper chain's end only compares with its own type, so `==` compiles
      only for equal ranks. */
  function OlderEqual(a: Extents, b: Extents): (r: bool)
    requires |a| == |b|
    ensures r <==> SameExtents(a, b)
  {
    |a| == |b| && HelperEqual(a, b)
  }

  // ---------------------------------------------------------------------------
  // Products of extents (the older chain's `product(i, j)`)
  // ---------------------------------------------------------------------------

  /** Level `level` of the helper chain contributes its size when
      `i <= level < j`, otherwise 1; the end of the chain contributes 1. */
  function HelperProduct(e: Extents, level: nat, i: nat, j: nat): int
  {
    if |e| == 0 then 1
    else (if i <= level < j then e[0].n else 1) * HelperProduct(e[1..], level + 1, i, j)
  }

  /** `extents::product(i, j)`: the product of the extents of dimensions i to j - 1. */
  function Product(e: Extents, i: nat, j: nat): int
  {
    HelperProduct(e, 0, i, j)
  }

  /** The plain definition of a product of extents over a range of dimensions. */
  function RangeProduct(e: Extents, i: nat, j: nat): int
    decreases |e| - i
  {
    if i < j && i < |e| then e[i].n * RangeProduct(e, i + 1, j) else 1
  }

  lemma {:induction false} HelperProductFrom(e: Extents, s: nat, i: nat, j: nat)
    requires s <= |e|
    ensures HelperProduct(e[s..], s, i, j) == RangeProduct(e, if i < s then s else i, j)
    decreases |e| - s
  {
    if s < |e| {
      assert e[s..][1..] == e[s + 1..];
      HelperProductFrom(e, s + 1, i, j);
    }
  }

  /** The helper chain computes the range product. */
  lemma ProductIsRangeProduct(e: Extents, i: nat, j: nat)
    ensures Product(e, i, j) == RangeProduct(e, i, j)
  {
    HelperProductFrom(e, 0, i, j);
    assert e[0..] == e;
  }

  /** An empty range has product 1. */
  lemma ProductEmpty(e: Extents, i: nat, j: nat)
    requires j <= i || |e| <= i
    ensures Product(e, i, j) == 1
  {
    ProductIsRangeProduct(e, i, j);
  }

  /** Peeling the first dimension of a non-empty range. */
  lemma ProductStep(e: Extents, i: nat, j: nat)
    requires i < j && i < |e|
    ensures Product(e, i, j) == e[i].n * Product(e, i + 1, j)
  {
    ProductIsRangeProduct(e, i, j);
    ProductIsRangeProduct(e, i + 1, j);
  }

  /** Extending a range by one dimension multiplies by that extent (1 past the rank). */
  lemma {:induction false} ProductExtend(e: Extents, i: nat, j: nat)
    requires i <= j
    ensures Product(e, i, j + 1) == Product(e, i, j) * Extent(e, j)
    decreases j - i
  {
    if i == j {
      if i < |e| {
        ProductStep(e, i, i + 1);
        ProductEmpty(e, i + 1, i + 1);
      } else {
        ProductEmpty(e, i, i + 1);
      }
      ProductEmpty(e, i, j);
    } else if i < |e| {
      ProductStep(e, i, j + 1);
      ProductStep(e, i, j);
      ProductExtend(e, i + 1, j);
    } else {
      ProductEmpty(e, i, j + 1);
      ProductEmpty(e, i, j);
    }
  }

  /** A product over `[i, j)` splits at any `k` in between. */
  lemma {:induction false} ProductSplit(e: Extents, i: nat, k: nat, j: nat)
    requires i <= k <= j
    ensures Product(e, i, j) == Product(e, i, k) * Product(e, k, j)
    decreases k - i
  {
    if i == k {
      ProductEmpty(e, i, k);
    } else if i < |e| {
      ProductStep(e, i, j);
      ProductStep(e, i, k);
      ProductSplit(e, i + 1, k, j);
    } else {
      ProductEmpty(e, i, j);
      ProductEmpty(e, i, k);
      ProductEmpty(e, k, j);
    }
  }

  /** A product of non-negative extents is non-negative. */
  lemma {:induction false} ProductNonNegative(e: Extents, i: nat, j: nat)
    requires forall k | 0 <= k < |e| :: e[k].n >= 0
    ensures Product(e, i, j) >= 0
    decreases |e| - i
  {
    if i < j && i < |e| {
      ProductStep(e, i, j);
      ProductNonNegative(e, i + 1, j);
    } else {
      ProductEmpty(e, i, j);
    }
  }
}

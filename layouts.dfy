/** Layout mappings: how a multi-index is turned into an offset into the
    underlying storage. `layout_right` is row-major (last index fastest),
    `layout_left` column-major (first index fastest), `layout_stride` uses an
    explicit stride per dimension, and the older `layout_none` is the identity
    for rank 0 or 1. A mapping is a value: it is built once and never
    modified. */
module Layouts {

  import opened Extents
  import opened StrideOrder
  import Accessors

  datatype LayoutKind = LayoutNone | LayoutRight | LayoutLeft | LayoutStride

  datatype Mapping =
    | NoneMapping(ext: Extents)
    | RightMapping(ext: Extents)
    | LeftMapping(ext: Extents)
    | StrideMapping(ext: Extents, strides: seq<int>, contiguous: bool)

  function KindOf(m: Mapping): LayoutKind
  {
    match m
    case NoneMapping(_) => LayoutNone
    case RightMapping(_) => LayoutRight
    case LeftMapping(_) => LayoutLeft
    case StrideMapping(_, _, _) => LayoutStride
  }

  /** What construction guarantees: `layout_none` only exists for rank 0 or 1
      (a static assertion), a stride mapping holds one stride per dimension
      and the contiguity flag its constructor computed. */
  predicate Valid(m: Mapping)
  {
    match m
    case NoneMapping(e) => |e| <= 1
    case StrideMapping(e, s, c) => |s| == |e| && c == IsContiguousStrides(e, s)
    case _ => true
  }

  // ---------------------------------------------------------------------------
  // Construction
  // ---------------------------------------------------------------------------

  /** `mapping(const Extents&)` of the right, left and none layouts. */
  function MappingOf(kind: LayoutKind, e: Extents): (m: Mapping)
    requires kind != LayoutStride
    requires kind == LayoutNone ==> |e| <= 1
    ensures Valid(m) && KindOf(m) == kind && m.ext == e
  {
    match kind
    case LayoutNone => NoneMapping(e)
    case LayoutRight => RightMapping(e)
    case LayoutLeft => LeftMapping(e)
  }

  /** The older `mapping(DynamicExtents...)`: the extents are built from the
      run-time values, then wrapped. */
  function MappingFromValues(kind: LayoutKind, pack: seq<int>, values: seq<int>): (m: Mapping)
    requires kind != LayoutStride && |values| == RankDynamic(pack)
    requires kind == LayoutNone ==> |pack| <= 1
    ensures Valid(m) && KindOf(m) == kind && PackOf(m.ext) == pack
    ensures forall k | 0 <= k < |pack| && pack[k] == DynamicExtent :: m.ext[k].n == values[DynamicIndex(pack, k)]
  {
    var e := FromDynamicValues(pack, values);
    forall k | 0 <= k < |pack|
      ensures e[k].n == if pack[k] == DynamicExtent then values[DynamicIndex(pack, k)] else pack[k]
    {
      FromDynamicValuesAt(pack, values, k);
    }
    MappingOf(kind, e)
  }

  /** Adjacent dimensions of `order` chain: each stride is the previous stride
      times the previous extent (checked for the first n entries). */
  predicate StrideChain(e: Extents, s: seq<int>, order: seq<int>, n: nat)
    requires |s| == |e| && InRange(order, |s|) && n <= |order|
  {
    forall i | 1 <= i < n :: s[order[i]] == s[order[i - 1]] * Extent(e, order[i - 1])
  }

  /** The stride constructor's contiguity flag: the chain holds along the
      stable ascending order of the strides. */
  predicate IsContiguousStrides(e: Extents, s: seq<int>)
    requires |s| == |e|
  {
    StrideChain(e, s, StableOrder(s, |s|), |s|)
  }

  /** The flag does not depend on how the strides were sorted, as long as the
      sort is stable. */
  lemma ContiguityOfAnyStableSort(e: Extents, s: seq<int>, order: seq<int>)
    requires |s| == |e| && IsStableSort(order, s)
    ensures IsContiguousStrides(e, s) <==> StrideChain(e, s, order, |s|)
  {
    var p := StableOrder(s, |s|);
    StableOrderIsStableSort(s);
    forall x
      ensures x in p <==> x in order
    {
      if x in p {
        var a :| 0 <= a < |p| && p[a] == x;
      }
      if x in order {
        var a :| 0 <= a < |order| && order[a] == x;
      }
    }
    StableSortUnique(p, order, s);
  }

  /** `layout_stride::mapping(ext, str)`: store extents and strides, sort the
      dimension indices by stride, then clear the contiguity flag wherever a
      stride is not the product of the previous stride and extent. */
  method NewStrideMapping(e: Extents, s: seq<int>) returns (m: Mapping)
    requires |s| == |e|
    ensures Valid(m) && m.StrideMapping? && m.ext == e && m.strides == s
    ensures m.contiguous <==> IsContiguousStrides(e, s)
  {
    var p := SortByStride(s);
    var contig := true;
    var i := 1;
    while i < |s|
      invariant 1 <= i <= |s| || (i == 1 && |s| <= 1)
      invariant contig <==> StrideChain(e, s, p, if i <= |s| then i else |s|)
    {
      var j := p[i - 1];
      var k := p[i];
      var prev := s[j] * Extent(e, j);
      if s[k] != prev {
        contig := false;
      }
      i := i + 1;
    }
    m := StrideMapping(e, s, contig);
  }

  // ---------------------------------------------------------------------------
  // Offsets
  // ---------------------------------------------------------------------------

  /** `layout_right::offset(r, sum, i, rest...)`: Horner's rule, the running
      sum multiplied by extent r before index i is added. */
  function RightOffset(e: Extents, r: nat, sum: int, idx: seq<int>): int
    decreases |idx|
  {
    if |idx| == 0 then sum else RightOffset(e, r + 1, sum * Extent(e, r) + idx[0], idx[1..])
  }

  /** `layout_left::offset(r, i, rest...)`: `i + extent(r) * (offset of the rest)`. */
  function LeftOffset(e: Extents, r: nat, idx: seq<int>): int
    decreases |idx|
  {
    if |idx| == 0 then 0 else idx[0] + Extent(e, r) * LeftOffset(e, r + 1, idx[1..])
  }

  /** `layout_stride::offset(K, i, rest...)`: `i * stride[K]` plus the rest. */
  function StrideOffset(s: seq<int>, k: nat, idx: seq<int>): int
    requires k + |idx| <= |s|
    decreases |idx|
  {
    if |idx| == 0 then 0 else idx[0] * s[k] + StrideOffset(s, k + 1, idx[1..])
  }

  /** `operator()(indices...)`: one index per dimension. */
  function Offset(m: Mapping, idx: seq<int>): int
    requires Valid(m) && |idx| == |m.ext|
  {
    match m
    case NoneMapping(_) => if |idx| == 0 then 0 else idx[0]
    case RightMapping(e) => RightOffset(e, 0, 0, idx)
    case LeftMapping(e) => LeftOffset(e, 0, idx)
    case StrideMapping(_, s, _) => StrideOffset(s, 0, idx)
  }

  // ---------------------------------------------------------------------------
  // Strides
  // ---------------------------------------------------------------------------

  /** `stride(r)` as the older layouts state it: 1 for `layout_none`, the
      product of the extents after r (right) or before r (left), the stored
      stride (stride layout). */
  function Stride(m: Mapping, r: nat): int
    requires Valid(m) && (m.StrideMapping? ==> r < |m.ext|)
  {
    match m
    case NoneMapping(_) => 1
    case RightMapping(e) => Product(e, r + 1, |e|)
    case LeftMapping(e) => Product(e, 0, r)
    case StrideMapping(_, s, _) => s[r]
  }

  /** The strides of all dimensions, in order. */
  function Strides(m: Mapping): (s: seq<int>)
    requires Valid(m)
    ensures |s| == |m.ext| && forall r | 0 <= r < |s| :: s[r] == Stride(m, r)
  {
    seq(|m.ext|, r requires 0 <= r < |m.ext| => Stride(m, r))
  }

  /** `stride(R)` as the newer layouts compute it: layout_right multiplies the
      extents from the last dimension down to R + 1, layout_left those from 0
      up to R - 1. */
  method ComputeStride(m: Mapping, r: nat) returns (stride: int)
    requires Valid(m) && (m.StrideMapping? ==> r < |m.ext|)
    ensures stride == Stride(m, r)
  {
    match m
    case NoneMapping(_) =>
      stride := 1;
    case StrideMapping(_, s, _) =>
      stride := s[r];
    case RightMapping(e) =>
      stride := 1;
      ProductEmpty(e, |e|, |e|);
      var q := |e| - 1;
      while q > r
        invariant r <= q < |e| || q == |e| - 1
        invariant stride == Product(e, q + 1, |e|)
      {
        ProductStep(e, q, |e|);
        stride := stride * Extent(e, q);
        q := q - 1;
      }
      if q < r {
        ProductEmpty(e, r + 1, |e|);
      }
    case LeftMapping(e) =>
      stride := 1;
      ProductEmpty(e, 0, 0);
      var q := 0;
      while q < r
        invariant 0 <= q <= r
        invariant stride == Product(e, 0, q)
      {
        ProductExtend(e, 0, q);
        stride := stride * Extent(e, q);
        q := q + 1;
      }
  }

  /** The flags. `is_strided()` is justified by `OffsetIsStrided`; for the
      right, left and none layouts `is_unique()` by `DenseOffsetInjective` and
      `is_contiguous()` by `OffsetWithinSpan` with `DenseOffsetOnto`. The stride
      layout's `is_unique()` answers true whatever its strides. */
  function IsAlwaysUnique(k: LayoutKind): bool { true }
  function IsAlwaysContiguous(k: LayoutKind): bool { k != LayoutStride }
  function IsAlwaysStrided(k: LayoutKind): bool { true }
  function IsUnique(m: Mapping): bool { true }
  function IsStrided(m: Mapping): bool { true }
  function IsContiguous(m: Mapping): bool
  {
    if m.StrideMapping? then m.contiguous else true
  }

  // ---------------------------------------------------------------------------
  // Every offset is the dot product of the index with the strides
  // ---------------------------------------------------------------------------

  function Dot(a: seq<int>, b: seq<int>): int
    requires |a| == |b|
  {
    if |a| == 0 then 0 else a[0] * b[0] + Dot(a[1..], b[1..])
  }

  lemma {:induction false} DotAppend(a1: seq<int>, a2: seq<int>, b1: seq<int>, b2: seq<int>)
    requires |a1| == |b1| && |a2| == |b2|
    ensures Dot(a1 + a2, b1 + b2) == Dot(a1, b1) + Dot(a2, b2)
  {
    if |a1| == 0 {
      assert a1 + a2 == a2 && b1 + b2 == b2;
    } else {
      assert (a1 + a2)[1..] == a1[1..] + a2 && (b1 + b2)[1..] == b1[1..] + b2;
      DotAppend(a1[1..], a2, b1[1..], b2);
    }
  }

  function Scale(c: int, b: seq<int>): (r: seq<int>)
    ensures |r| == |b| && forall t | 0 <= t < |b| :: r[t] == c * b[t]
  {
    seq(|b|, t requires 0 <= t < |b| => c * b[t])
  }

  lemma {:induction false} DotScale(c: int, a: seq<int>, b: seq<int>)
    requires |a| == |b|
    ensures c * Dot(a, b) == Dot(a, Scale(c, b))
  {
    if |a| > 0 {
      DotScale(c, a[1..], b[1..]);
      assert Scale(c, b)[1..] == Scale(c, b[1..]);
      calc {
        c * Dot(a, b);
        c * (a[0] * b[0]) + c * Dot(a[1..], b[1..]);
        a[0] * (c * b[0]) + Dot(a[1..], Scale(c, b[1..]));
      }
    }
  }

  /** The weights layout_right's Horner rule gives indices r, r+1, ...: the
      product of the extents after each. */
  function RightWeights(e: Extents, r: nat, n: nat): seq<int>
  {
    seq(n, t requires 0 <= t < n => Product(e, r + t + 1, |e|))
  }

  /** The weights layout_left gives indices r, r+1, ...: the product of the
      extents from r up to each. */
  function LeftWeights(e: Extents, r: nat, n: nat): seq<int>
  {
    seq(n, t requires 0 <= t < n => Product(e, r, r + t))
  }

  lemma {:induction false} RightOffsetClosedForm(e: Extents, r: nat, sum: int, idx: seq<int>)
    requires r + |idx| == |e|
    ensures RightOffset(e, r, sum, idx) == sum * Product(e, r, |e|) + Dot(idx, RightWeights(e, r, |idx|))
    decreases |idx|
  {
    if |idx| == 0 {
      ProductEmpty(e, r, |e|);
    } else {
      var n := |idx|;
      var N := Extent(e, r);
      var P := Product(e, r + 1, |e|);
      RightOffsetClosedForm(e, r + 1, sum * N + idx[0], idx[1..]);
      ProductStep(e, r, |e|);
      assert RightWeights(e, r, n)[1..] == RightWeights(e, r + 1, n - 1);
      calc {
        (sum * N + idx[0]) * P;
        sum * (N * P) + idx[0] * P;
      }
    }
  }

  lemma {:induction false} LeftOffsetClosedForm(e: Extents, r: nat, idx: seq<int>)
    requires r + |idx| == |e|
    ensures LeftOffset(e, r, idx) == Dot(idx, LeftWeights(e, r, |idx|))
    decreases |idx|
  {
    if |idx| > 0 {
      var n := |idx|;
      var N := Extent(e, r);
      LeftOffsetClosedForm(e, r + 1, idx[1..]);
      DotScale(N, idx[1..], LeftWeights(e, r + 1, n - 1));
      forall t | 0 <= t < n - 1
        ensures LeftWeights(e, r, n)[1..][t] == N * LeftWeights(e, r + 1, n - 1)[t]
      {
        ProductStep(e, r, r + t + 1);
      }
      assert LeftWeights(e, r, n)[1..] == Scale(N, LeftWeights(e, r + 1, n - 1));
      ProductEmpty(e, r, r);
    }
  }

  lemma {:induction false} StrideOffsetIsDot(s: seq<int>, k: nat, idx: seq<int>)
    requires k + |idx| <= |s|
    ensures StrideOffset(s, k, idx) == Dot(idx, s[k..k + |idx|])
    decreases |idx|
  {
    if |idx| > 0 {
      StrideOffsetIsDot(s, k + 1, idx[1..]);
      assert s[k..k + |idx|][1..] == s[k + 1..k + 1 + |idx[1..]|];
    }
  }

  /** Every layout is strided: the offset of an index is the sum of each index
      times the stride `stride(r)` reports for its dimension. */
  lemma OffsetIsStrided(m: Mapping, idx: seq<int>)
    requires Valid(m) && |idx| == |m.ext|
    ensures Offset(m, idx) == Dot(idx, Strides(m))
  {
    match m
    case NoneMapping(_) =>
      if |idx| == 1 {
        assert Dot(idx, Strides(m)) == idx[0] * 1 + Dot([], []);
      }
    case RightMapping(e) =>
      RightOffsetClosedForm(e, 0, 0, idx);
      assert RightWeights(e, 0, |e|) == Strides(m);
    case LeftMapping(e) =>
      LeftOffsetClosedForm(e, 0, idx);
      assert LeftWeights(e, 0, |e|) == Strides(m);
    case StrideMapping(_, s, _) =>
      StrideOffsetIsDot(s, 0, idx);
      assert s[0..|idx|] == s == Strides(m);
  }

  // ---------------------------------------------------------------------------
  // Required span
  // ---------------------------------------------------------------------------

  /** The largest index in every dimension. */
  function LastIndex(e: Extents): (idx: seq<int>)
    ensures |idx| == |e| && forall k | 0 <= k < |e| :: idx[k] == e[k].n - 1
  {
    seq(|e|, k requires 0 <= k < |e| => e[k].n - 1)
  }

  /** An index inside the extents in every dimension. */
  predicate InBounds(e: Extents, idx: seq<int>)
  {
    |idx| == |e| && forall k | 0 <= k < |e| :: 0 <= idx[k] < e[k].n
  }

  /** The stride layout's sum `Σ stride[r] * (extent(r) - 1)`. */
  function StrideSpanSum(e: Extents, s: seq<int>): int
    requires |s| == |e|
  {
    Dot(LastIndex(e), s)
  }

  /** `required_span_size()`: the extent of the only dimension (none), the
      product of all extents (right, left), the stride layout's sum. */
  function RequiredSpanSize(m: Mapping): int
    requires Valid(m)
  {
    match m
    case NoneMapping(e) => Extent(e, 0)
    case RightMapping(e) => Product(e, 0, |e|)
    case LeftMapping(e) => Product(e, 0, |e|)
    case StrideMapping(e, s, _) => StrideSpanSum(e, s)
  }

  lemma TelescopeStep(p: int, x: int)
    ensures (p - 1) + (x - 1) * p == p * x - 1
  {
  }

  lemma DotSnoc(a: seq<int>, b: seq<int>, i: nat)
    requires |a| == |b| && i < |a|
    ensures Dot(a[..i + 1], b[..i + 1]) == Dot(a[..i], b[..i]) + a[i] * b[i]
  {
    assert a[..i + 1] == a[..i] + [a[i]] && b[..i + 1] == b[..i] + [b[i]];
    DotAppend(a[..i], [a[i]], b[..i], [b[i]]);
  }

  /** `required_span_size()` of the newer right and left layouts: the running
      product of the extents. */
  method DenseRequiredSpanSize(e: Extents) returns (size: int)
    ensures size == Product(e, 0, |e|)
  {
    size := 1;
    ProductEmpty(e, 0, 0);
    var r := 0;
    while r < |e|
      invariant 0 <= r <= |e|
      invariant size == Product(e, 0, r)
    {
      ProductExtend(e, 0, r);
      size := size * Extent(e, r);
      r := r + 1;
    }
  }

  /** `required_span_size()` of the stride layout: the running sum of
      `stride[i] * (extent(i) - 1)`. */
  method StrideRequiredSpanSize(e: Extents, s: seq<int>) returns (size: int)
    requires |s| == |e|
    ensures size == StrideSpanSum(e, s)
  {
    size := 0;
    var i := 0;
    while i < |e|
      invariant 0 <= i <= |e|
      invariant size == Dot(LastIndex(e)[..i], s[..i])
    {
      DotSnoc(LastIndex(e), s, i);
      size := size + s[i] * (Extent(e, i) - 1);
      i := i + 1;
    }
    assert LastIndex(e)[..i] == LastIndex(e) && s[..i] == s;
  }

  /** `required_span_size()` of any mapping. */
  method ComputeRequiredSpanSize(m: Mapping) returns (size: int)
    requires Valid(m)
    ensures size == RequiredSpanSize(m)
  {
    match m
    case NoneMapping(e) =>
      size := Extent(e, 0);
    case RightMapping(e) =>
      size := DenseRequiredSpanSize(e);
    case LeftMapping(e) =>
      size := DenseRequiredSpanSize(e);
    case StrideMapping(e, s, _) =>
      size := StrideRequiredSpanSize(e, s);
  }

  lemma {:induction false} DotBounds(idx: seq<int>, hi: seq<int>, s: seq<int>)
    requires |idx| == |hi| == |s|
    requires forall k | 0 <= k < |s| :: 0 <= idx[k] <= hi[k] && s[k] >= 0
    ensures 0 <= Dot(idx, s) <= Dot(hi, s)
  {
    if |s| > 0 {
      DotBounds(idx[1..], hi[1..], s[1..]);
      assert 0 <= idx[0] * s[0] <= hi[0] * s[0];
    }
  }

  /** Σ (extent(r) - 1) * product of the later extents telescopes to the
      product of all extents minus one. */
  lemma {:induction false} RightSpanTelescopes(e: Extents, r: nat)
    requires r <= |e|
    ensures Dot(LastIndex(e)[r..], RightWeights(e, r, |e| - r)) == Product(e, r, |e|) - 1
    decreases |e| - r
  {
    if r == |e| {
      ProductEmpty(e, r, |e|);
    } else {
      RightSpanTelescopes(e, r + 1);
      assert LastIndex(e)[r..][1..] == LastIndex(e)[r + 1..];
      assert RightWeights(e, r, |e| - r)[1..] == RightWeights(e, r + 1, |e| - r - 1);
      ProductStep(e, r, |e|);
    }
  }

  /** The same telescoping for layout_left, over a growing prefix. */
  lemma {:induction false} LeftSpanTelescopes(e: Extents, n: nat)
    requires n <= |e|
    ensures Dot(LastIndex(e)[..n], LeftWeights(e, 0, n)) == Product(e, 0, n) - 1
  {
    if n == 0 {
      ProductEmpty(e, 0, 0);
    } else {
      var last, w, w' := LastIndex(e), LeftWeights(e, 0, n), LeftWeights(e, 0, n - 1);
      var b := w + last[n..];
      assert b[..n] == w;
      assert b[..n - 1] == w' by {
        assert w[..n - 1] == w';
      }
      LeftSpanTelescopes(e, n - 1);
      DotSnoc(last, b, n - 1);
      ProductExtend(e, 0, n - 1);
      TelescopeStep(Product(e, 0, n - 1), Extent(e, n - 1));
    }
  }

  /** The strides of the right and left layouts are non-negative when the
      extents are, and the largest index lands on `required_span_size() - 1`. */
  lemma DenseStridesFacts(m: Mapping)
    requires Valid(m) && !m.StrideMapping?
    requires forall k | 0 <= k < |m.ext| :: m.ext[k].n >= 0
    ensures forall r | 0 <= r < |m.ext| :: Stride(m, r) >= 0
    ensures Dot(LastIndex(m.ext), Strides(m)) == RequiredSpanSize(m) - 1
  {
    var e := m.ext;
    forall r | 0 <= r < |e|
      ensures Stride(m, r) >= 0
    {
      ProductNonNegative(e, r + 1, |e|);
      ProductNonNegative(e, 0, r);
    }
    match m
    case NoneMapping(_) =>
      if |e| == 1 {
        assert Dot(LastIndex(e), Strides(m)) == (e[0].n - 1) * 1 + Dot([], []);
      }
    case RightMapping(_) =>
      RightSpanTelescopes(e, 0);
      assert RightWeights(e, 0, |e|) == Strides(m);
      assert LastIndex(e)[0..] == LastIndex(e);
    case LeftMapping(_) =>
      LeftSpanTelescopes(e, |e|);
      assert LeftWeights(e, 0, |e|) == Strides(m);
      assert LastIndex(e)[..|e|] == LastIndex(e);
  }

  /** Right, left and none: every in-bounds index maps into `[0, required_span_size())`. */
  lemma OffsetWithinSpan(m: Mapping, idx: seq<int>)
    requires Valid(m) && !m.StrideMapping? && InBounds(m.ext, idx)
    ensures 0 <= Offset(m, idx) < RequiredSpanSize(m)
  {
    DenseStridesFacts(m);
    OffsetIsStrided(m, idx);
    DotBounds(idx, LastIndex(m.ext), Strides(m));
  }

  /** Right, left and none: when no extent is zero, the largest index maps to
      the last position of the span, `required_span_size() - 1`. */
  lemma LastElementEndsSpan(m: Mapping)
    requires Valid(m) && !m.StrideMapping?
    requires forall k | 0 <= k < |m.ext| :: m.ext[k].n >= 1
    ensures Offset(m, LastIndex(m.ext)) == RequiredSpanSize(m) - 1
  {
    DenseStridesFacts(m);
    OffsetIsStrided(m, LastIndex(m.ext));
  }

  // ---------------------------------------------------------------------------
  // The stride layout's required span
  //
  // As written, `Σ stride[r] * (extent(r) - 1)` is the offset of the largest
  // index, one short of the number of positions the mapping reaches. The
  // corrected size adds one, and is zero when some extent is zero (no index is
  // in bounds then).
  // ---------------------------------------------------------------------------

  /** As written: with no zero extent, the largest in-bounds index is mapped to
      an offset equal to `required_span_size()`, one past a buffer of that size. */
  lemma StrideSpanMissesLastElement(e: Extents, s: seq<int>)
    requires |s| == |e| && forall k | 0 <= k < |e| :: e[k].n >= 1
    ensures InBounds(e, LastIndex(e))
    ensures var m := StrideMapping(e, s, IsContiguousStrides(e, s));
      Offset(m, LastIndex(e)) == RequiredSpanSize(m)
  {
    var m := StrideMapping(e, s, IsContiguousStrides(e, s));
    OffsetIsStrided(m, LastIndex(e));
    assert Strides(m) == s;
  }

  /** As written, for a single dimension of extent 5 and stride 1: the span is
      reported as 4 while index 4 is mapped to offset 4. */
  lemma StrideSpanCounterexample()
    ensures var m := StrideMapping([Static(5)], [1], IsContiguousStrides([Static(5)], [1]));
      InBounds(m.ext, [4]) && RequiredSpanSize(m) == 4 && Offset(m, [4]) == 4
  {
    var m := StrideMapping([Static(5)], [1], IsContiguousStrides([Static(5)], [1]));
    assert LastIndex(m.ext) == [4];
    assert Dot([4], [1]) == 4 * 1 + Dot([], []);
  }

  predicate HasEmptyDimension(e: Extents)
  {
    exists k | 0 <= k < |e| :: e[k].n == 0
  }

  /** The corrected required span of a stride mapping: one past the offset of
      the largest index, or zero when some extent is zero. */
  function CorrectedStrideSpanSize(e: Extents, s: seq<int>): int
    requires |s| == |e|
  {
    if HasEmptyDimension(e) then 0 else StrideSpanSum(e, s) + 1
  }

  /** The number of storage positions a mapping needs: `required_span_size()`
      for the right, left and none layouts, the corrected size for the stride
      layout. */
  function SpanSize(m: Mapping): int
    requires Valid(m)
  {
    if m.StrideMapping? then CorrectedStrideSpanSize(m.ext, m.strides) else RequiredSpanSize(m)
  }

  /** With non-negative strides every in-bounds index maps into `[0, SpanSize(m))`,
      for every layout. */
  lemma OffsetWithinSpanSize(m: Mapping, idx: seq<int>)
    requires Valid(m) && InBounds(m.ext, idx)
    requires forall r | 0 <= r < |m.ext| :: Stride(m, r) >= 0
    ensures 0 <= Offset(m, idx) < SpanSize(m)
  {
    if m.StrideMapping? {
      var e := m.ext;
      forall k | 0 <= k < |e|
        ensures e[k].n != 0
      {
        assert 0 <= idx[k] < e[k].n;
      }
      OffsetIsStrided(m, idx);
      assert Strides(m) == m.strides;
      DotBounds(idx, LastIndex(e), m.strides);
    } else {
      OffsetWithinSpan(m, idx);
    }
  }

  /** With no zero extent the largest index maps to `SpanSize(m) - 1`: the
      corrected size is the smallest one that holds every element. */
  lemma SpanSizeIsTight(m: Mapping)
    requires Valid(m) && forall k | 0 <= k < |m.ext| :: m.ext[k].n >= 1
    ensures InBounds(m.ext, LastIndex(m.ext))
    ensures Offset(m, LastIndex(m.ext)) == SpanSize(m) - 1
  {
    if m.StrideMapping? {
      OffsetIsStrided(m, LastIndex(m.ext));
      assert Strides(m) == m.strides;
      assert !HasEmptyDimension(m.ext);
    } else {
      LastElementEndsSpan(m);
    }
  }

  /** A product with a zero factor in its range is zero. */
  lemma ProductWithZero(e: Extents, k: nat)
    requires k < |e| && e[k].n == 0
    ensures Product(e, 0, |e|) == 0
  {
    ProductSplit(e, 0, k, |e|);
    ProductStep(e, k, |e|);
  }

  /** Given the strides of the right or left layout, the corrected stride span
      equals that layout's own `required_span_size()`. */
  lemma CorrectedSpanMatchesDenseLayouts(m: Mapping)
    requires (m.RightMapping? || m.LeftMapping?)
    requires forall k | 0 <= k < |m.ext| :: m.ext[k].n >= 0
    ensures CorrectedStrideSpanSize(m.ext, Strides(m)) == RequiredSpanSize(m)
  {
    var e := m.ext;
    if HasEmptyDimension(e) {
      var k :| 0 <= k < |e| && e[k].n == 0;
      ProductWithZero(e, k);
    } else {
      DenseStridesFacts(m);
    }
  }

  // ---------------------------------------------------------------------------
  // Uniqueness and contiguity of the right, left and none layouts
  //
  // Each index is a digit in a mixed-radix number whose radices are the
  // extents: distinct in-bounds indices give distinct offsets, and every
  // position below `required_span_size()` is the offset of one of them.
  // ---------------------------------------------------------------------------

  /** The indices of `idx`, standing for dimensions r, r + 1, ..., lie inside
      the extents. */
  predicate InBoundsFrom(e: Extents, r: nat, idx: seq<int>)
  {
    r + |idx| == |e| && forall k | 0 <= k < |idx| :: 0 <= idx[k] < e[r + k].n
  }

  /** A digit below n and the rest: `a + n * x` determines both. */
  lemma DigitUnique(a: int, x: int, b: int, y: int, n: int)
    requires 0 <= a < n && 0 <= b < n && a + n * x == b + n * y
    ensures a == b && x == y
  {
    assert n * (x - y) == b - a;
    if x - y >= 1 { Accessors.MulAtLeast(n, x - y); }
    if y - x >= 1 { Accessors.MulAtLeast(n, y - x); }
  }

  /** A quotient by n of a number below `n * q` is below q. */
  lemma QuotientBelow(p: int, n: int, q: int)
    requires n > 0 && 0 <= p < n * q
    ensures 0 <= p / n < q
  {
  }

  /** The nested left form over the least significant digit `p % n`. */
  lemma LeftDigit(p: int, n: int)
    requires n > 0
    ensures p % n + n * (p / n) == p
  {
  }

  /** One Horner step over the leading digit `p / w` and the rest `p % w`. */
  lemma HornerDigit(sum: int, n: int, w: int, p: int)
    requires w > 0
    ensures (sum * n + p / w) * w + p % w == sum * (n * w) + p
  {
    var d := p / w;
    assert p == w * d + p % w;
    calc {
      (sum * n + d) * w;
      sum * n * w + d * w;
      sum * (n * w) + w * d;
    }
  }

  lemma {:induction false} ProductPositive(e: Extents, i: nat)
    requires i <= |e| && forall k | i <= k < |e| :: e[k].n >= 1
    ensures Product(e, i, |e|) >= 1
    decreases |e| - i
  {
    if i == |e| {
      ProductEmpty(e, i, |e|);
    } else {
      ProductPositive(e, i + 1);
      ProductStep(e, i, |e|);
      assert e[i].n * Product(e, i + 1, |e|) >= 1 * Product(e, i + 1, |e|);
    }
  }

  /** Horner's rule separates the running sum and every index it folds in. */
  lemma {:induction false} RightOffsetInjective(e: Extents, r: nat, sa: int, a: seq<int>, sb: int, b: seq<int>)
    requires InBoundsFrom(e, r, a) && InBoundsFrom(e, r, b)
    requires RightOffset(e, r, sa, a) == RightOffset(e, r, sb, b)
    ensures sa == sb && a == b
    decreases |a|
  {
    if |a| > 0 {
      var n := Extent(e, r);
      assert InBoundsFrom(e, r + 1, a[1..]) by {
        forall k | 0 <= k < |a| - 1 ensures 0 <= a[1..][k] < e[r + 1 + k].n {
          assert a[1..][k] == a[k + 1];
        }
      }
      assert InBoundsFrom(e, r + 1, b[1..]) by {
        forall k | 0 <= k < |b| - 1 ensures 0 <= b[1..][k] < e[r + 1 + k].n {
          assert b[1..][k] == b[k + 1];
        }
      }
      RightOffsetInjective(e, r + 1, sa * n + a[0], a[1..], sb * n + b[0], b[1..]);
      DigitUnique(a[0], sa, b[0], sb, n);
      assert a == [a[0]] + a[1..] && b == [b[0]] + b[1..];
    }
  }

  /** The nested form `i + extent(r) * rest` separates every index. */
  lemma {:induction false} LeftOffsetInjective(e: Extents, r: nat, a: seq<int>, b: seq<int>)
    requires InBoundsFrom(e, r, a) && InBoundsFrom(e, r, b)
    requires LeftOffset(e, r, a) == LeftOffset(e, r, b)
    ensures a == b
    decreases |a|
  {
    if |a| > 0 {
      assert InBoundsFrom(e, r + 1, a[1..]) by {
        forall k | 0 <= k < |a| - 1 ensures 0 <= a[1..][k] < e[r + 1 + k].n {
          assert a[1..][k] == a[k + 1];
        }
      }
      assert InBoundsFrom(e, r + 1, b[1..]) by {
        forall k | 0 <= k < |b| - 1 ensures 0 <= b[1..][k] < e[r + 1 + k].n {
          assert b[1..][k] == b[k + 1];
        }
      }
      DigitUnique(a[0], LeftOffset(e, r + 1, a[1..]), b[0], LeftOffset(e, r + 1, b[1..]), Extent(e, r));
      LeftOffsetInjective(e, r + 1, a[1..], b[1..]);
      assert a == [a[0]] + a[1..] && b == [b[0]] + b[1..];
    }
  }

  /** `is_unique()` of the right, left and none layouts: distinct in-bounds
      indices are mapped to distinct offsets. */
  lemma DenseOffsetInjective(m: Mapping, i: seq<int>, j: seq<int>)
    requires Valid(m) && !m.StrideMapping? && InBounds(m.ext, i) && InBounds(m.ext, j)
    requires Offset(m, i) == Offset(m, j)
    ensures i == j
  {
    match m
    case NoneMapping(e) =>
      if |i| == 1 {
        assert i == [i[0]] && j == [j[0]];
      }
    case RightMapping(e) =>
      RightOffsetInjective(e, 0, 0, i, 0, j);
    case LeftMapping(e) =>
      LeftOffsetInjective(e, 0, i, j);
  }

  /** The index layout_left maps to position p: the digits of p, the first
      dimension's digit least significant. */
  function LeftIndexOf(e: Extents, r: nat, p: int): (idx: seq<int>)
    requires r <= |e| && forall k | r <= k < |e| :: e[k].n >= 1
    ensures |idx| == |e| - r
    decreases |e| - r
  {
    if r == |e| then [] else [p % e[r].n] + LeftIndexOf(e, r + 1, p / e[r].n)
  }

  /** The index layout_right maps to position p: the digits of p, the last
      dimension's digit least significant. */
  function RightIndexOf(e: Extents, r: nat, p: int): (idx: seq<int>)
    requires r <= |e| && forall k | r <= k < |e| :: e[k].n >= 1
    ensures |idx| == |e| - r
    decreases |e| - r
  {
    if r == |e| then []
    else
      ProductPositive(e, r + 1);
      var w := Product(e, r + 1, |e|);
      [p / w] + RightIndexOf(e, r + 1, p % w)
  }

  lemma {:induction false} LeftIndexOfReaches(e: Extents, r: nat, p: int)
    requires r <= |e| && forall k | r <= k < |e| :: e[k].n >= 1
    requires 0 <= p < Product(e, r, |e|)
    ensures InBoundsFrom(e, r, LeftIndexOf(e, r, p))
    ensures LeftOffset(e, r, LeftIndexOf(e, r, p)) == p
    decreases |e| - r
  {
    if r == |e| {
      ProductEmpty(e, r, |e|);
    } else {
      var n := e[r].n;
      ProductStep(e, r, |e|);
      QuotientBelow(p, n, Product(e, r + 1, |e|));
      var q := p / n;
      LeftIndexOfReaches(e, r + 1, q);
      var idx := LeftIndexOf(e, r, p);
      assert idx[0] == p % n && idx[1..] == LeftIndexOf(e, r + 1, q);
      assert LeftOffset(e, r, idx) == p % n + n * LeftOffset(e, r + 1, idx[1..]);
      LeftDigit(p, n);
    }
  }

  lemma {:induction false} RightIndexOfReaches(e: Extents, r: nat, sum: int, p: int)
    requires r <= |e| && forall k | r <= k < |e| :: e[k].n >= 1
    requires 0 <= p < Product(e, r, |e|)
    ensures InBoundsFrom(e, r, RightIndexOf(e, r, p))
    ensures RightOffset(e, r, sum, RightIndexOf(e, r, p)) == sum * Product(e, r, |e|) + p
    decreases |e| - r
  {
    if r == |e| {
      ProductEmpty(e, r, |e|);
    } else {
      var n := e[r].n;
      ProductPositive(e, r + 1);
      var w := Product(e, r + 1, |e|);
      ProductStep(e, r, |e|);
      assert w * n == n * w;
      QuotientBelow(p, w, n);
      var d := p / w;
      RightIndexOfReaches(e, r + 1, sum * n + d, p % w);
      var idx := RightIndexOf(e, r, p);
      assert idx[0] == d && idx[1..] == RightIndexOf(e, r + 1, p % w);
      HornerDigit(sum, n, w, p);
    }
  }

  /** Contiguity of the right, left and none layouts: every position of
      `[0, required_span_size())` is the offset of an in-bounds index. */
  lemma DenseOffsetOnto(m: Mapping, p: int)
    requires Valid(m) && !m.StrideMapping?
    requires forall k | 0 <= k < |m.ext| :: m.ext[k].n >= 0
    requires 0 <= p < RequiredSpanSize(m)
    ensures exists idx :: InBounds(m.ext, idx) && Offset(m, idx) == p
  {
    var e := m.ext;
    if HasEmptyDimension(e) && !m.NoneMapping? {
      var k :| 0 <= k < |e| && e[k].n == 0;
      ProductWithZero(e, k);
      assert false;
    }
    match m
    case NoneMapping(_) =>
      if |e| == 0 {
        assert InBounds(e, []) && Offset(m, []) == p;
      } else {
        assert InBounds(e, [p]) && Offset(m, [p]) == p;
      }
    case RightMapping(_) =>
      RightIndexOfReaches(e, 0, 0, p);
      var idx := RightIndexOf(e, 0, p);
      assert InBounds(e, idx) && Offset(m, idx) == p;
    case LeftMapping(_) =>
      LeftIndexOfReaches(e, 0, p);
      var idx := LeftIndexOf(e, 0, p);
      assert InBounds(e, idx) && Offset(m, idx) == p;
  }
}

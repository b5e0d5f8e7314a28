/** The shapes the repository's own tests check, worked through the model:
    extents `<5, dynamic, 3, dynamic, 1>` built from `(4, 2)`, its right and
    left mappings, and the subspan `(2, {1, 3}, all, all, 0)` of a view over
    it. Each lemma evaluates the model's functions on these inputs. */
module Scenarios {

  import opened Outcomes
  import opened Extents
  import opened Layouts
  import opened StrideOrder
  import opened Subspans

  const TestPack: seq<int> := [5, DynamicExtent, 3, DynamicExtent, 1]
  const TestExtents: Extents := [Static(5), Dynamic(4), Static(3), Dynamic(2), Static(1)]

  /** `extents<5, dynamic_extent, 3, dynamic_extent, 1>(4, 2)`: rank 5, two
      dynamic dimensions, extents `(5, 4, 3, 2, 1)`. */
  lemma ConstructionScenario()
    ensures RankDynamic(TestPack) == 2
    ensures FromDynamicValues(TestPack, [4, 2]) == TestExtents
  {
    assert RankDynamic([1]) == 0 by { assert [1][1..] == []; }
    assert RankDynamic([-1, 1]) == 1 by { assert [-1, 1][1..] == [1]; }
    assert RankDynamic([3, -1, 1]) == 1 by { assert [3, -1, 1][1..] == [-1, 1]; }
    assert RankDynamic([-1, 3, -1, 1]) == 2 by { assert [-1, 3, -1, 1][1..] == [3, -1, 1]; }
    assert TestPack[1..] == [-1, 3, -1, 1];
    assert FromDynamicValues([1], []) == [Static(1)] by { assert [1][1..] == []; }
    assert FromDynamicValues([-1, 1], [2]) == [Dynamic(2), Static(1)] by {
      assert [-1, 1][1..] == [1] && [2][1..] == [];
    }
    assert FromDynamicValues([3, -1, 1], [2]) == [Static(3), Dynamic(2), Static(1)] by {
      assert [3, -1, 1][1..] == [-1, 1];
    }
    assert FromDynamicValues([-1, 3, -1, 1], [4, 2]) == TestExtents[1..] by {
      assert [-1, 3, -1, 1][1..] == [3, -1, 1] && [4, 2][1..] == [2];
    }
  }

  /** `extents<5, 4, 3>()`: no dynamic dimension, extents `(5, 4, 3)`. */
  lemma StaticOnlyScenario()
    ensures RankDynamic([5, 4, 3]) == 0
    ensures FromDynamicValues([5, 4, 3], []) == [Static(5), Static(4), Static(3)]
  {
    assert [5, 4, 3][1..] == [4, 3] && [4, 3][1..] == [3] && [3][1..] == [];
    assert RankDynamic([3]) == 0;
    assert RankDynamic([4, 3]) == 0;
    assert FromDynamicValues([3], []) == [Static(3)];
    assert FromDynamicValues([4, 3], []) == [Static(4), Static(3)];
  }

  /** The assignment test runs the converting assignment of the newer chain,
      which copies each dynamic level and checks nothing: assigning the test
      extents to `extents<5, 4, 3, 2, 1>` leaves `(5, 4, 3, 2, 1)`; five
      dynamic extents built from `(9, 8, 7, 6, 5)` hold `9 - r`, and after the
      assignment they hold the test extents. */
  lemma AssignmentScenario()
    ensures Convert([5, 4, 3, 2, 1], TestExtents) == [Static(5), Static(4), Static(3), Static(2), Static(1)]
    ensures RankDynamic(AllDynamic) == 5 && FromDynamicValues(AllDynamic, [9, 8, 7, 6, 5])
      == [Dynamic(9), Dynamic(8), Dynamic(7), Dynamic(6), Dynamic(5)]
    ensures Convert(AllDynamic, TestExtents) == [Dynamic(5), Dynamic(4), Dynamic(3), Dynamic(2), Dynamic(1)]
    ensures SameExtents(Convert([5, 4, 3, 2, 1], TestExtents), TestExtents)
    ensures SameExtents(Convert(AllDynamic, TestExtents), TestExtents)
  {
    ConvertIntoStaticScenario();
    AllDynamicConstructionScenario();
    ConvertIntoDynamicScenario();
  }

  const AllDynamic: seq<int> := [DynamicExtent, DynamicExtent, DynamicExtent, DynamicExtent, DynamicExtent]

  /** Static levels keep their own sizes, which here are the test extents. */
  lemma ConvertIntoStaticScenario()
    ensures Convert([5, 4, 3, 2, 1], TestExtents) == [Static(5), Static(4), Static(3), Static(2), Static(1)]
  {
    var e := Convert([5, 4, 3, 2, 1], TestExtents);
    assert PackOf(e) == [5, 4, 3, 2, 1];
    forall k | 0 <= k < 5
      ensures e[k] == Static(5 - k)
    {
      assert PackOf(e)[k] == 5 - k;
    }
  }

  /** Dynamic levels copy the other object's extents. */
  lemma ConvertIntoDynamicScenario()
    ensures Convert(AllDynamic, TestExtents) == [Dynamic(5), Dynamic(4), Dynamic(3), Dynamic(2), Dynamic(1)]
  {
    var e := Convert(AllDynamic, TestExtents);
    assert PackOf(e) == AllDynamic;
    forall k | 0 <= k < 5
      ensures e[k] == Dynamic(5 - k)
    {
      assert PackOf(e)[k] == DynamicExtent;
    }
  }

  /** `extents<dyn, dyn, dyn, dyn, dyn>(9, 8, 7, 6, 5)`, value by value from the back. */
  lemma AllDynamicConstructionScenario()
    ensures RankDynamic(AllDynamic) == 5 && FromDynamicValues(AllDynamic, [9, 8, 7, 6, 5])
      == [Dynamic(9), Dynamic(8), Dynamic(7), Dynamic(6), Dynamic(5)]
  {
    var p := AllDynamic;
    assert p[1..] == [-1, -1, -1, -1] && p[1..][1..] == [-1, -1, -1];
    assert p[1..][1..][1..] == [-1, -1] && p[1..][1..][1..][1..] == [-1] && [-1][1..] == [];
    assert RankDynamic([-1]) == 1;
    assert RankDynamic([-1, -1]) == 2;
    assert RankDynamic([-1, -1, -1]) == 3;
    assert RankDynamic([-1, -1, -1, -1]) == 4;
    assert FromDynamicValues([-1], [5]) == [Dynamic(5)] by { assert [5][1..] == []; }
    assert FromDynamicValues([-1, -1], [6, 5]) == [Dynamic(6), Dynamic(5)] by { assert [6, 5][1..] == [5]; }
    assert FromDynamicValues([-1, -1, -1], [7, 6, 5]) == [Dynamic(7), Dynamic(6), Dynamic(5)] by {
      assert [7, 6, 5][1..] == [6, 5];
    }
    assert FromDynamicValues([-1, -1, -1, -1], [8, 7, 6, 5]) == [Dynamic(8), Dynamic(7), Dynamic(6), Dynamic(5)] by {
      assert [8, 7, 6, 5][1..] == [7, 6, 5];
    }
    assert [9, 8, 7, 6, 5][1..] == [8, 7, 6, 5];
    assert RankDynamic(p) == 5;
  }

  /** The same test run through the helper chain's asserting assignment: into
      `extents<5, 4, 3, 2, 1>` the assertion holds and the extents stay
      `(5, 4, 3, 2, 1)`; into five dynamic extents every value is copied. */
  lemma HelperAssignmentScenario()
    ensures HelperAssign([Static(5), Static(4), Static(3), Static(2), Static(1)], TestExtents)
      == Ok([Static(5), Static(4), Static(3), Static(2), Static(1)])
    ensures HelperAssign([Dynamic(9), Dynamic(8), Dynamic(7), Dynamic(6), Dynamic(5)], TestExtents)
      == Ok([Dynamic(5), Dynamic(4), Dynamic(3), Dynamic(2), Dynamic(1)])
  {
    HelperAssignStaticScenario();
    HelperAssignDynamicScenario();
  }

  /** The static sizes agree with the run-time ones, so the assertion holds
      and the object keeps its sizes. */
  lemma HelperAssignStaticScenario()
    ensures HelperAssign([Static(5), Static(4), Static(3), Static(2), Static(1)], TestExtents)
      == Ok([Static(5), Static(4), Static(3), Static(2), Static(1)])
  {
    var e2: Extents := [Static(5), Static(4), Static(3), Static(2), Static(1)];
    assert Compatible(PackOf(e2), TestExtents) by {
      assert PackOf(e2) == [5, 4, 3, 2, 1];
    }
    var r := HelperAssign(e2, TestExtents).value;
    assert PackOf(r) == [5, 4, 3, 2, 1];
    assert r == e2 by {
      forall k | 0 <= k < 5 ensures r[k] == Static(5 - k) {
        assert PackOf(r)[k] == 5 - k;
      }
    }
  }

  /** Every dimension is dynamic, so every run-time size is copied. */
  lemma HelperAssignDynamicScenario()
    ensures HelperAssign([Dynamic(9), Dynamic(8), Dynamic(7), Dynamic(6), Dynamic(5)], TestExtents)
      == Ok([Dynamic(5), Dynamic(4), Dynamic(3), Dynamic(2), Dynamic(1)])
  {
    var e3: Extents := [Dynamic(9), Dynamic(8), Dynamic(7), Dynamic(6), Dynamic(5)];
    assert Compatible(PackOf(e3), TestExtents) by {
      assert PackOf(e3) == [-1, -1, -1, -1, -1];
    }
    var r := HelperAssign(e3, TestExtents).value;
    assert PackOf(r) == [-1, -1, -1, -1, -1] && SameExtents(r, TestExtents);
    assert r == [Dynamic(5), Dynamic(4), Dynamic(3), Dynamic(2), Dynamic(1)] by {
      forall k | 0 <= k < 5 ensures r[k] == Dynamic(TestExtents[k].n) {
        assert PackOf(r)[k] == -1;
      }
    }
  }

  /** The products of the test extents that the two dense mappings use. */
  lemma TestProducts()
    ensures Product(TestExtents, 1, 5) == 24 && Product(TestExtents, 2, 5) == 6
    ensures Product(TestExtents, 3, 5) == 2 && Product(TestExtents, 4, 5) == 1
    ensures Product(TestExtents, 5, 5) == 1 && Product(TestExtents, 0, 5) == 120
    ensures Product(TestExtents, 0, 0) == 1 && Product(TestExtents, 0, 1) == 5
    ensures Product(TestExtents, 0, 2) == 20 && Product(TestExtents, 0, 3) == 60
    ensures Product(TestExtents, 0, 4) == 120
  {
    var e := TestExtents;
    ProductEmpty(e, 5, 5);
    ProductStep(e, 4, 5);
    ProductStep(e, 3, 5);
    ProductStep(e, 2, 5);
    ProductStep(e, 1, 5);
    ProductStep(e, 0, 5);
    ProductEmpty(e, 0, 0);
    ProductExtend(e, 0, 0);
    ProductExtend(e, 0, 1);
    ProductExtend(e, 0, 2);
    ProductExtend(e, 0, 3);
  }

  /** `layout_right`: strides `(24, 6, 2, 1, 1)`; `(4, 1, 2, 1, 0)` maps to
      107 and the origin to 0; the span is 120 elements. */
  lemma RightLayoutScenario()
    ensures
      var m := RightMapping(TestExtents);
      && Strides(m) == [24, 6, 2, 1, 1]
      && Offset(m, [4, 1, 2, 1, 0]) == 107
      && Offset(m, [0, 0, 0, 0, 0]) == 0
      && RequiredSpanSize(m) == 120
  {
    TestProducts();
    RightOffsetsScenario();
  }

  /** The two offsets of the right mapping, folded from the front. */
  lemma RightOffsetsScenario()
    ensures Offset(RightMapping(TestExtents), [4, 1, 2, 1, 0]) == 107
    ensures Offset(RightMapping(TestExtents), [0, 0, 0, 0, 0]) == 0
  {
    var e := TestExtents;
    TestProducts();
    assert RightOffset(e, 4, 107, [0]) == 107 by { assert [0][1..] == []; }
    assert RightOffset(e, 3, 53, [1, 0]) == 107 by { assert [1, 0][1..] == [0]; }
    assert RightOffset(e, 2, 17, [2, 1, 0]) == 107 by { assert [2, 1, 0][1..] == [1, 0]; }
    assert RightOffset(e, 1, 4, [1, 2, 1, 0]) == 107 by { assert [1, 2, 1, 0][1..] == [2, 1, 0]; }
    assert RightOffset(e, 0, 0, [4, 1, 2, 1, 0]) == 107 by { assert [4, 1, 2, 1, 0][1..] == [1, 2, 1, 0]; }
    assert RightOffset(e, 4, 0, [0]) == 0 by { assert [0][1..] == []; }
    assert RightOffset(e, 3, 0, [0, 0]) == 0 by { assert [0, 0][1..] == [0]; }
    assert RightOffset(e, 2, 0, [0, 0, 0]) == 0 by { assert [0, 0, 0][1..] == [0, 0]; }
    assert RightOffset(e, 1, 0, [0, 0, 0, 0]) == 0 by { assert [0, 0, 0, 0][1..] == [0, 0, 0]; }
    assert RightOffset(e, 0, 0, [0, 0, 0, 0, 0]) == 0 by { assert [0, 0, 0, 0, 0][1..] == [0, 0, 0, 0]; }
  }

  /** `layout_left`: strides `(1, 5, 20, 60, 120)`; `(4, 1, 2, 1, 0)` maps to
      109 and the origin to 0. */
  lemma LeftLayoutScenario()
    ensures
      var m := LeftMapping(TestExtents);
      && Strides(m) == [1, 5, 20, 60, 120]
      && Offset(m, [4, 1, 2, 1, 0]) == 109
      && Offset(m, [0, 0, 0, 0, 0]) == 0
  {
    TestProducts();
    LeftOffsetsScenario();
  }

  /** The two offsets of the left mapping, folded from the back. */
  lemma LeftOffsetsScenario()
    ensures Offset(LeftMapping(TestExtents), [4, 1, 2, 1, 0]) == 109
    ensures Offset(LeftMapping(TestExtents), [0, 0, 0, 0, 0]) == 0
  {
    var e := TestExtents;
    TestProducts();
    assert LeftOffset(e, 5, []) == 0;
    assert LeftOffset(e, 4, [0]) == 0 by { assert [0][1..] == []; }
    assert LeftOffset(e, 3, [1, 0]) == 1 by { assert [1, 0][1..] == [0]; }
    assert LeftOffset(e, 2, [2, 1, 0]) == 5 by { assert [2, 1, 0][1..] == [1, 0]; }
    assert LeftOffset(e, 1, [1, 2, 1, 0]) == 21 by { assert [1, 2, 1, 0][1..] == [2, 1, 0]; }
    assert LeftOffset(e, 0, [4, 1, 2, 1, 0]) == 109 by { assert [4, 1, 2, 1, 0][1..] == [1, 2, 1, 0]; }
    assert LeftOffset(e, 4, [0]) == 0 by { assert [0][1..] == []; }
    assert LeftOffset(e, 3, [0, 0]) == 0 by { assert [0, 0][1..] == [0]; }
    assert LeftOffset(e, 2, [0, 0, 0]) == 0 by { assert [0, 0, 0][1..] == [0, 0]; }
    assert LeftOffset(e, 1, [0, 0, 0, 0]) == 0 by { assert [0, 0, 0, 0][1..] == [0, 0, 0]; }
    assert LeftOffset(e, 0, [0, 0, 0, 0, 0]) == 0 by { assert [0, 0, 0, 0, 0][1..] == [0, 0, 0, 0]; }
  }

  const TestSlices: seq<Slice> := [Index(2), Range(1, 3), All, All, Index(0)]

  /** The subspan's deduced extents: rank 3, template arguments
      `(dynamic, 3, dynamic)`, extents `(2, 3, 2)`. */
  lemma SubspanExtentsScenario()
    ensures SubPack(TestPack, TestSlices) == [DynamicExtent, 3, DynamicExtent]
    ensures SubExtents(TestExtents, TestSlices) == [Dynamic(2), Static(3), Dynamic(2)]
  {
    SubspanPackScenario();
    SubspanLevelsScenario();
    SubExtentsAreLevels(TestExtents, TestSlices);
  }

  /** The deduced template arguments, specifier by specifier from the back. */
  lemma SubspanPackScenario()
    ensures SubPack(TestPack, TestSlices) == [DynamicExtent, 3, DynamicExtent]
  {
    var p, sl := TestPack, TestSlices;
    assert sl[1..] == [Range(1, 3), All, All, Index(0)] && p[1..] == [-1, 3, -1, 1];
    assert sl[2..] == sl[1..][1..] == [All, All, Index(0)] && p[2..] == p[1..][1..] == [3, -1, 1];
    assert sl[3..] == sl[2..][1..] == [All, Index(0)] && p[3..] == p[2..][1..] == [-1, 1];
    assert sl[4..] == sl[3..][1..] == [Index(0)] && p[4..] == p[3..][1..] == [1];
    assert sl[5..] == sl[4..][1..] == [] && p[5..] == p[4..][1..] == [];
    assert SubPack(p[4..], sl[4..]) == [];
    assert SubPack(p[3..], sl[3..]) == [-1];
    assert SubPack(p[2..], sl[2..]) == [3, -1];
    assert SubPack(p[1..], sl[1..]) == [-1, 3, -1];
  }

  /** The new dimensions, specifier by specifier from the back. */
  lemma SubspanLevelsScenario()
    ensures SubLevels(TestExtents, TestSlices) == [Dynamic(2), Static(3), Dynamic(2)]
  {
    var e, sl := TestExtents, TestSlices;
    assert sl[1..] == [Range(1, 3), All, All, Index(0)];
    assert sl[2..] == sl[1..][1..] == [All, All, Index(0)];
    assert sl[3..] == sl[2..][1..] == [All, Index(0)];
    assert sl[4..] == sl[3..][1..] == [Index(0)];
    assert sl[5..] == sl[4..][1..] == [];
    assert e[1..] == [Dynamic(4), Static(3), Dynamic(2), Static(1)];
    assert e[2..] == e[1..][1..] == [Static(3), Dynamic(2), Static(1)];
    assert e[3..] == e[2..][1..] == [Dynamic(2), Static(1)];
    assert e[4..] == e[3..][1..] == [Static(1)];
    assert e[5..] == e[4..][1..] == [];
    assert SubLevels(e[4..], sl[4..]) == [];
    assert SubLevels(e[3..], sl[3..]) == [Dynamic(2)];
    assert SubLevels(e[2..], sl[2..]) == [Static(3), Dynamic(2)];
    assert SubLevels(e[1..], sl[1..]) == [Dynamic(2), Static(3), Dynamic(2)];
  }

  /** Over the right mapping the subspan keeps the source strides of
      dimensions 1 to 3 and starts `2 * 24 + 1 * 6` elements in. */
  lemma SubspanRightStridesScenario()
    ensures CompactStrides([24, 6, 2, 1, 1], TestSlices) == [6, 2, 1]
    ensures SubOffset([24, 6, 2, 1, 1], TestSlices) == 54
  {
    var sl, r := TestSlices, [24, 6, 2, 1, 1];
    assert sl[1..] == [Range(1, 3), All, All, Index(0)];
    assert sl[2..] == sl[1..][1..] && sl[3..] == sl[2..][1..] && sl[4..] == sl[3..][1..];
    assert r[1..] == [6, 2, 1, 1];
    assert r[2..] == r[1..][1..] && r[3..] == r[2..][1..] && r[4..] == r[3..][1..];
    assert CompactStrides(r[4..], sl[4..]) == [] && SubOffset(r[4..], sl[4..]) == 0;
    assert CompactStrides(r[3..], sl[3..]) == [1] && SubOffset(r[3..], sl[3..]) == 0;
    assert CompactStrides(r[2..], sl[2..]) == [2, 1] && SubOffset(r[2..], sl[2..]) == 0;
    assert CompactStrides(r[1..], sl[1..]) == [6, 2, 1] && SubOffset(r[1..], sl[1..]) == 6;
  }

  /** Over the left mapping the subspan's strides are `(5, 20, 60)` and it
      starts `2 * 1 + 1 * 5` elements in. */
  lemma SubspanLeftStridesScenario()
    ensures CompactStrides([1, 5, 20, 60, 120], TestSlices) == [5, 20, 60]
    ensures SubOffset([1, 5, 20, 60, 120], TestSlices) == 7
  {
    var sl, l := TestSlices, [1, 5, 20, 60, 120];
    assert sl[1..] == [Range(1, 3), All, All, Index(0)];
    assert sl[2..] == sl[1..][1..] && sl[3..] == sl[2..][1..] && sl[4..] == sl[3..][1..];
    assert l[1..] == [5, 20, 60, 120];
    assert l[2..] == l[1..][1..] && l[3..] == l[2..][1..] && l[4..] == l[3..][1..];
    assert CompactStrides(l[4..], sl[4..]) == [] && SubOffset(l[4..], sl[4..]) == 0;
    assert CompactStrides(l[3..], sl[3..]) == [60] && SubOffset(l[3..], sl[3..]) == 0;
    assert CompactStrides(l[2..], sl[2..]) == [20, 60] && SubOffset(l[2..], sl[2..]) == 0;
    assert CompactStrides(l[1..], sl[1..]) == [5, 20, 60] && SubOffset(l[1..], sl[1..]) == 5;
  }

  /** The subspan of the right mapping is contiguous: its strides `(6, 2, 1)`
      chain through the extents `(2, 3, 2)`. */
  lemma SubspanRightContiguousScenario()
    ensures IsContiguousStrides([Dynamic(2), Static(3), Dynamic(2)], [6, 2, 1])
  {
    var sub: Extents := [Dynamic(2), Static(3), Dynamic(2)];
    var s, order := [6, 2, 1], [2, 1, 0];
    assert 2 in order && 1 in order && 0 in order;
    assert LexBefore(s, 2, 1) && LexBefore(s, 1, 0) && LexBefore(s, 2, 0);
    assert IsStableSort(order, s);
    ContiguityOfAnyStableSort(sub, s, order);
  }

  /** The subspan of the left mapping is not contiguous: stride 20 of its
      second dimension is not `5 * 2`. */
  lemma SubspanLeftScatteredScenario()
    ensures !IsContiguousStrides([Dynamic(2), Static(3), Dynamic(2)], [5, 20, 60])
  {
    var sub: Extents := [Dynamic(2), Static(3), Dynamic(2)];
    var s, order := [5, 20, 60], [0, 1, 2];
    assert 2 in order && 1 in order && 0 in order;
    assert LexBefore(s, 0, 1) && LexBefore(s, 1, 2) && LexBefore(s, 0, 2);
    assert IsStableSort(order, s);
    ContiguityOfAnyStableSort(sub, s, order);
    assert s[order[1]] != s[order[0]] * Extent(sub, order[0]);
  }

  /** The stride constructor's scan on the right layout's strides
      `(24, 6, 2, 1, 1)` of `(5, 4, 3, 2, 1)` (see `RightLayoutScenario`): the
      unit strides of the last two dimensions tie, so dimension 3 is visited
      before dimension 4, and stride 1 is not `1 * 2`. The layout is dense,
      yet the flag is false. */
  lemma DenseTiedStridesScenario()
    ensures !IsContiguousStrides(TestExtents, [24, 6, 2, 1, 1])
  {
    var e := TestExtents;
    var s, order := [24, 6, 2, 1, 1], [3, 4, 2, 1, 0];
    TiedStridesOrder();
    ContiguityOfAnyStableSort(e, s, order);
    assert s[order[1]] != s[order[0]] * Extent(e, order[0]);
  }

  /** The stable order of the strides `(24, 6, 2, 1, 1)` is `(3, 4, 2, 1, 0)`. */
  lemma TiedStridesOrder()
    ensures IsStableSort([3, 4, 2, 1, 0], [24, 6, 2, 1, 1])
  {
    var s, order := [24, 6, 2, 1, 1], [3, 4, 2, 1, 0];
    assert 0 in order && 1 in order && 2 in order && 3 in order && 4 in order;
    assert LexBefore(s, 3, 4) && LexBefore(s, 4, 2) && LexBefore(s, 2, 1) && LexBefore(s, 1, 0);
  }

  /** A single dimension of extent 3 with stride 2: the scan has no adjacent
      pair to compare, so the flag is true, although offsets 1 and 3 are never
      used. */
  lemma GappedSingleStrideScenario()
    ensures IsContiguousStrides([Static(3)], [2])
    ensures forall i | 0 <= i < 3 :: StrideOffset([2], 0, [i]) == 2 * i
  {
  }

  /** A stride mapping with a zero stride still answers `is_unique()`, while
      indices 0 and 1 of its only dimension share offset 0. */
  lemma ZeroStrideScenario()
    ensures var m := StrideMapping([Static(2)], [0], IsContiguousStrides([Static(2)], [0]));
      IsUnique(m) && InBounds(m.ext, [0]) && InBounds(m.ext, [1]) && Offset(m, [0]) == Offset(m, [1]) == 0
  {
  }

  /** Element `(i0, i1, i2)` of the subspan is element `(2, i0 + 1, i1, i2, 0)`
      of the source. */
  lemma SubspanElementScenario(i0: int, i1: int, i2: int)
    ensures Reconstruct(TestSlices, [i0, i1, i2]) == [2, i0 + 1, i1, i2, 0]
  {
    var sl := TestSlices;
    assert sl[1..] == [Range(1, 3), All, All, Index(0)];
    assert sl[2..] == sl[1..][1..] && sl[3..] == sl[2..][1..] && sl[4..] == sl[3..][1..] && sl[5..] == sl[4..][1..];
    assert [i0, i1, i2][1..] == [i1, i2] && [i1, i2][1..] == [i2] && [i2][1..] == [];
    assert IndexCount(sl[5..]) == 0 && IndexCount(sl[4..]) == 1 && IndexCount(sl[3..]) == 1;
    assert IndexCount(sl[2..]) == 1 && IndexCount(sl[1..]) == 1;
    assert Reconstruct(sl[4..], []) == [0];
    assert Reconstruct(sl[3..], [i2]) == [i2, 0];
    assert Reconstruct(sl[2..], [i1, i2]) == [i1, i2, 0];
    assert Reconstruct(sl[1..], [i0, i1, i2]) == [i0 + 1, i1, i2, 0];
  }

  /** The older deduction for `(2, {1, 3}, 0, {0, 2}, 1)` on a right mapping
      of rank 5: a rank-2 all-dynamic `layout_stride` view; with an `all` it
      does not compile. */
  lemma OlderDeductionScenario()
    ensures OlderSubspanDeduction(LayoutRight, 5, Accessors.AccessorBasic, [Index(2), Range(1, 3), Index(0), Range(0, 2), Index(1)])
      == Some(DeducedView(Some(LayoutStride), [DynamicExtent, DynamicExtent], Accessors.AccessorBasic))
    ensures OlderSubspanDeduction(LayoutRight, 5, Accessors.AccessorBasic, TestSlices).None?
  {
    var sl := [Index(2), Range(1, 3), Index(0), Range(0, 2), Index(1)];
    assert sl[1..] == [Range(1, 3), Index(0), Range(0, 2), Index(1)];
    assert sl[2..] == sl[1..][1..] && sl[3..] == sl[2..][1..] && sl[4..] == sl[3..][1..] && sl[5..] == sl[4..][1..];
    assert RangeCount(sl[4..]) == 0;
    assert RangeCount(sl[3..]) == 1;
    assert RangeCount(sl[2..]) == 1;
    assert RangeCount(sl[1..]) == 2;
    RangeCountIsRank(sl);
    assert OlderSpecifiers(sl);
    assert seq(2, _ => DynamicExtent) == [DynamicExtent, DynamicExtent];
    assert TestSlices[2].All?;
  }
}

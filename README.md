# mdspan (P0009) reference implementation: a verified model

This project models the core of the P0009 `mdspan` reference implementation.
`mdspan` is a non-owning view of a block of memory as a multidimensional array.
The model covers five parts:

- **Extents** (`extents.dfy`): the shape of a view. It is a chain of
  dimensions, each either static (fixed by a template argument) or dynamic
  (supplied at run time). The model covers both implementations: the
  `extents_analyse` chain of `bits/extents.hpp` and the `extents_helper` chain
  of `mdspan_helper.hpp` used by the older `extents.hpp`. It covers lookups
  that answer 1 past the rank, the variadic, array and default constructors,
  conversion and assignment (unchecked in the newer chain, asserting in the
  older), equality, and `product(i, j)`.
- **Layout mappings** (`layouts.dfy`, `stride_order.dfy`): `layout_right`
  (Horner offsets), `layout_left` (nested offsets), `layout_stride` (explicit
  strides) and the older `layout_none` (identity for rank 0 or 1). It covers
  `stride(r)`, `required_span_size()` and the uniqueness, contiguity and
  strided flags. The stride mapping's constructor insertion-sorts a local
  permutation array in place and then scans it for contiguity. Both steps are
  imperative methods proved against specification functions.
- **Accessors** (`accessors.dfy`): `accessor_basic` and the member bodies of
  `aligned_access_policy`, both stateless, with handles as positions in the
  view's buffer (the latter class cannot be instantiated; see "## Left out"). It also
  covers `aligned_accessor`, whose constructor checks alignment and whose
  offsetting drops it.
- **`basic_mdspan`** (`views.dfy`): a class with the accessor, the mapping and
  the handle as fields, over an `array<T>` buffer. Element reads and writes go
  to `buf[acc.access(ptr, map(i...))]`.
- **`subspan`** (`subspans.dfy`): slice specifiers are `All`, `Index(v)` or
  `Range(first, second)`. `create_sub_extents` is modelled as one loop over the
  specifiers. The loop compacts the stride array in place, adds up the offset,
  and collects the new template arguments and run-time values. The result is
  a `layout_stride` view over the same buffer. The element law is proved for
  every input: element `j` of the subspan is the source element at the
  reconstructed index. The older `subspan_deduction` type computation is
  modelled as an `Option`, where `None` stands for "does not compile".

`scenarios.dfy` works the repository's own test examples through the model.

Integers are unbounded. `ptrdiff_t`/`size_t` overflow is not modelled. Where
the C++ relies on `size_t` wrap-around, the unbounded model reaches the same
result (see "## Left out"). Compile-time errors (`static_assert`, overloads
that do not exist) become preconditions when the C++ caller must satisfy them
statically, and `None` results for the type computations. A failed run-time
`assert` becomes the `AssertionFailed` outcome.

A span size is meant to cover every offset the mapping produces, as
`required_span_size()` does for the right and left layouts
(`Layouts.OffsetWithinSpan`, `Layouts.CorrectedSpanMatchesDenseLayouts`). The
stride layout's code returns `Σ stride[r]·(extent(r) − 1)`, with no `+ 1`, so
its largest offset lands on the span size itself. The model follows the code
in `Layouts.RequiredSpanSize`. The discrepancy is recorded under
"## Findings".

## Model

| member | source | states |
|---|---|---|
| Extents.RankDynamicCounts | P0009/reference-implementation/include/experimental/bits/extents.hpp:121-122 | `rank_dynamic()` is the number of template arguments equal to `dynamic_extent` (−1) |
| Extents.RankDynamicAppend | P0009/prototype/include/mdspan_helper.hpp:78-79 | the per-level sum of dynamic flags adds up over a concatenation of argument lists |
| Extents.DynamicIndex | P0009/reference-implementation/include/experimental/bits/extents.hpp:129-130 | a dynamic dimension's position among the run-time values is below `rank_dynamic()` |
| Extents.AnalyseStaticExtent | P0009/reference-implementation/include/experimental/bits/extents.hpp:111-114 | level `r` of the chain answers the template argument at position `rank − r`, and 1 when no level matches |
| Extents.StaticExtent | P0009/reference-implementation/include/experimental/bits/extents.hpp:227-228 | `static_extent(k)` is the k-th template argument for `k < rank`, else 1 |
| Extents.AnalyseExtent | P0009/reference-implementation/include/experimental/bits/extents.hpp:145-148 | level `r` answers the size of dimension `rank − r`, and 1 when no level matches |
| Extents.Extent | P0009/reference-implementation/include/experimental/bits/extents.hpp:230-231 | `extent(k)` is the size of dimension k for `k < rank`, else 1 |
| Extents.HelperStaticExtent | P0009/prototype/include/mdspan_helper.hpp:135-137 | the helper chain's left-indexed `static_extent(k)` agrees with the newer chain's answer for every k |
| Extents.HelperExtent | P0009/prototype/include/mdspan_helper.hpp:139-141 | the helper chain's `extent(k)` agrees with the newer chain's answer for every k, 1 past the end |
| Extents.FromDynamicValues | P0009/reference-implementation/include/experimental/bits/extents.hpp:196-200 | the variadic constructor takes exactly `rank_dynamic()` values and builds extents with the given template arguments |
| Extents.FromDynamicValuesAt | P0009/reference-implementation/include/experimental/bits/extents.hpp:129-130 | dimension k gets its static size, or the run-time value at position "number of dynamic dimensions before k" |
| Extents.FromArray | P0009/reference-implementation/include/experimental/bits/extents.hpp:132-133 | the array constructor (a dynamic level takes `de[r]` and passes `r + 1` on) builds the same object as the variadic constructor |
| Extents.DefaultExtents | P0009/reference-implementation/include/experimental/bits/extents.hpp:127 | a default-constructed dynamic dimension holds 0; static ones hold their argument |
| Extents.FromDynamicValuesAppend | P0009/prototype/include/mdspan_helper.hpp:96-114 | a static level passes all values on and a dynamic level consumes one, so building over a concatenation concatenates |
| Extents.DefaultIsFromNoValues | P0009/reference-implementation/include/experimental/bits/extents.hpp:190 | with no dynamic dimension, the default constructor and the constructor without values agree |
| Extents.FromOwnValues | P0009/reference-implementation/include/experimental/bits/extents.hpp:196-200 | rebuilding from an object's own arguments and run-time values gives back the object |
| Extents.ValuesRoundTrip | P0009/reference-implementation/include/experimental/bits/extents.hpp:196-200 | reading back the run-time values of a freshly built object gives the values it was built from |
| Extents.Convert | P0009/reference-implementation/include/experimental/bits/extents.hpp:135-143 | converting construction/assignment: a dynamic level copies the other's extent, a static level keeps its size, and nothing is checked |
| Extents.ConvertKeepsShape | P0009/reference-implementation/include/experimental/bits/extents.hpp:98-105 | the converted object has the other's shape iff every static size already matched the other's extent |
| Extents.HelperAssign | P0009/prototype/include/mdspan_helper.hpp:124-133 | the asserting assignment succeeds iff every static size equals the other's extent; on success it has the other's extents and its own arguments |
| Extents.Equal | P0009/reference-implementation/include/experimental/bits/extents.hpp:235-242 | the accumulating loop returns true iff the ranks are equal and every extent is equal |
| Extents.NotEqual | P0009/reference-implementation/include/experimental/bits/extents.hpp:244-248 | `!=` is true iff the shapes differ |
| Extents.HelperEqual | P0009/prototype/include/mdspan_helper.hpp:159-162 | level-by-level `equal` holds iff every extent matches |
| Extents.OlderEqual | P0009/reference-implementation/include/extents.hpp:113-125 | the older `==`, which compiles only for equal ranks (the chain's end at mdspan_helper.hpp:63 compares only with its own type), holds iff every extent matches |
| Extents.ProductIsRangeProduct | P0009/prototype/include/mdspan_helper.hpp:155-157 | the chain's `product(i, j)` is the product of the extents of dimensions `i ≤ r < j` |
| Extents.ProductEmpty | P0009/prototype/include/mdspan_helper.hpp:60 | an empty range (or one past the rank) has product 1 |
| Extents.ProductStep | P0009/prototype/include/mdspan_helper.hpp:155-157 | a non-empty range's product is its first extent times the product of the rest |
| Extents.ProductExtend | P0009/reference-implementation/include/extents.hpp:110-111 | extending the range by dimension j multiplies by `extent(j)` (1 past the rank) |
| Extents.ProductSplit | P0009/reference-implementation/include/extents.hpp:110-111 | `product(i, j) == product(i, k) * product(k, j)` for `i ≤ k ≤ j` |
| Extents.ProductNonNegative | P0009/reference-implementation/include/extents.hpp:110-111 | a product of non-negative extents is non-negative |
| Extents.PackOf | P0009/reference-implementation/include/experimental/bits/extents.hpp:177-184 | the template argument list of the chain: a static level contributes its size, a dynamic level `dynamic_extent` (−1) |
| Extents.RankDynamic | P0009/reference-implementation/include/experimental/bits/extents.hpp:117-122 | `rank_dynamic()`: a dynamic level adds one to the next level's count, a static level (line 86) adds nothing, the end of the chain (line 158) gives 0; never more than the rank |
| Extents.DynamicValues | P0009/reference-implementation/include/experimental/bits/extents.hpp:124-125 | the `this_extent` members of the dynamic levels in chain order, exactly `rank_dynamic()` of them |
| Extents.Compatible | P0009/prototype/include/mdspan_helper.hpp:131 | the condition the helper assignment asserts level by level: equal rank, and every static size equals the other object's extent |
| Extents.SameExtents | P0009/reference-implementation/include/experimental/bits/extents.hpp:238-240 | what `operator==` compares: equal rank and equal `extent(r)` for every r |
| Extents.AssignLevel | P0009/prototype/include/mdspan_helper.hpp:126-132 | one level of the asserting assignment: it fails iff the level is static and `N != other.N`; on success the level keeps its template argument and takes the other's size |
| Extents.HelperProduct | P0009/prototype/include/mdspan_helper.hpp:155-157 | level R contributes `N` when `i ≤ R < j` and 1 otherwise, times the next level's product; the end of the chain (`N = 1`, line 39) contributes 1 |
| Extents.Product | P0009/reference-implementation/include/extents.hpp:110-111 | `product(i, j)` of the older extents delegates to the helper chain started at level 0 |
| Extents.RangeProduct | P0009/reference-implementation/include/extents.hpp:110-111 | the plain definition `Π extent(r)` for `i ≤ r < min(j, rank)`, the reference `ProductIsRangeProduct` proves the chain equal to |
| StrideOrder.InsertMembers | P0009/reference-implementation/mdspan_single_file.hpp:1100-1110 | one insertion adds exactly index i to the permutation |
| StrideOrder.InsertSorted | P0009/reference-implementation/mdspan_single_file.hpp:1104-1106 | moving i back only past strictly larger strides keeps the permutation stably sorted |
| StrideOrder.StableOrderSorts | P0009/reference-implementation/mdspan_single_file.hpp:1090-1092 | the permutation is sorted by ascending stride, with ties in index order |
| StrideOrder.StableOrderHoldsAll | P0009/reference-implementation/mdspan_single_file.hpp:1096-1112 | after n insertions the permutation holds exactly the indices 0 .. n − 1 |
| StrideOrder.StableOrderIsStableSort | P0009/reference-implementation/mdspan_single_file.hpp:1086-1112 | the constructor's sort produces a stable ascending sort of the dimension indices by stride |
| StrideOrder.StableSortUnique | P0009/reference-implementation/mdspan_single_file.hpp:1090-1092 | two stable sorts of the same strides are the same sequence |
| StrideOrder.InsertIndex | P0009/reference-implementation/mdspan_single_file.hpp:1100-1110 | the in-place inner loop on the array `p` performs exactly one insertion step on `p[..i+1]` and leaves `p[i+1..]` as it was |
| StrideOrder.SortByStride | P0009/reference-implementation/include/layouts.hpp:319-332 | the outer loop over an array of `max(rank, 1)` entries yields the stable order |
| StrideOrder.LexBefore | P0009/reference-implementation/include/layouts.hpp:321-328 | the order the constructor's sort establishes: a smaller stride first, equal strides in index order |
| StrideOrder.IsStableSort | P0009/reference-implementation/include/layouts.hpp:321-322 | the independent definition of the permutation the sort should fill: every dimension index once, ascending by stride, ties in index order |
| StrideOrder.InsertByStride | P0009/reference-implementation/include/layouts.hpp:326-331 | one pass of the outer loop: index i moves back past every entry whose stride is strictly larger than `stride[i]` |
| StrideOrder.StableOrder | P0009/reference-implementation/include/layouts.hpp:324-332 | the permutation after the first n passes: n entries, all below n |
| Layouts.MappingOf | P0009/reference-implementation/mdspan_single_file.hpp:732-734 | constructing a right/left/none mapping from extents stores them unchanged |
| Layouts.MappingFromValues | P0009/reference-implementation/include/layouts.hpp:124-126 | a mapping built from dynamic values holds the extents those values build, each value in its dynamic slot |
| Layouts.ContiguityOfAnyStableSort | P0009/reference-implementation/mdspan_single_file.hpp:1116-1126 | the contiguity flag is the stride chain along any stable stride sort |
| Layouts.NewStrideMapping | P0009/reference-implementation/mdspan_single_file.hpp:1080-1128 | the stride constructor stores extents and strides, and its flag stays set iff `stride[p[i]] == stride[p[i−1]]·extent(p[i−1])` for every adjacent pair |
| Layouts.Strides | P0009/reference-implementation/include/layouts.hpp:396-397 | the stride sequence reports `stride(r)` for every dimension |
| Layouts.ComputeStride | P0009/reference-implementation/mdspan_single_file.hpp:818-828 | the right loop (and the left loop at 984-994) computes the product of the later (earlier) extents; stride mappings return the stored stride and `layout_none` returns 1 |
| Layouts.RightOffsetClosedForm | P0009/reference-implementation/mdspan_single_file.hpp:750-768 | Horner's rule equals `sum·product(r, rank)` plus each index times the product of the later extents |
| Layouts.LeftOffsetClosedForm | P0009/reference-implementation/mdspan_single_file.hpp:920-934 | the nested left offset is each index times the product of the earlier extents |
| Layouts.StrideOffsetIsDot | P0009/reference-implementation/mdspan_single_file.hpp:1144-1158 | the stride offset is `Σ i_k·stride[k]` |
| Layouts.OffsetIsStrided | P0009/reference-implementation/mdspan_single_file.hpp:806-814 | for every layout, `map(i...)` equals `Σ i_r·stride(r)`, which justifies `is_strided()` |
| Layouts.DenseRequiredSpanSize | P0009/reference-implementation/mdspan_single_file.hpp:776-786 | the right/left span loop returns the product of all extents (1 at rank 0) |
| Layouts.StrideRequiredSpanSize | P0009/reference-implementation/mdspan_single_file.hpp:1166-1178 | the stride span loop returns `Σ stride[i]·(extent(i) − 1)`, as written (no `+ 1`) |
| Layouts.ComputeRequiredSpanSize | P0009/reference-implementation/include/layouts.hpp:62-63 | `required_span_size()` of every mapping: `extent(0)` for `layout_none`, the loops above otherwise |
| Layouts.RightSpanTelescopes | P0009/reference-implementation/include/layouts.hpp:151-152 | for the right layout, the offset of the largest index telescopes to `product(0, rank) − 1` |
| Layouts.LeftSpanTelescopes | P0009/reference-implementation/include/layouts.hpp:239-240 | the same telescoping holds for the left layout |
| Layouts.DenseStridesFacts | P0009/reference-implementation/include/layouts.hpp:168-169 | right/left/none strides are non-negative for non-negative extents, and the largest index lands on `required_span_size() − 1` |
| Layouts.OffsetWithinSpan | P0009/reference-implementation/mdspan_single_file.hpp:804-812 | right/left/none: every in-bounds index maps into `[0, required_span_size())` |
| Layouts.DenseOffsetInjective | P0009/reference-implementation/include/layouts.hpp:68-72 | right/left/none (`is_always_unique()` and `is_unique()`; lines 160, 164, 259, 263 too): two in-bounds indices with the same offset are the same index |
| Layouts.DenseOffsetOnto | P0009/reference-implementation/include/layouts.hpp:69-73 | right/left/none (`is_always_contiguous()` and `is_contiguous()`; lines 161, 165, 260, 264 too): every position of `[0, required_span_size())` is the offset of some in-bounds index |
| Layouts.RightOffsetInjective | P0009/reference-implementation/include/layouts.hpp:132-147 | the Horner recursion from dimension r separates the running sum and each in-bounds index |
| Layouts.LeftOffsetInjective | P0009/reference-implementation/include/layouts.hpp:225-235 | the nested recursion from dimension r separates each in-bounds index |
| Layouts.LeftIndexOf | P0009/reference-implementation/include/layouts.hpp:225-235 | the index `layout_left` sends to position p: p's mixed-radix digits, first dimension least significant |
| Layouts.RightIndexOf | P0009/reference-implementation/include/layouts.hpp:132-147 | the index `layout_right` sends to position p: p's mixed-radix digits, last dimension least significant |
| Layouts.LeftIndexOfReaches | P0009/reference-implementation/include/layouts.hpp:225-235 | for `0 ≤ p <` the product of the extents from r on, that index is in bounds and the nested recursion maps it to p |
| Layouts.RightIndexOfReaches | P0009/reference-implementation/include/layouts.hpp:132-147 | for `0 ≤ p <` the product of the extents from r on, that index is in bounds and Horner's rule from sum s maps it to `s·product + p` |
| Layouts.LastElementEndsSpan | P0009/reference-implementation/mdspan_single_file.hpp:942-952 | right/left/none with no zero extent: the largest index maps to the last position of the span |
| Layouts.StrideSpanMissesLastElement | P0009/reference-implementation/include/layouts.hpp:362-368 | as written, the stride layout maps its largest index to exactly `required_span_size()`, one past a buffer of that size |
| Layouts.StrideSpanCounterexample | P0009/reference-implementation/mdspan_single_file.hpp:1166-1178 | as written, extent 5 and stride 1 give span 4 while index 4 maps to offset 4 |
| Layouts.OffsetWithinSpanSize | P0009/reference-implementation/include/layouts.hpp:362-368 | with the corrected stride span, every in-bounds index of any layout with non-negative strides maps into `[0, SpanSize)` |
| Layouts.SpanSizeIsTight | P0009/reference-implementation/include/layouts.hpp:364-367 | the corrected size is tight: with no zero extent the largest index maps to `SpanSize − 1` |
| Layouts.CorrectedSpanMatchesDenseLayouts | P0009/reference-implementation/include/layouts.hpp:151-152 | applied to the right/left strides, the corrected stride span equals `product(0, rank)` |
| Layouts.KindOf | P0009/reference-implementation/include/layouts.hpp:8-11 | the layout policy a mapping belongs to: `layout_none`, `layout_right`, `layout_left` or `layout_stride` |
| Layouts.Valid | P0009/reference-implementation/include/layouts.hpp:289-293 | a stride mapping holds one stride per dimension and the contiguity flag its constructor computed; a `layout_none` mapping has rank at most 1 (the static assertion at line 29) |
| Layouts.StrideChain | P0009/reference-implementation/include/layouts.hpp:334-339 | the scan's test along an order: `stride[p[i]] == stride[p[i−1]]·extent(p[i−1])` for every adjacent pair below n |
| Layouts.IsContiguousStrides | P0009/reference-implementation/include/layouts.hpp:316-340 | the constructor's `m_contig`: the chain test holds along the stable ascending stride order |
| Layouts.RightOffset | P0009/reference-implementation/include/layouts.hpp:130-147 | `layout_right` Horner step: the running sum times `extent(r)` plus index r, continued from dimension r + 1 |
| Layouts.LeftOffset | P0009/reference-implementation/include/layouts.hpp:223-235 | `layout_left`: `i + extent(r)·(offset of the remaining indices)`, and 0 with no indices |
| Layouts.StrideOffset | P0009/reference-implementation/include/layouts.hpp:346-357 | `layout_stride`: `i·stride[K]` plus the offset of the remaining indices from K + 1, and 0 with no indices |
| Layouts.Offset | P0009/reference-implementation/include/layouts.hpp:65-66 | `operator()`: the identity for `layout_none` (0 at rank 0), and for the other layouts their offset recursion started at dimension 0 (lines 157-158, 245-246, 373-374) |
| Layouts.Stride | P0009/reference-implementation/include/layouts.hpp:168-169 | `stride(r)`: `product(r + 1, rank)` for `layout_right`, `product(0, r)` for `layout_left` (267-268), the stored stride for `layout_stride` (396-397), 1 for `layout_none` (76) |
| Layouts.IsAlwaysUnique | P0009/reference-implementation/include/layouts.hpp:388 | every layout answers true |
| Layouts.IsAlwaysContiguous | P0009/reference-implementation/include/layouts.hpp:389 | false for `layout_stride`, true for the other layouts (lines 69, 161, 260) |
| Layouts.IsAlwaysStrided | P0009/reference-implementation/include/layouts.hpp:390 | every layout answers true |
| Layouts.IsUnique | P0009/reference-implementation/include/layouts.hpp:392 | every mapping answers true |
| Layouts.IsStrided | P0009/reference-implementation/include/layouts.hpp:394 | every mapping answers true |
| Layouts.IsContiguous | P0009/reference-implementation/include/layouts.hpp:393 | a stride mapping answers its stored flag, the other mappings true (lines 73, 165, 264) |
| Layouts.StrideSpanSum | P0009/reference-implementation/include/layouts.hpp:364-367 | the stride layout's loop sum `Σ stride[i]·(extent(i) − 1)` |
| Layouts.RequiredSpanSize | P0009/reference-implementation/include/layouts.hpp:62-63 | `required_span_size()`: `extent(0)` for `layout_none`, `product(0, rank)` for right and left (151-152, 239-240), the loop sum for stride (362-368) |
| Layouts.HasEmptyDimension | P0009/reference-implementation/include/layouts.hpp:362-368 | some extent is 0, so the corrected span is empty |
| Layouts.CorrectedStrideSpanSize | P0009/reference-implementation/include/layouts.hpp:362-368 | the corrected stride span: 0 with an empty dimension, else one past the loop sum |
| Layouts.SpanSize | P0009/reference-implementation/include/layouts.hpp:362-368 | the positions a mapping needs: `required_span_size()` for right, left and none, the corrected size for stride |
| Accessors.OffsetThenAccess | P0009/reference-implementation/include/accessor_policy.hpp:21-29 | `deref(offset(h, i), j)` reaches the element `deref(h, i + j)` reaches, through the offset policy, and `decay` keeps the position |
| Accessors.MakeAlignedPointer | P0009/reference-implementation/include/mdspan.hpp:81-86 | constructing an `aligned_accessor` from a pointer succeeds iff the address is a multiple of N |
| Accessors.OffsetKeepsAlignmentIff | P0009/reference-implementation/include/mdspan.hpp:96-98 | `ptr + i` stays N-aligned iff `i·sizeof(T)` is a multiple of N, so offsetting loses the guarantee in general |
| Accessors.OffsetLosesAlignmentExample | P0009/reference-implementation/include/mdspan.hpp:93-98 | N = 8, sizeof(T) = 4: the element after an aligned pointer is not aligned, and address 4 fails the check |
| Accessors.InadmissibleAlignments | P0009/reference-implementation/include/mdspan.hpp:64-65 | N = 12 (not a power of two) and N = 2 with a 4-byte type are rejected |
| Accessors.OffsetPolicy | P0009/reference-implementation/include/accessor_policy.hpp:18 | `offset_policy`: `accessor_basic` names itself, and `aligned_access_policy` names `accessor_basic` (mdspan.hpp:111) |
| Accessors.HandleOffset | P0009/reference-implementation/include/accessor_policy.hpp:21-23 | `offset(h, i)` is the handle i elements on, for both policies (mdspan.hpp:113-115) |
| Accessors.ElementPosition | P0009/reference-implementation/include/accessor_policy.hpp:25-26 | `deref(h, i)` refers to element `h[i]`, for both policies (mdspan.hpp:117-118) |
| Accessors.Decay | P0009/reference-implementation/include/accessor_policy.hpp:28-29 | `decay(h)` is the handle itself, for both policies (mdspan.hpp:120-121) |
| Accessors.AlignmentAdmissible | P0009/reference-implementation/include/mdspan.hpp:64-65 | the static assertions: `N & (N − 1) == 0` in 64-bit `size_t` arithmetic and `N % sizeof(T) == 0` |
| Accessors.ToPointer | P0009/reference-implementation/include/mdspan.hpp:90-91 | `operator T*()` gives back the wrapped address |
| Accessors.ElementAddress | P0009/reference-implementation/include/mdspan.hpp:93-98 | `operator[](i)` and `operator+(i)` refer to the byte address `ptr + i·sizeof(T)` |
| Views.Mdspan.FromDynamicExtents | P0009/reference-implementation/include/experimental/bits/mdspan.hpp:134-137 | `basic_mdspan(ptr, values...)` stores the handle and the accessor and maps the extents built from the values |
| Views.Mdspan.FromDynamicArray | P0009/reference-implementation/include/experimental/bits/mdspan.hpp:139-140 | `basic_mdspan(ptr, array)` builds the same mapping as the variadic form |
| Views.Mdspan.FromMapping | P0009/reference-implementation/include/experimental/bits/mdspan.hpp:142-146 | `basic_mdspan(ptr, m[, a])` stores its arguments unchanged |
| Views.Mdspan.Create | P0009/reference-implementation/include/experimental/bits/mdspan.hpp:214-215 | the `mdspan` alias uses `layout_right` and `accessor_basic` |
| Views.Mdspan.Converting | P0009/reference-implementation/include/experimental/bits/mdspan.hpp:109-121 | converting construction copies accessor, mapping and handle member-wise |
| Views.Mdspan.Assign | P0009/reference-implementation/include/experimental/bits/mdspan.hpp:123-132 | converting assignment overwrites exactly the accessor, the mapping and the handle with the other's |
| Views.Mdspan.RankDynamic | P0009/reference-implementation/include/experimental/bits/mdspan.hpp:167-168 | `rank_dynamic()` delegates to the extents and is at most the rank |
| Views.Mdspan.StaticExtent | P0009/reference-implementation/include/experimental/bits/mdspan.hpp:170-171 | `static_extent(k)` is the mapping's k-th template argument, or 1 past the rank |
| Views.Mdspan.Extent | P0009/reference-implementation/include/experimental/bits/mdspan.hpp:173-174 | `extent(k)` is the mapping's k-th extent, or 1 outside `[0, rank)` (a negative `int` becomes a huge `size_t`) |
| Views.Mdspan.Get | P0009/reference-implementation/include/experimental/bits/mdspan.hpp:151-154 | `a(i...)` with exactly `rank` indices reads buffer element `acc.access(ptr, map(i...))` |
| Views.Mdspan.Set | P0009/reference-implementation/include/experimental/bits/mdspan.hpp:151-154 | writing through `a(i...)` changes that buffer element and no other |
| Views.Mdspan.GetAt | P0009/reference-implementation/include/experimental/bits/mdspan.hpp:157-160 | `a[i]` of a rank-1 view reads the element `a(i)` reads |
| Views.AddressWithinBuffer | P0009/reference-implementation/test/test_subspan.cpp:158-164 | in a view whose span fits its buffer, every in-bounds index addresses an element of the buffer |
| Views.DenseViewFits | P0009/reference-implementation/test/test_subspan.cpp:158-164 | an `mdspan` at position 0 of a buffer of `required_span_size()` elements fits it |
| Views.Mdspan.Valid | P0009/reference-implementation/include/experimental/bits/mdspan.hpp:208-210 | the view's mapping member is a mapping its layout can construct |
| Views.Mdspan.Rank | P0009/reference-implementation/include/experimental/bits/mdspan.hpp:164-165 | `rank()` is the rank of the extents |
| Views.Mdspan.GetExtents | P0009/reference-implementation/include/experimental/bits/mdspan.hpp:176-177 | `extents()` is the mapping's extents |
| Views.Mdspan.IsAlwaysUnique | P0009/reference-implementation/include/experimental/bits/mdspan.hpp:190 | forwards to the mapping type's flag |
| Views.Mdspan.IsAlwaysStrided | P0009/reference-implementation/include/experimental/bits/mdspan.hpp:191 | forwards to the mapping type's flag |
| Views.Mdspan.IsAlwaysContiguous | P0009/reference-implementation/include/experimental/bits/mdspan.hpp:192 | forwards to the mapping type's flag |
| Views.Mdspan.IsUnique | P0009/reference-implementation/include/experimental/bits/mdspan.hpp:194 | forwards to the mapping's flag |
| Views.Mdspan.IsStrided | P0009/reference-implementation/include/experimental/bits/mdspan.hpp:195 | forwards to the mapping's flag |
| Views.Mdspan.IsContiguous | P0009/reference-implementation/include/experimental/bits/mdspan.hpp:196 | forwards to the mapping's flag |
| Views.Mdspan.Stride | P0009/reference-implementation/include/experimental/bits/mdspan.hpp:198-199 | `stride(r)` forwards to the mapping |
| Views.Mdspan.GetMapping | P0009/reference-implementation/include/experimental/bits/mdspan.hpp:201 | `mapping()` returns the mapping member |
| Views.Mdspan.GetAccessor | P0009/reference-implementation/include/experimental/bits/mdspan.hpp:203 | `accessor()` returns the accessor member |
| Views.Mdspan.Data | P0009/reference-implementation/include/experimental/bits/mdspan.hpp:205 | `data()` returns the handle |
| Views.Mdspan.Address | P0009/reference-implementation/include/experimental/bits/mdspan.hpp:153-154 | the buffer position `operator()` refers to: `acc.access(ptr, map(i...))` |
| Views.Mdspan.Fits | P0009/reference-implementation/include/experimental/bits/mdspan.hpp:183-184 | the handle and the span the mapping needs lie inside the buffer, as the commented-out `span()` pairs `decay(ptr)` with the span size; the stride layout uses the corrected size |
| Subspans.IndexCount | P0009/reference-implementation/include/experimental/bits/subspan.hpp:96-98 | the number of integer specifiers (dropped dimensions) is at most the rank |
| Subspans.SubPack | P0009/reference-implementation/include/experimental/bits/subspan.hpp:55-111 | the deduced template arguments number `rank − (integer specifiers)` |
| Subspans.SubDynamicValues | P0009/reference-implementation/include/experimental/bits/subspan.hpp:68-93 | the values passed down (`e.extent(pos)` for `all` on a dynamic dimension, `second − first` for a pair) are exactly one per dynamic argument of the new extents |
| Subspans.BaseExtents | P0009/reference-implementation/include/experimental/bits/subspan.hpp:109-121 | the base case builds `extents_type(de...)` (default-constructed when there are no values) |
| Subspans.SubLevels | P0009/reference-implementation/include/experimental/bits/subspan.hpp:55-107 | the dimension-by-dimension description of the new extents has the new rank |
| Subspans.ComposedLevels | P0009/reference-implementation/include/experimental/bits/subspan.hpp:56-92 | the extents built from the deduced arguments and values are: `all` keeps the dimension, a pair gives a dynamic `second − first`, an integer drops it |
| Subspans.SubExtentsAreLevels | P0009/reference-implementation/test/test_subspan.cpp:70-86 | the extents the composition builds are exactly that description |
| Subspans.CompactStrides | P0009/reference-implementation/include/experimental/bits/subspan.hpp:64 | one stride is kept per kept dimension |
| Subspans.Reconstruct | P0009/reference-implementation/test/test_subspan.cpp:187-190 | a subspan index stands for a source index of full rank |
| Subspans.ElementLaw | P0009/reference-implementation/include/experimental/bits/subspan.hpp:88-104 | the strided offset of the reconstructed index equals the accumulated offset plus the subspan index weighted by the compacted strides |
| Subspans.CreateSubExtents | P0009/reference-implementation/include/experimental/bits/subspan.hpp:124-131 | the walk returns the deduced extents and the accumulated offset, leaves the kept strides in order at the front of the array, and leaves the rest untouched |
| Subspans.WalkAdvances | P0009/reference-implementation/include/experimental/bits/subspan.hpp:61-65 | one specialization step preserves `Walked` |
| Subspans.WalkEnds | P0009/reference-implementation/include/experimental/bits/subspan.hpp:109-121 | when the specifiers are used up, `Walked` means the built pieces are the whole result |
| Subspans.ComposeStep | P0009/reference-implementation/include/experimental/bits/subspan.hpp:55-107 | one specialization: `all` and pair copy `strides[pos]` to the write index, pair and integer add `first·stride` or `v·stride` to the offset, and the argument and value pieces are appended |
| Subspans.WalkSpecifiers | P0009/reference-implementation/include/experimental/bits/subspan.hpp:55-107 | the chain of specializations, one per specifier, ends with `Walked` over all specifiers: the pieces built are the whole deduction, the offset and the compacted strides |
| Subspans.StepWalked | P0009/reference-implementation/include/experimental/bits/subspan.hpp:61-65 | what one specialization promises carries `Walked` from the specifier at `pos` to the next |
| Subspans.KeepStride | P0009/reference-implementation/include/experimental/bits/subspan.hpp:77 | a kept dimension's stride lands just after the strides kept so far, since the write index never passes the read index |
| Subspans.Subspan | P0009/reference-implementation/include/experimental/bits/subspan.hpp:135-157 | the result is a fresh stride view over the same buffer with the offset-policy accessor, the deduced extents, the compacted source strides and the handle moved by the offset; each of its elements is the source element at the reconstructed index |
| Subspans.SubspanAddress | P0009/reference-implementation/include/experimental/bits/subspan.hpp:155-156 | the source offset of the reconstructed index is the subspan's offset plus the subspan mapping's offset |
| Subspans.OlderSubspanDeduction | P0009/reference-implementation/include/subspan.hpp:34-58 | the deduction compiles iff there are `rank` specifiers, all integers or lists, with 1..3 lists; then the extents are all dynamic of that rank, the layout is `layout_stride` for left/right/stride sources (`void` otherwise), and the accessor is kept |
| Subspans.RangeCountIsRank | P0009/reference-implementation/include/subspan.hpp:43-49 | without `all`, the number of list specifiers is the subspan rank |
| Subspans.OlderDeductionAgrees | P0009/prototype/include/mdspan_helper.hpp:205-223 | where the older deduction compiles, its extents arguments are those the newer composition deduces |
| Subspans.OnlyDynamicArguments | P0009/reference-implementation/include/subspan.hpp:9-23 | without `all`, every deduced template argument is `dynamic_extent` |
| Subspans.SubRank | P0009/reference-implementation/include/experimental/bits/subspan.hpp:55-107 | the subspan's rank: one per `all` or pair specifier, none per integer |
| Subspans.PackPiece | P0009/reference-implementation/include/experimental/bits/subspan.hpp:55-98 | the template argument a specialization appends: `E0` for `all` (57, 70), `dynamic_extent` for a pair (84), none for an integer (98) |
| Subspans.ValuePiece | P0009/reference-implementation/include/experimental/bits/subspan.hpp:65-92 | the run-time value a specialization passes on: none for `all` on a static dimension (65), `e.extent(pos)` for `all` on a dynamic one (78), `second − first` for a pair (92) |
| Subspans.LevelPiece | P0009/reference-implementation/include/experimental/bits/subspan.hpp:55-107 | the dimension a specifier gives the subspan: `all` keeps it, a pair gives a dynamic `second − first`, an integer drops it |
| Subspans.StridePiece | P0009/reference-implementation/include/experimental/bits/subspan.hpp:64 | `all` and a pair copy the dimension's stride to the write index (64, 77, 90); an integer copies none |
| Subspans.OffsetPiece | P0009/reference-implementation/include/experimental/bits/subspan.hpp:91 | a pair adds `first·stride` (91), an integer `v·stride` (104), `all` nothing |
| Subspans.SubExtents | P0009/reference-implementation/include/experimental/bits/subspan.hpp:124-130 | `subspan_deduce_extents`: the extents built from the deduced template arguments and run-time values |
| Subspans.SubOffset | P0009/reference-implementation/include/experimental/bits/subspan.hpp:88-105 | the offset the walk adds up: the sum of the specifiers' offset pieces |
| Subspans.SourceStrides | P0009/reference-implementation/include/experimental/bits/subspan.hpp:144-146 | a fresh array holding `src.stride(r)` at every r |
| Subspans.KeptStrides | P0009/reference-implementation/include/experimental/bits/subspan.hpp:151-153 | the subspan's strides are exactly the first `rank` entries of the walked array |
| Subspans.RangeCount | P0009/reference-implementation/include/subspan.hpp:43-49 | `Rank`: the number of list specifiers |
| Subspans.OlderSpecifiers | P0009/reference-implementation/include/subspan.hpp:25-32 | `is_slice_range` is defined for integers and integer lists only, so no specifier is `all` |
| Scenarios.ConstructionScenario | P0009/reference-implementation/test/test_extents.cpp:53-60 | `<5, dyn, 3, dyn, 1>(4, 2)` has rank-dynamic 2 and extents (5, 4, 3, 2, 1) |
| Scenarios.StaticOnlyScenario | P0009/reference-implementation/test/test_extents.cpp:62-67 | `<5, 4, 3>` has no dynamic dimension and extents (5, 4, 3) |
| Scenarios.AssignmentScenario | P0009/reference-implementation/test/test_extents.cpp:74-86 | with the newer chain's unchecked converting assignment, `e2` becomes (5, 4, 3, 2, 1); `e3` built from (9, 8, 7, 6, 5) holds `9 − r`, and after the assignment it holds (5, 4, 3, 2, 1); both then have `e1`'s extents |
| Scenarios.AllDynamicConstructionScenario | P0009/reference-implementation/test/test_extents.cpp:80-82 | five dynamic extents built from (9, 8, 7, 6, 5) hold 9, 8, 7, 6, 5 |
| Scenarios.HelperAssignmentScenario | P0009/prototype/include/mdspan_helper.hpp:124-133 | the same assignments through the helper chain's asserting assignment: into (5, 4, 3, 2, 1) the assertion holds and the extents stay (5, 4, 3, 2, 1); into five dynamic extents they become (5, 4, 3, 2, 1) |
| Scenarios.TestProducts | P0009/reference-implementation/test/test_layouts.cpp:94-111 | the products of the test extents the dense layouts use |
| Scenarios.RightLayoutScenario | P0009/reference-implementation/test/test_layouts.cpp:125-130 | right strides (24, 6, 2, 1, 1); (4, 1, 2, 1, 0) ↦ 107; origin ↦ 0; span 120 |
| Scenarios.LeftLayoutScenario | P0009/reference-implementation/test/test_layouts.cpp:132-137 | left strides (1, 5, 20, 60, 120); (4, 1, 2, 1, 0) ↦ 109; origin ↦ 0 |
| Scenarios.SubspanExtentsScenario | P0009/reference-implementation/test/test_subspan.cpp:59-86 | slicing with (2, (1, 3), all, all, 0) deduces arguments (dyn, 3, dyn) and extents (2, 3, 2) |
| Scenarios.SubspanRightStridesScenario | P0009/reference-implementation/test/test_subspan.cpp:88-104 | over the right layout the kept strides are (6, 2, 1) and the offset is 54 = 2·24 + 1·6 |
| Scenarios.SubspanLeftStridesScenario | P0009/reference-implementation/test/test_subspan.cpp:107-123 | over the left layout the kept strides are (5, 20, 60) and the offset is 7 = 2·1 + 1·5 |
| Scenarios.SubspanRightContiguousScenario | P0009/reference-implementation/test/test_subspan.cpp:175 | the right-layout subspan is contiguous |
| Scenarios.SubspanLeftScatteredScenario | P0009/reference-implementation/test/test_subspan.cpp:212 | the left-layout subspan is not contiguous |
| Scenarios.DenseTiedStridesScenario | P0009/reference-implementation/include/layouts.hpp:334-339 | the scan reports the dense right strides (24, 6, 2, 1, 1) of (5, 4, 3, 2, 1) as not contiguous, because the tied unit strides put dimension 3 before dimension 4 |
| Scenarios.TiedStridesOrder | P0009/reference-implementation/include/layouts.hpp:321-332 | the stable order of the strides (24, 6, 2, 1, 1) is (3, 4, 2, 1, 0) |
| Scenarios.GappedSingleStrideScenario | P0009/reference-implementation/include/layouts.hpp:334-339 | the scan reports one dimension of extent 3 and stride 2 as contiguous, while its offsets are 0, 2 and 4 |
| Scenarios.ZeroStrideScenario | P0009/reference-implementation/include/layouts.hpp:392 | a stride mapping with stride 0 over extent 2 answers `is_unique()` while indices 0 and 1 share offset 0 |
| Scenarios.SubspanElementScenario | P0009/reference-implementation/test/test_subspan.cpp:187-190 | subspan element (i0, i1, i2) stands for source element (2, i0 + 1, i1, i2, 0) |
| Scenarios.OlderDeductionScenario | P0009/reference-implementation/include/subspan.hpp:41-57 | five integer/list specifiers with two lists deduce a rank-2 all-dynamic `layout_stride` view; a specifier list containing `all` does not compile |

## Left out

- The atomic accessor (`accessor_atomic_ref.hpp`), P0019 `atomic_ref` and all of P0971: these are concurrent atomic access, futures and thread pools.
- `make_single_file.py`: file I/O that assembles the single header. The single header's copies of the extents, view and subspan code are modelled once, from the `bits/` files.
- The `#if 0` subspan block in `include/mdspan.hpp` (lines 285-334): dead code.
- Default-constructed views and mappings: they carry a null handle, and a default stride mapping has uninitialised strides. The model builds views only through their value constructors.
- `ptrdiff_t`/`size_t` overflow. Integers are unbounded. The `rank() − k` lookup index and the `rank() − 1` loop start at rank 0 wrap in C++. The unbounded model reaches the same answer in both cases (1).
- Real pointers: handles are positions in the view's `array<T>` buffer, and `aligned_accessor` addresses are natural numbers. Element-type conversion between views (`OtherElementType`) is not modelled, because a view and its converted copy share one element type `T`.
- Accessors.MakeAlignedPointer: requires N > 0, because `address % 0` in the C++ assertion has no defined result.
- Accessors.OffsetPolicy, Accessors.HandleOffset, Accessors.ElementPosition, Accessors.Decay: for `aligned_access_policy` these model the member bodies at `mdspan.hpp:111-121`, but the class cannot be instantiated, because `typename pointer::reference` (line 109) names a member of the raw pointer type `ElementType*`. No view can use that policy in the C++; the model lets a view hold it.
- Extents.OlderEqual: requires equal ranks, because the older `==` does not compile for different ranks; the model's body still performs the `rank() == other.rank()` test.
- Extents.Convert: the converting assignment overwrites the levels in place. It is modelled as a function returning the new value, because extents are plain values with no aliasing. The same holds for `HelperAssign`.
- The older `basic_mdspan` in `include/mdspan.hpp`:
  - its `operator[]` calls `acc_(ptr_, map_(i))`, which does not compile with the policies there;
  - its `operator()` calls `acc_.access(...)`, but both older policies define only `deref`, so it does not compile either;
  - it has no `data()`;
  - its older `layout_right` has no zero-index offset overload, so rank 0 does not compile.

  The model follows the `bits/mdspan.hpp` view, whose element access does compile; the older view's constructors and observers are the same.
- The template-index `extent<K>()` and `next()` accessors of the helper chain: they are implementation details of the older layouts and are modelled through `Extent`.
- Subspans.Subspan: slices are not validated, exactly as in the source. A pair with `second < first` gives a negative extent, and an index outside its dimension is accepted. The element law holds regardless, but `Fits` is not claimed for the subspan.
- Layouts.IsContiguousStrides: the contiguity flag is modelled as written in `layouts.hpp:334-339`, and no gap-free property is stated for it. The scan only compares neighbours along the stride order and never checks that the smallest stride is 1. So a dense layout whose unit strides tie can be reported not contiguous: extents (5, 4, 3, 2, 1) with strides (24, 6, 2, 1, 1), which the sort orders as dimension 3 before dimension 4. A strided rank-1 layout, stride 2, is reported contiguous although it leaves gaps. `Scenarios.DenseTiedStridesScenario` and `Scenarios.GappedSingleStrideScenario` prove both cases. Stating what the flag evidently intends would need a proof that the offsets cover `[0, span)` for every stride set, which this model does not attempt.
- Layouts.IsUnique, Layouts.IsAlwaysUnique: for `layout_stride` the flags are modelled as the values the code returns (true, `layouts.hpp:388, 392`) and no injectivity is proved, because it does not hold: a zero stride sends every index of its dimension to one offset (`Scenarios.ZeroStrideScenario`). Injectivity is proved for the right, left and none layouts only.
- Views.DenseViewFits and Accessors.OffsetThenAccess follow directly from the definitions. They are stated for completeness.

## Findings

| source | as written | input that shows it | evidently intended | confidence | as-written member | corrected member |
|---|---|---|---|---|---|---|
| P0009/reference-implementation/include/layouts.hpp:362-368 | `required_span_size()` of `layout_stride` returns `Σ stride[i]·(extent(i) − 1)`, which is the offset of the largest index (the same in `mdspan_single_file.hpp:1166-1178`) | one dimension, extent 5, stride 1: the span is 4, but index 4 maps to offset 4, outside a 4-element buffer | one plus the largest offset, or 0 when some extent is 0, so that every in-bounds index lies in `[0, size)` | not executed | Layouts.StrideSpanCounterexample | Layouts.SpanSizeIsTight |

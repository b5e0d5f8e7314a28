/** `basic_mdspan`: a non-owning multidimensional view. It holds an accessor,
    a layout mapping and a data handle; element access maps the indices to an
    offset and lets the accessor resolve handle plus offset. The memory the
    handle points into is the array `buf`, and the handle is a position in it. */
module Views {

  import opened Extents
  import Ext = Extents
  import opened Layouts
  import opened Accessors

  class Mdspan<T> {
    var acc: Accessor
    var mapping: Mapping
    var ptr: int
    var buf: array<T>

    ghost predicate Valid()
      reads this
    {
      Layouts.Valid(mapping)
    }

    /** `basic_mdspan(ptr, dynamic_extents...)`: the mapping is built from the
        extents made of the run-time values, the accessor is the accessor
        type's default value `acc`. */
    constructor FromDynamicExtents(buf: array<T>, ptr: int, kind: LayoutKind, acc: Accessor,
                                   pack: seq<int>, values: seq<int>)
      requires kind != LayoutStride && (kind == LayoutNone ==> |pack| <= 1)
      requires |values| == Ext.RankDynamic(pack)
      ensures Valid() && this.buf == buf && this.ptr == ptr && this.acc == acc
      ensures mapping == MappingOf(kind, FromDynamicValues(pack, values))
    {
      this.acc := acc;
      this.mapping := MappingOf(kind, FromDynamicValues(pack, values));
      this.ptr := ptr;
      this.buf := buf;
    }

    /** `basic_mdspan(ptr, array dynamic_extents)`. */
    constructor FromDynamicArray(buf: array<T>, ptr: int, kind: LayoutKind, acc: Accessor,
                                 pack: seq<int>, de: seq<int>)
      requires kind != LayoutStride && (kind == LayoutNone ==> |pack| <= 1)
      requires |de| == Ext.RankDynamic(pack)
      ensures Valid() && this.buf == buf && this.ptr == ptr && this.acc == acc
      ensures mapping == MappingOf(kind, FromDynamicValues(pack, de))
    {
      this.acc := acc;
      this.mapping := MappingOf(kind, FromArray(pack, de, 0));
      this.ptr := ptr;
      this.buf := buf;
      assert de[0..Ext.RankDynamic(pack)] == de;
    }

    /** `basic_mdspan(ptr, m)` and `basic_mdspan(ptr, m, a)`. */
    constructor FromMapping(buf: array<T>, ptr: int, m: Mapping, acc: Accessor)
      requires Layouts.Valid(m)
      ensures Valid() && this.buf == buf && this.ptr == ptr && this.mapping == m && this.acc == acc
    {
      this.acc := acc;
      this.mapping := m;
      this.ptr := ptr;
      this.buf := buf;
    }

    /** The `mdspan<T, E...>` alias: layout_right and accessor_basic. */
    constructor Create(buf: array<T>, ptr: int, pack: seq<int>, values: seq<int>)
      requires |values| == Ext.RankDynamic(pack)
      ensures Valid() && this.buf == buf && this.ptr == ptr && this.acc == AccessorBasic
      ensures mapping == RightMapping(FromDynamicValues(pack, values))
    {
      this.acc := AccessorBasic;
      this.mapping := RightMapping(FromDynamicValues(pack, values));
      this.ptr := ptr;
      this.buf := buf;
    }

    /** The converting constructor: accessor, mapping and handle copied from `other`. */
    constructor Converting(other: Mdspan<T>)
      requires other.Valid()
      ensures Valid() && acc == other.acc && mapping == other.mapping && ptr == other.ptr && buf == other.buf
    {
      this.acc := other.acc;
      this.mapping := other.mapping;
      this.ptr := other.ptr;
      this.buf := other.buf;
    }

    /** The converting assignment: the same three copies into an existing view. */
    method Assign(other: Mdspan<T>)
      requires other.Valid()
      modifies this
      ensures Valid() && acc == old(other.acc) && mapping == old(other.mapping) && ptr == old(other.ptr)
      ensures buf == old(other.buf)
    {
      acc, mapping, ptr, buf := other.acc, other.mapping, other.ptr, other.buf;
    }

    // -------------------------------------------------------------------------
    // Observers
    // -------------------------------------------------------------------------

    function Rank(): nat
      reads this
    {
      |mapping.ext|
    }

    function RankDynamic(): (r: nat)
      reads this
      ensures r <= Rank()
    {
      Ext.RankDynamic(PackOf(mapping.ext))
    }

    /** `static_extent(k)`: the k-th template argument, 1 past the rank. */
    function StaticExtent(k: nat): (s: int)
      reads this
      ensures s == if k < Rank() then PackOf(mapping.ext)[k] else 1
    {
      Ext.StaticExtent(PackOf(mapping.ext), k)
    }

    /** `extent(int k)`: the argument is converted to size_t, so a negative k
        becomes a value far past any rank and answers 1. */
    function Extent(k: int): (n: int)
      reads this
      ensures n == if 0 <= k < Rank() then mapping.ext[k].n else 1
    {
      if k < 0 then 1 else Ext.Extent(mapping.ext, k)
    }

    function GetExtents(): Extents
      reads this
    {
      mapping.ext
    }

    function IsAlwaysUnique(): bool reads this { Layouts.IsAlwaysUnique(KindOf(mapping)) }
    function IsAlwaysContiguous(): bool reads this { Layouts.IsAlwaysContiguous(KindOf(mapping)) }
    function IsAlwaysStrided(): bool reads this { Layouts.IsAlwaysStrided(KindOf(mapping)) }
    function IsUnique(): bool reads this { Layouts.IsUnique(mapping) }
    function IsContiguous(): bool reads this { Layouts.IsContiguous(mapping) }
    function IsStrided(): bool reads this { Layouts.IsStrided(mapping) }

    /** `stride(r)`: the mapping's stride. */
    function Stride(r: nat): int
      reads this
      requires Valid() && (mapping.StrideMapping? ==> r < Rank())
    {
      Layouts.Stride(mapping, r)
    }

    function GetMapping(): Mapping reads this { mapping }
    function GetAccessor(): Accessor reads this { acc }

    /** `data()`. */
    function Data(): int reads this { ptr }

    // -------------------------------------------------------------------------
    // Element access
    // -------------------------------------------------------------------------

    /** The buffer position `operator()(indices...)` refers to:
        `acc.access(ptr, mapping(indices...))`. */
    function Address(idx: seq<int>): int
      reads this
      requires Valid() && |idx| == Rank()
    {
      ElementPosition(acc, ptr, Offset(mapping, idx))
    }

    /** The view's storage fits in the buffer: the handle and the span the
        mapping needs lie inside `buf`. */
    predicate Fits()
      reads this
      requires Valid()
    {
      0 <= ptr && ptr + SpanSize(mapping) <= buf.Length
    }

    /** `operator()(indices...)`, read through the returned reference. */
    method Get(idx: seq<int>) returns (v: T)
      requires Valid() && |idx| == Rank() && 0 <= Address(idx) < buf.Length
      ensures v == buf[Address(idx)]
    {
      var offset := Offset(mapping, idx);
      v := buf[ElementPosition(acc, ptr, offset)];
    }

    /** `operator()(indices...) = v`: a write through the returned reference.
        Only the element at the view's address changes. */
    method Set(idx: seq<int>, v: T)
      requires Valid() && |idx| == Rank() && 0 <= Address(idx) < buf.Length
      modifies buf
      ensures buf[..] == old(buf[..])[Address(idx) := v]
    {
      var offset := Offset(mapping, idx);
      buf[ElementPosition(acc, ptr, offset)] := v;
    }

    /** `operator[](i)` of a rank-1 view. */
    method GetAt(i: int) returns (v: T)
      requires Valid() && Rank() == 1 && 0 <= Address([i]) < buf.Length
      ensures v == buf[Address([i])]
    {
      var offset := Offset(mapping, [i]);
      v := buf[ElementPosition(acc, ptr, offset)];
    }
  }

  /** In a view whose storage fits its buffer, every in-bounds index of a
      layout with non-negative strides addresses an element of the buffer. */
  lemma AddressWithinBuffer<T>(v: Mdspan<T>, idx: seq<int>)
    requires v.Valid() && v.Fits() && InBounds(v.mapping.ext, idx)
    requires forall r | 0 <= r < v.Rank() :: Layouts.Stride(v.mapping, r) >= 0
    ensures 0 <= v.Address(idx) < v.buf.Length
  {
    OffsetWithinSpanSize(v.mapping, idx);
  }

  /** A view built with the `mdspan` alias over a buffer of
      `required_span_size()` elements at position 0 fits it. */
  lemma DenseViewFits<T>(v: Mdspan<T>)
    requires v.Valid() && v.mapping.RightMapping? && v.ptr == 0
    requires v.buf.Length == RequiredSpanSize(v.mapping)
    ensures v.Fits()
  {
  }
}

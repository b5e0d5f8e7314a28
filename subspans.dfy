/** `subspan(src, slices...)`: a view of a part of another view. Each slice
    specifier either keeps a whole dimension (`all`), keeps a half-open range
    `[first, second)` of it, or fixes it at one index, which drops the
    dimension. The result always uses the stride layout and the offset policy
    of the source's accessor. */
module Subspans {

  import opened Outcomes
  import opened Extents
  import opened Layouts
  import opened Accessors
  import opened Views

  datatype Slice = All | Index(v: int) | Range(first: int, second: int)

  /** The number of integer specifiers: dimensions the subspan drops. */
  function IndexCount(slices: seq<Slice>): (c: nat)
    ensures c <= |slices|
  {
    if |slices| == 0 then 0
    else (if slices[0].Index? then 1 else 0) + IndexCount(slices[1..])
  }

  /** The rank of the subspan. */
  function SubRank(slices: seq<Slice>): nat
  {
    |slices| - IndexCount(slices)
  }

  // ---------------------------------------------------------------------------
  // What `compose_new_extents` builds. It walks the specifiers from the first
  // to the last; each specialization appends a piece to the new template
  // arguments, to the run-time values and to the compacted strides, and adds
  // to the offset. The pieces, for one old dimension and its specifier:
  // ---------------------------------------------------------------------------

  /** `all` keeps the old template argument, a range adds a dynamic one, an
      integer adds none. */
  function PackPiece(arg: int, sl: Slice): seq<int>
  {
    match sl
    case All => [arg]
    case Range(_, _) => [DynamicExtent]
    case Index(_) => []
  }

  /** `all` on a dynamic dimension passes the old extent, a range passes
      `second - first`. */
  function ValuePiece(d: Dim, sl: Slice): seq<int>
  {
    match sl
    case All => if d.Dynamic? then [d.n] else []
    case Range(first, second) => [second - first]
    case Index(_) => []
  }

  /** The dimension the subspan gets, if any. */
  function LevelPiece(d: Dim, sl: Slice): seq<Dim>
  {
    match sl
    case All => [d]
    case Range(first, second) => [Dynamic(second - first)]
    case Index(_) => []
  }

  /** A kept dimension keeps its stride. */
  function StridePiece(stride: int, sl: Slice): seq<int>
  {
    if sl.Index? then [] else [stride]
  }

  /** The start of a range, or the fixed index, times the stride. */
  function OffsetPiece(stride: int, sl: Slice): int
  {
    match sl
    case All => 0
    case Range(first, _) => first * stride
    case Index(v) => v * stride
  }

  /** The new template arguments. */
  function SubPack(pack: seq<int>, slices: seq<Slice>): (r: seq<int>)
    requires |slices| == |pack|
    ensures |r| == SubRank(slices)
  {
    if |slices| == 0 then [] else PackPiece(pack[0], slices[0]) + SubPack(pack[1..], slices[1..])
  }

  /** The run-time values of the new extents: one for each dynamic template
      argument of the new extents. */
  function SubDynamicValues(e: Extents, slices: seq<Slice>): (r: seq<int>)
    requires |slices| == |e|
    ensures |r| == RankDynamic(SubPack(PackOf(e), slices))
  {
    if |slices| == 0 then []
    else
      assert PackOf(e)[1..] == PackOf(e[1..]);
      RankDynamicAppend(PackPiece(PackOf(e)[0], slices[0]), SubPack(PackOf(e[1..]), slices[1..]));
      assert [PackOf(e)[0]][1..] == [] && [DynamicExtent][1..] == [];
      ValuePiece(e[0], slices[0]) + SubDynamicValues(e[1..], slices[1..])
  }

  /** The base case of the composition: `extents_type(de...)`, or the default
      constructor when there are no run-time values; both build the extents
      whose dynamic dimensions take the values in order. */
  function BaseExtents(pack: seq<int>, de: seq<int>): (r: Extents)
    requires |de| == RankDynamic(pack)
    ensures r == FromDynamicValues(pack, de)
  {
    if |de| == 0 then
      DefaultIsFromNoValues(pack);
      DefaultExtents(pack)
    else
      FromDynamicValues(pack, de)
  }

  /** The extents of the subspan. */
  function SubExtents(e: Extents, slices: seq<Slice>): Extents
    requires |slices| == |e|
  {
    BaseExtents(SubPack(PackOf(e), slices), SubDynamicValues(e, slices))
  }

  /** The new extents described dimension by dimension: `all` keeps the old
      dimension as it is (static or dynamic, same size), a range becomes a
      dynamic dimension of size `second - first`, an integer disappears. */
  function SubLevels(e: Extents, slices: seq<Slice>): (r: Extents)
    requires |slices| == |e|
    ensures |r| == SubRank(slices)
  {
    if |slices| == 0 then [] else LevelPiece(e[0], slices[0]) + SubLevels(e[1..], slices[1..])
  }

  lemma {:induction false} ComposedLevels(e: Extents, slices: seq<Slice>)
    requires |slices| == |e|
    ensures FromDynamicValues(SubPack(PackOf(e), slices), SubDynamicValues(e, slices)) == SubLevels(e, slices)
  {
    if |slices| > 0 {
      ComposedHead(e, slices);
      ComposedLevels(e[1..], slices[1..]);
    }
  }

  /** The first specifier's dimension comes first in the composed extents. */
  lemma ComposedHead(e: Extents, slices: seq<Slice>)
    requires |slices| == |e| > 0
    ensures PackOf(e)[1..] == PackOf(e[1..])
    ensures FromDynamicValues(SubPack(PackOf(e), slices), SubDynamicValues(e, slices)) ==
      LevelPiece(e[0], slices[0]) + FromDynamicValues(SubPack(PackOf(e[1..]), slices[1..]), SubDynamicValues(e[1..], slices[1..]))
  {
    assert PackOf(e)[1..] == PackOf(e[1..]);
    var arg := PackOf(e)[0];
    var pp, vp := PackPiece(arg, slices[0]), ValuePiece(e[0], slices[0]);
    PieceLevel(e[0], arg, slices[0]);
    FromDynamicValuesAppend(pp, vp, SubPack(PackOf(e[1..]), slices[1..]), SubDynamicValues(e[1..], slices[1..]));
  }

  /** One specifier's argument and value pieces build its dimension piece. */
  lemma PieceLevel(d: Dim, arg: int, sl: Slice)
    requires arg == if d.Static? then d.n else DynamicExtent
    requires d.Static? ==> d.n != DynamicExtent
    ensures |ValuePiece(d, sl)| == RankDynamic(PackPiece(arg, sl))
    ensures FromDynamicValues(PackPiece(arg, sl), ValuePiece(d, sl)) == LevelPiece(d, sl)
  {
    assert [arg][1..] == [] && [DynamicExtent][1..] == [];
  }

  /** The extents the composition builds are exactly the dimension-by-dimension
      description. */
  lemma SubExtentsAreLevels(e: Extents, slices: seq<Slice>)
    requires |slices| == |e|
    ensures SubExtents(e, slices) == SubLevels(e, slices)
  {
    ComposedLevels(e, slices);
  }

  // ---------------------------------------------------------------------------
  // Strides, offset and the element law
  // ---------------------------------------------------------------------------

  /** The strides of the kept dimensions, in order: what `create_sub_extents`
      leaves at the front of the stride array. */
  function CompactStrides(s: seq<int>, slices: seq<Slice>): (r: seq<int>)
    requires |slices| == |s|
    ensures |r| == SubRank(slices)
  {
    if |slices| == 0 then [] else StridePiece(s[0], slices[0]) + CompactStrides(s[1..], slices[1..])
  }

  /** The offset the specifiers add up. */
  function SubOffset(s: seq<int>, slices: seq<Slice>): int
    requires |slices| == |s|
  {
    if |slices| == 0 then 0 else OffsetPiece(s[0], slices[0]) + SubOffset(s[1..], slices[1..])
  }

  /** The source index that a subspan index stands for: kept dimensions take
      the next subspan index (shifted by `first` for a range), dropped ones
      their fixed value. */
  function Reconstruct(slices: seq<Slice>, j: seq<int>): (idx: seq<int>)
    requires |j| == SubRank(slices)
    ensures |idx| == |slices|
  {
    if |slices| == 0 then []
    else
      match slices[0]
      case All => [j[0]] + Reconstruct(slices[1..], j[1..])
      case Range(first, _) => [first + j[0]] + Reconstruct(slices[1..], j[1..])
      case Index(v) => [v] + Reconstruct(slices[1..], j)
  }

  /** The element law in terms of strides: the source offset of the
      reconstructed index is the subspan's offset plus the subspan index
      weighted by the compacted strides. */
  lemma {:induction false} ElementLaw(s: seq<int>, slices: seq<Slice>, j: seq<int>)
    requires |s| == |slices| && |j| == SubRank(slices)
    ensures Dot(Reconstruct(slices, j), s) == SubOffset(s, slices) + Dot(j, CompactStrides(s, slices))
  {
    if |slices| > 0 {
      var r, c := Reconstruct(slices, j), CompactStrides(s, slices);
      match slices[0]
      case Index(v) =>
        ElementLaw(s[1..], slices[1..], j);
        assert r[1..] == Reconstruct(slices[1..], j);
        assert c == [] + CompactStrides(s[1..], slices[1..]) == CompactStrides(s[1..], slices[1..]);
        assert r[0] == v;
      case All =>
        ElementLaw(s[1..], slices[1..], j[1..]);
        assert r[1..] == Reconstruct(slices[1..], j[1..]);
        assert c[1..] == CompactStrides(s[1..], slices[1..]);
      case Range(first, _) =>
        ElementLaw(s[1..], slices[1..], j[1..]);
        assert r[1..] == Reconstruct(slices[1..], j[1..]);
        assert c[1..] == CompactStrides(s[1..], slices[1..]);
        Distribute(first, j[0], s[0]);
    }
  }

  lemma Distribute(a: int, b: int, c: int)
    ensures (a + b) * c == a * c + b * c
  {
  }

  // ---------------------------------------------------------------------------
  // subspan
  // ---------------------------------------------------------------------------

  /** `create_sub_extents`: walks the specifiers once, compacting the strides
      of the kept dimensions to the front of `strides`, adding up the offset,
      and collecting the new template arguments and run-time values; at the
      end it builds the new extents. */
  method CreateSubExtents(e: Extents, strides: array<int>, slices: seq<Slice>) returns (sub: Extents, offset: int)
    requires strides.Length == |e| == |slices|
    modifies strides
    ensures sub == SubExtents(e, slices)
    ensures offset == SubOffset(old(strides[..]), slices)
    ensures strides[..SubRank(slices)] == CompactStrides(old(strides[..]), slices)
    ensures strides[SubRank(slices)..] == old(strides[..])[SubRank(slices)..]
  {
    ghost var orig := strides[..];
    var pack, de, w;
    pack, de, offset, w := WalkSpecifiers(e, strides, slices);
    WalkEnds(e, orig, slices, pack, de, strides[..], w, offset);
    sub := BaseExtents(pack, de);
  }

  /** The loop of `create_sub_extents`: one `ComposeStep` per specifier. */
  method WalkSpecifiers(e: Extents, strides: array<int>, slices: seq<Slice>)
    returns (pack: seq<int>, de: seq<int>, offset: int, w: nat)
    requires strides.Length == |e| == |slices|
    modifies strides
    ensures Walked(e, old(strides[..]), slices, |slices|, pack, de, strides[..], w, offset)
  {
    ghost var orig := strides[..];
    pack, de, offset, w := [], [], 0, 0;
    var pos: nat := 0;
    while pos < |slices|
      invariant pos <= |slices|
      invariant Walked(e, orig, slices, pos, pack, de, strides[..], w, offset)
    {
      ghost var before := strides[..];
      var pack', de', offset', w' := ComposeStep(e, strides, slices, pos, pack, de, offset, w);
      StepWalked(e, orig, slices, pos, pack, de, before, w, offset, pack', de', strides[..], w', offset');
      pack, de, offset, w, pos := pack', de', offset', w', pos + 1;
    }
  }

  /** What the walk has achieved after the first `pos` specifiers: followed
      by the descriptions of the specifiers still to come, what has been
      built makes up the descriptions of all of them; and the stride array is
      untouched past the `w` strides kept so far. */
  ghost predicate Walked(e: Extents, orig: seq<int>, slices: seq<Slice>, pos: nat,
                         pack: seq<int>, de: seq<int>, strides: seq<int>, w: nat, offset: int)
    requires |orig| == |e| == |slices| && pos <= |slices|
  {
    BuiltWalked(e, slices, pos, pack, de) && ArrayWalked(orig, slices, pos, strides, w, offset)
  }

  /** The template arguments and run-time values collected so far. */
  ghost predicate BuiltWalked(e: Extents, slices: seq<Slice>, pos: nat, pack: seq<int>, de: seq<int>)
    requires |e| == |slices| && pos <= |slices|
  {
    PackWalked(PackOf(e), slices, pos, pack) && ValuesWalked(e, slices, pos, de)
  }

  /** The stride array and the offset so far. */
  ghost predicate ArrayWalked(orig: seq<int>, slices: seq<Slice>, pos: nat, strides: seq<int>, w: nat, offset: int)
    requires |orig| == |slices| && pos <= |slices|
  {
    StridesWalked(orig, slices, pos, strides, w) && OffsetWalked(orig, slices, pos, offset)
  }

  ghost predicate PackWalked(full: seq<int>, slices: seq<Slice>, pos: nat, pack: seq<int>)
    requires |full| == |slices| && pos <= |slices|
  {
    pack + SubPack(full[pos..], slices[pos..]) == SubPack(full, slices)
  }

  ghost predicate ValuesWalked(e: Extents, slices: seq<Slice>, pos: nat, de: seq<int>)
    requires |e| == |slices| && pos <= |slices|
  {
    de + SubDynamicValues(e[pos..], slices[pos..]) == SubDynamicValues(e, slices)
  }

  ghost predicate StridesWalked(orig: seq<int>, slices: seq<Slice>, pos: nat, strides: seq<int>, w: nat)
    requires |orig| == |slices| && pos <= |slices|
  {
    && w <= pos && |strides| == |orig|
    && strides[..w] + CompactStrides(orig[pos..], slices[pos..]) == CompactStrides(orig, slices)
    && strides[w..] == orig[w..]
  }

  ghost predicate OffsetWalked(orig: seq<int>, slices: seq<Slice>, pos: nat, offset: int)
    requires |orig| == |slices| && pos <= |slices|
  {
    offset + SubOffset(orig[pos..], slices[pos..]) == SubOffset(orig, slices)
  }

  lemma WalkAdvances(e: Extents, orig: seq<int>, slices: seq<Slice>, pos: nat,
                     pack: seq<int>, de: seq<int>, strides: seq<int>, w: nat, offset: int, strides': seq<int>)
    requires |orig| == |e| == |slices| && pos < |slices|
    requires Walked(e, orig, slices, pos, pack, de, strides, w, offset)
    requires strides' == if slices[pos].Index? then strides else strides[w := strides[pos]]
    ensures Walked(e, orig, slices, pos + 1, pack + PackPiece(PackOf(e)[pos], slices[pos]),
                   de + ValuePiece(e[pos], slices[pos]), strides',
                   w + |StridePiece(strides[pos], slices[pos])|, offset + OffsetPiece(strides[pos], slices[pos]))
  {
    BuiltAdvances(e, slices, pos, pack, de);
    ArrayAdvances(orig, slices, pos, strides, w, offset, strides');
  }

  /** The walk invariant after one step, stated over exactly what
      `ComposeStep` promises. */
  lemma StepWalked(e: Extents, orig: seq<int>, slices: seq<Slice>, pos: nat,
                   pack: seq<int>, de: seq<int>, strides: seq<int>, w: nat, offset: int,
                   pack': seq<int>, de': seq<int>, strides': seq<int>, w': nat, offset': int)
    requires |orig| == |e| == |slices| == |strides| && w <= pos < |slices|
    requires Walked(e, orig, slices, pos, pack, de, strides, w, offset)
    requires pack' == pack + PackPiece(PackOf(e)[pos], slices[pos])
    requires de' == de + ValuePiece(e[pos], slices[pos])
    requires offset' == offset + OffsetPiece(strides[pos], slices[pos])
    requires w' == w + |StridePiece(strides[pos], slices[pos])|
    requires strides' == if slices[pos].Index? then strides else strides[w := strides[pos]]
    ensures Walked(e, orig, slices, pos + 1, pack', de', strides', w', offset')
  {
    WalkAdvances(e, orig, slices, pos, pack, de, strides, w, offset, strides');
  }

  lemma BuiltAdvances(e: Extents, slices: seq<Slice>, pos: nat, pack: seq<int>, de: seq<int>)
    requires |e| == |slices| && pos < |slices| && BuiltWalked(e, slices, pos, pack, de)
    ensures BuiltWalked(e, slices, pos + 1, pack + PackPiece(PackOf(e)[pos], slices[pos]), de + ValuePiece(e[pos], slices[pos]))
  {
    PackAdvances(PackOf(e), slices, pos, pack);
    ValuesAdvances(e, slices, pos, de);
  }

  lemma ArrayAdvances(orig: seq<int>, slices: seq<Slice>, pos: nat, strides: seq<int>, w: nat, offset: int, strides': seq<int>)
    requires |orig| == |slices| && pos < |slices| && ArrayWalked(orig, slices, pos, strides, w, offset)
    requires strides' == if slices[pos].Index? then strides else strides[w := strides[pos]]
    ensures ArrayWalked(orig, slices, pos + 1, strides', w + |StridePiece(strides[pos], slices[pos])|,
                        offset + OffsetPiece(strides[pos], slices[pos]))
  {
    StrideUntouched(orig, slices, pos, strides, w);
    StridesAdvances(orig, slices, pos, strides, w, strides', w + |StridePiece(strides[pos], slices[pos])|);
    OffsetAdvances(orig, slices, pos, offset, strides[pos]);
  }

  /** The stride of the dimension the walk is at has not been overwritten yet. */
  lemma StrideUntouched(orig: seq<int>, slices: seq<Slice>, pos: nat, strides: seq<int>, w: nat)
    requires |orig| == |slices| && pos < |slices| && StridesWalked(orig, slices, pos, strides, w)
    ensures strides[pos] == orig[pos]
  {
    assert strides[w..][pos - w] == orig[w..][pos - w];
  }

  /** The argument piece of `slices[pos]` moves onto what has been built. */
  lemma PackAdvances(full: seq<int>, slices: seq<Slice>, pos: nat, pack: seq<int>)
    requires |full| == |slices| && pos < |slices| && PackWalked(full, slices, pos, pack)
    ensures PackWalked(full, slices, pos + 1, pack + PackPiece(full[pos], slices[pos]))
  {
    var piece, later := PackPiece(full[pos], slices[pos]), SubPack(full[pos + 1..], slices[pos + 1..]);
    assert full[pos..][1..] == full[pos + 1..] && slices[pos..][1..] == slices[pos + 1..];
    assert SubPack(full[pos..], slices[pos..]) == piece + later;
    assert pack + (piece + later) == (pack + piece) + later;
  }

  /** The value piece of `slices[pos]` moves onto what has been built. */
  lemma ValuesAdvances(e: Extents, slices: seq<Slice>, pos: nat, de: seq<int>)
    requires |e| == |slices| && pos < |slices| && ValuesWalked(e, slices, pos, de)
    ensures ValuesWalked(e, slices, pos + 1, de + ValuePiece(e[pos], slices[pos]))
  {
    var tail: Extents, rest: Extents := e[pos..], e[pos + 1..];
    var piece, later := ValuePiece(e[pos], slices[pos]), SubDynamicValues(rest, slices[pos + 1..]);
    assert tail[1..] == rest && slices[pos..][1..] == slices[pos + 1..];
    ValuesUnfold(tail, slices[pos..]);
    assert de + (piece + later) == (de + piece) + later;
  }

  lemma ValuesUnfold(e: Extents, slices: seq<Slice>)
    requires |e| == |slices| > 0
    ensures SubDynamicValues(e, slices) == ValuePiece(e[0], slices[0]) + SubDynamicValues(e[1..], slices[1..])
  {
  }

  /** The stride piece of `slices[pos]` lands after the strides kept so far. */
  lemma StridesAdvances(orig: seq<int>, slices: seq<Slice>, pos: nat, strides: seq<int>, w: nat, strides': seq<int>, w': nat)
    requires |orig| == |slices| && pos < |slices| && StridesWalked(orig, slices, pos, strides, w)
    requires strides' == if slices[pos].Index? then strides else strides[w := strides[pos]]
    requires w' == w + |StridePiece(orig[pos], slices[pos])|
    ensures StridesWalked(orig, slices, pos + 1, strides', w')
  {
    var piece, later := StridePiece(orig[pos], slices[pos]), CompactStrides(orig[pos + 1..], slices[pos + 1..]);
    var total := CompactStrides(orig, slices);
    assert strides[..w] + CompactStrides(orig[pos..], slices[pos..]) == total;
    KeepStride(strides, strides', orig, w, pos, slices[pos], w');
    CompactUnfold(orig, slices, pos);
    PrefixStep(strides[..w], strides'[..w'], piece, later, total);
  }

  /** A piece moved from the part still to come onto the part done. */
  lemma PrefixStep(done: seq<int>, done': seq<int>, piece: seq<int>, later: seq<int>, total: seq<int>)
    requires done' == done + piece && done + (piece + later) == total
    ensures done' + later == total
  {
    assert done + (piece + later) == (done + piece) + later;
  }

  lemma CompactUnfold(orig: seq<int>, slices: seq<Slice>, pos: nat)
    requires |orig| == |slices| && pos < |slices|
    ensures CompactStrides(orig[pos..], slices[pos..])
         == StridePiece(orig[pos], slices[pos]) + CompactStrides(orig[pos + 1..], slices[pos + 1..])
  {
    assert orig[pos..][1..] == orig[pos + 1..] && slices[pos..][1..] == slices[pos + 1..];
  }

  /** The offset piece of `slices[pos]` is added to the offset. */
  lemma OffsetAdvances(orig: seq<int>, slices: seq<Slice>, pos: nat, offset: int, stride: int)
    requires |orig| == |slices| && pos < |slices| && OffsetWalked(orig, slices, pos, offset)
    requires stride == orig[pos]
    ensures OffsetWalked(orig, slices, pos + 1, offset + OffsetPiece(stride, slices[pos]))
  {
    assert orig[pos..][1..] == orig[pos + 1..] && slices[pos..][1..] == slices[pos + 1..];
  }

  lemma WalkEnds(e: Extents, orig: seq<int>, slices: seq<Slice>,
                 pack: seq<int>, de: seq<int>, strides: seq<int>, w: nat, offset: int)
    requires |orig| == |e| == |slices|
    requires Walked(e, orig, slices, |slices|, pack, de, strides, w, offset)
    ensures pack == SubPack(PackOf(e), slices) && de == SubDynamicValues(e, slices)
    ensures offset == SubOffset(orig, slices) && w == SubRank(slices)
    ensures strides[..w] == CompactStrides(orig, slices) && strides[w..] == orig[w..]
  {
    var n := |slices|;
    assert slices[n..] == [] && e[n..] == [] && orig[n..] == [] && PackOf(e)[n..] == [];
    assert pack == pack + [];
    assert de == de + [];
    assert strides[..w] == strides[..w] + [];
  }

  /** One specialization of `compose_new_extents` at work on the specifier of
      dimension `pos`, while `w` dimensions have been kept so far. */
  method ComposeStep(e: Extents, strides: array<int>, slices: seq<Slice>, pos: nat,
                     pack: seq<int>, de: seq<int>, offset: int, w: nat)
    returns (pack': seq<int>, de': seq<int>, offset': int, w': nat)
    requires strides.Length == |e| == |slices| && w <= pos < |slices|
    modifies strides
    ensures pack' == pack + PackPiece(PackOf(e)[pos], slices[pos])
    ensures de' == de + ValuePiece(e[pos], slices[pos])
    ensures offset' == offset + OffsetPiece(old(strides[..])[pos], slices[pos])
    ensures w' == w + |StridePiece(old(strides[..])[pos], slices[pos])|
    ensures strides[..] == if slices[pos].Index? then old(strides[..]) else old(strides[..])[w := old(strides[..])[pos]]
  {
    pack', de', offset', w' := pack, de, offset, w;
    match slices[pos] {
      case All =>
        strides[w] := strides[pos];
        pack' := pack + [PackOf(e)[pos]];
        if e[pos].Dynamic? {
          de' := de + [e[pos].n];
        }
        w' := w + 1;
      case Range(first, second) =>
        strides[w] := strides[pos];
        offset' := offset + first * strides[pos];
        pack' := pack + [DynamicExtent];
        de' := de + [second - first];
        w' := w + 1;
      case Index(v) =>
        offset' := offset + v * strides[pos];
    }
  }

  /** What one step does to the stride array: a kept dimension's stride lands
      just after the strides kept so far, and nothing past them changes. */
  lemma KeepStride(before: seq<int>, after: seq<int>, orig: seq<int>, w: nat, pos: nat, sl: Slice, w': nat)
    requires |before| == |orig| && w <= pos < |orig| && before[w..] == orig[w..]
    requires after == if sl.Index? then before else before[w := before[pos]]
    requires w' == w + |StridePiece(orig[pos], sl)|
    ensures after[..w'] == before[..w] + StridePiece(orig[pos], sl)
    ensures after[w'..] == orig[w'..]
  {
    assert before[pos] == orig[pos] by {
      assert before[w..][pos - w] == orig[w..][pos - w];
    }
    if !sl.Index? {
      assert after[w + 1..] == before[w + 1..] by {
        assert forall k | w + 1 <= k < |after| :: after[k] == before[k];
      }
      assert before[w + 1..] == before[w..][1..];
      assert orig[w + 1..] == orig[w..][1..];
    }
  }

  /** `subspan(src, slices...)`: the source strides go into an array, the
      walk compacts them and adds up the offset, the first `rank` of them
      become the strides of a `layout_stride` mapping over the new extents,
      and the handle moves by the offset through the accessor. Every element
      of the subspan is the element of `src` at the reconstructed index. */
  method Subspan<T>(src: Mdspan<T>, slices: seq<Slice>) returns (sub: Mdspan<T>)
    requires src.Valid() && |slices| == src.Rank()
    ensures fresh(sub) && sub.Valid()
    ensures sub.buf == src.buf && sub.acc == OffsetPolicy(src.acc)
    ensures sub.mapping == StrideMapping(SubExtents(src.mapping.ext, slices),
                                         CompactStrides(Strides(src.mapping), slices),
                                         IsContiguousStrides(SubExtents(src.mapping.ext, slices),
                                                             CompactStrides(Strides(src.mapping), slices)))
    ensures sub.ptr == HandleOffset(src.acc, src.ptr, SubOffset(Strides(src.mapping), slices))
    ensures forall j | |j| == sub.Rank() :: sub.Address(j) == src.Address(Reconstruct(slices, j))
  {
    var strides := SourceStrides(src.mapping);
    var subExtents, offset := CreateSubExtents(src.mapping.ext, strides, slices);
    SubExtentsAreLevels(src.mapping.ext, slices);
    var subStrides := KeptStrides(strides, SubRank(slices));
    var ptr := HandleOffset(src.acc, src.ptr, offset);
    var m := NewStrideMapping(subExtents, subStrides);
    sub := new Mdspan.FromMapping(src.buf, ptr, m, OffsetPolicy(src.acc));
    forall j | |j| == sub.Rank()
      ensures sub.Address(j) == src.Address(Reconstruct(slices, j))
    {
      SubspanAddress(src.mapping, slices, m, j);
    }
  }

  /** The stride array `subspan` fills from `src.stride(r)`, dimension by dimension. */
  method SourceStrides(m: Mapping) returns (strides: array<int>)
    requires Layouts.Valid(m)
    ensures fresh(strides) && strides[..] == Strides(m)
  {
    strides := new int[|m.ext|];
    var r := 0;
    while r < |m.ext|
      invariant 0 <= r <= |m.ext|
      invariant forall k | 0 <= k < r :: strides[k] == Layouts.Stride(m, k)
    {
      strides[r] := ComputeStride(m, r);
      r := r + 1;
    }
  }

  /** The first `rank` entries of the walked stride array, copied one by one
      into the strides of the subspan's mapping. */
  method KeptStrides(strides: array<int>, rank: nat) returns (kept: seq<int>)
    requires rank <= strides.Length
    ensures kept == strides[..rank]
  {
    kept := [];
    var r := 0;
    while r < rank
      invariant 0 <= r <= rank
      invariant kept == strides[..r]
    {
      kept := kept + [strides[r]];
      r := r + 1;
    }
  }

  /** The element law of `subspan`: the subspan's mapping of `j` is the
      subspan's offset away from the source mapping of the reconstructed
      index. */
  lemma SubspanAddress(src: Mapping, slices: seq<Slice>, m: Mapping, j: seq<int>)
    requires Layouts.Valid(src) && |slices| == |src.ext|
    requires Layouts.Valid(m) && m.StrideMapping? && m.strides == CompactStrides(Strides(src), slices)
    requires |j| == |m.ext| == SubRank(slices)
    ensures Offset(src, Reconstruct(slices, j)) == SubOffset(Strides(src), slices) + Offset(m, j)
  {
    OffsetIsStrided(src, Reconstruct(slices, j));
    OffsetIsStrided(m, j);
    assert Strides(m) == m.strides;
    ElementLaw(Strides(src), slices, j);
  }

  // ---------------------------------------------------------------------------
  // The older `subspan_deduction`
  // ---------------------------------------------------------------------------

  /** The type the older deduction names: a layout (none stands for `void`),
      the template arguments of the extents, and the accessor. */
  datatype DeducedView = DeducedView(layout: Option<LayoutKind>, pack: seq<int>, acc: Accessor)

  /** `sum(is_slice_range<SliceSpecifiers>::value...)`: the number of range
      specifiers. */
  function RangeCount(slices: seq<Slice>): nat
  {
    if |slices| == 0 then 0 else (if slices[0].Range? then 1 else 0) + RangeCount(slices[1..])
  }

  /** The older deduction only knows integers and two-element lists. */
  predicate OlderSpecifiers(slices: seq<Slice>)
  {
    forall k | 0 <= k < |slices| :: !slices[k].All?
  }

  /** `subspan_deduction<T, Extents, LayoutPolicy, Accessor, Slices...>::type`,
      or none where the deduction does not compile: the number of specifiers
      must be the rank, every specifier must be an integer or a list, and
      only ranks 1 to 3 have an all-dynamic extents type. The layout becomes
      `layout_stride` for the right, left and stride layouts and `void`
      otherwise; the accessor is kept. */
  function OlderSubspanDeduction(kind: LayoutKind, rank: nat, acc: Accessor, slices: seq<Slice>): (r: Option<DeducedView>)
    ensures r.Some? <==> |slices| == rank && OlderSpecifiers(slices) && 1 <= SubRank(slices) <= 3
    ensures r.Some? ==> r.value.acc == acc && |r.value.pack| == SubRank(slices)
    ensures r.Some? ==> forall k | 0 <= k < |r.value.pack| :: r.value.pack[k] == DynamicExtent
    ensures r.Some? ==> (r.value.layout.None? <==> kind == LayoutNone)
    ensures r.Some? && r.value.layout.Some? ==> r.value.layout.value == LayoutStride
  {
    if |slices| != rank || exists k | 0 <= k < |slices| :: slices[k].All? then None
    else
      var count := RangeCount(slices);
      RangeCountIsRank(slices);
      if count < 1 || 3 < count then None
      else
        var layout := if kind == LayoutLeft || kind == LayoutRight || kind == LayoutStride then Some(LayoutStride) else None;
        assert kind == LayoutNone ==> layout.None?;
        assert kind != LayoutNone ==> layout.Some?;
        Some(DeducedView(layout, seq(count, _ => DynamicExtent), acc))
  }

  /** Without `all`, every kept dimension comes from a range. */
  lemma {:induction false} RangeCountIsRank(slices: seq<Slice>)
    requires OlderSpecifiers(slices)
    ensures RangeCount(slices) == SubRank(slices)
  {
    if |slices| > 0 {
      assert OlderSpecifiers(slices[1..]) by {
        forall k | 0 <= k < |slices[1..]| ensures !slices[1..][k].All? {
          assert slices[1..][k] == slices[k + 1];
        }
      }
      RangeCountIsRank(slices[1..]);
    }
  }

  /** Where the older deduction compiles, its extents are those the newer
      composition deduces for the same specifiers. */
  lemma {:induction false} OlderDeductionAgrees(kind: LayoutKind, pack: seq<int>, acc: Accessor, slices: seq<Slice>)
    requires |slices| == |pack| && OlderSubspanDeduction(kind, |pack|, acc, slices).Some?
    ensures OlderSubspanDeduction(kind, |pack|, acc, slices).value.pack == SubPack(pack, slices)
  {
    OnlyDynamicArguments(pack, slices);
  }

  lemma {:induction false} OnlyDynamicArguments(pack: seq<int>, slices: seq<Slice>)
    requires |slices| == |pack| && OlderSpecifiers(slices)
    ensures forall k | 0 <= k < |SubPack(pack, slices)| :: SubPack(pack, slices)[k] == DynamicExtent
  {
    if |slices| > 0 {
      assert OlderSpecifiers(slices[1..]) by {
        forall k | 0 <= k < |slices[1..]| ensures !slices[1..][k].All? {
          assert slices[1..][k] == slices[k + 1];
        }
      }
      OnlyDynamicArguments(pack[1..], slices[1..]);
    }
  }
}

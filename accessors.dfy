/** Accessor policies: how a view turns its data handle and an offset into a
    reference. Handles are modelled as positions in the view's buffer
    (element units); both policies are stateless. */
module Accessors {

  import opened Outcomes

  /** `accessor_basic<T>` and the older `aligned_access_policy<T, N>`. Only the
      latter's member bodies are modelled: its `reference` type is taken from
      a raw pointer, so the class itself does not compile. */
  datatype Accessor = AccessorBasic | AlignedAccessPolicy(align: nat)

  /** `offset_policy`: the policy that goes with a handle moved by `offset`.
      accessor_basic names itself; aligned_access_policy names accessor_basic,
      because a moved handle is no longer known to be aligned. */
  function OffsetPolicy(a: Accessor): Accessor
  {
    AccessorBasic
  }

  /** `offset(p, i)`: the handle i elements further on. */
  function HandleOffset(a: Accessor, p: int, i: int): int
  {
    p + i
  }

  /** `access(p, i)` (`deref(h, i)` in the older policies): the position of
      the element the returned reference designates. */
  function ElementPosition(a: Accessor, p: int, i: int): int
  {
    p + i
  }

  /** `decay(p)`: the plain pointer behind a handle. */
  function Decay(a: Accessor, p: int): int
  {
    p
  }

  /** Accessing j through a handle moved by i (with the offset policy) reaches
      the element i + j from the original handle, and decaying keeps the
      position. */
  lemma OffsetThenAccess(a: Accessor, p: int, i: int, j: int)
    ensures ElementPosition(OffsetPolicy(a), HandleOffset(a, p, i), j) == ElementPosition(a, p, i + j)
    ensures ElementPosition(a, Decay(a, p), i) == ElementPosition(a, p, i)
  {
  }

  // ---------------------------------------------------------------------------
  // aligned_accessor<T, N>: a pointer wrapper checked for alignment
  // ---------------------------------------------------------------------------

  const SizeTModulus: int := 0x1_0000_0000_0000_0000

  /** The two static assertions on the template arguments: `N & (N - 1) == 0`
      in size_t arithmetic (N is zero or a power of two) and `N % sizeof(T) == 0`. */
  predicate AlignmentAdmissible(align: nat, elementSize: nat)
  {
    align < SizeTModulus && elementSize > 0 &&
    (align as bv64) & ((align as bv64) - 1) == 0 && align % elementSize == 0
  }

  /** The wrapped pointer as a byte address, with the type's alignment N and
      sizeof(T). */
  datatype AlignedPointer = AlignedPointer(address: nat, align: nat, elementSize: nat)

  /** `aligned_accessor(T* other)`: asserts that the address is a multiple of
      N. (For N == 0 the remainder is undefined, so N > 0 is required.) */
  function MakeAlignedPointer(address: nat, align: nat, elementSize: nat): (r: Checked<AlignedPointer>)
    requires AlignmentAdmissible(align, elementSize) && align > 0
    ensures r.Ok? <==> address % align == 0
    ensures r.Ok? ==> r.value == AlignedPointer(address, align, elementSize)
  {
    if address % align == 0 then Ok(AlignedPointer(address, align, elementSize)) else AssertionFailed
  }

  /** `operator T*()`. */
  function ToPointer(p: AlignedPointer): nat
  {
    p.address
  }

  /** The byte address of element i: what `operator[](i)` refers to and what
      `operator+(i)` returns, as a plain pointer. */
  function ElementAddress(p: AlignedPointer, i: nat): nat
  {
    p.address + i * p.elementSize
  }

  lemma MulAtLeast(n: int, k: int)
    requires n > 0 && k >= 1
    ensures n * k >= n
  {
  }

  /** Euclidean division has one remainder. */
  lemma ModUnique(x: int, n: int, d: int, r: int)
    requires n > 0 && x == n * d + r && 0 <= r < n
    ensures x % n == r
  {
    var d2, r2 := x / n, x % n;
    assert x == n * d2 + r2;
    assert n * (d2 - d) == r - r2;
    if d2 - d >= 1 { MulAtLeast(n, d2 - d); }
    if d - d2 >= 1 { MulAtLeast(n, d - d2); }
  }

  lemma ModAddMultiple(a: int, b: int, n: int)
    requires n > 0 && a % n == 0
    ensures (a + b) % n == b % n
  {
    var qa, qb := a / n, b / n;
    assert a == n * qa;
    assert b == n * qb + b % n;
    assert a + b == n * (qa + qb) + b % n;
    ModUnique(a + b, n, qa + qb, b % n);
  }

  /** A pointer that passed the alignment check keeps alignment under `+ i`
      exactly when `i * sizeof(T)` is a multiple of N: in general offsetting
      loses the guarantee, which is why the result is a plain pointer. */
  lemma OffsetKeepsAlignmentIff(address: nat, align: nat, elementSize: nat, i: nat)
    requires AlignmentAdmissible(align, elementSize) && align > 0
    requires MakeAlignedPointer(address, align, elementSize).Ok?
    ensures var p := MakeAlignedPointer(address, align, elementSize).value;
      ElementAddress(p, i) % align == 0 <==> (i * elementSize) % align == 0
  {
    var p := MakeAlignedPointer(address, align, elementSize).value;
    var step := i * elementSize;
    assert p == AlignedPointer(address, align, elementSize);
    assert ElementAddress(p, i) == address + step;
    ModAddMultiple(address, step, align);
  }

  /** With N = 8 and sizeof(T) = 4 (admissible), the aligned pointer at 0 moved
      by one element is at 4, which is not aligned; an address of 4 fails the
      constructor's check. */
  lemma OffsetLosesAlignmentExample()
    ensures AlignmentAdmissible(8, 4)
    ensures MakeAlignedPointer(0, 8, 4).Ok?
    ensures ElementAddress(MakeAlignedPointer(0, 8, 4).value, 1) % 8 != 0
    ensures MakeAlignedPointer(4, 8, 4).AssertionFailed?
  {
    assert (8 as bv64) & ((8 as bv64) - 1) == 0;
  }

  /** N = 12 is rejected (not a power of two), and so is N = 2 for a 4-byte type. */
  lemma InadmissibleAlignments()
    ensures !AlignmentAdmissible(12, 4)
    ensures !AlignmentAdmissible(2, 4)
  {
    assert (12 as bv64) & ((12 as bv64) - 1) == 8;
  }
}

/** 32-bit machine words and serial-number arithmetic.

    Sequence numbers and millisecond timestamps are u32 values that wrap. The engine's
    specification is written once for two arithmetics of sequence numbers: `Wrapping` is what
    the program runs, `Exact` numbers segments by unbounded integers. */
module Word {

  const M32: int := 0x1_0000_0000
  const HALF: int := 0x8000_0000
  const U32_MAX: u32 := 0xFFFF_FFFF

  type byte = x: int | 0 <= x < 0x100
  type u16 = x: int | 0 <= x < 0x1_0000
  type u32 = x: int | 0 <= x < 0x1_0000_0000
  type Bytes = seq<byte>

  /** An `as u32` cast, and the value of a wrapping u32 operation. */
  function U(x: int): (r: u32)
    ensures 0 <= x < M32 ==> r == x
  {
    x % M32
  }

  /** An `as i32` cast of a 32-bit word. */
  function Signed(x: int): (r: int)
    ensures -HALF <= r < HALF
    ensures -HALF <= x < HALF ==> r == x
  {
    if U(x) < HALF then U(x) else U(x) - M32
  }

  function TimeDiff(later: int, earlier: int): (r: int)
    ensures -HALF <= r < HALF
  {
    Signed(later - earlier)
  }

  predicate SeqBefore(seq1: int, seq2: int) {
    TimeDiff(seq1, seq2) < 0
  }

  predicate SeqAfter(seq1: int, seq2: int) {
    TimeDiff(seq1, seq2) > 0
  }

  function Min(x: int, y: int): int {
    if x <= y then x else y
  }

  function Max(x: int, y: int): int {
    if x <= y then y else x
  }

  /** Division rounding up. */
  function DivCeil(x: int, y: int): (r: int)
    requires y > 0
    ensures x >= 0 ==> r >= 0
  {
    if x % y == 0 then x / y else x / y + 1
  }

  // ---- The two arithmetics of sequence numbers ----

  datatype Arith = Wrapping | Exact

  function Add(m: Arith, x: int, n: int): int {
    if m.Wrapping? then U(x + n) else x + n
  }

  function Diff(m: Arith, x: int, y: int): int {
    if m.Wrapping? then TimeDiff(x, y) else x - y
  }

  predicate Before(m: Arith, x: int, y: int) {
    Diff(m, x, y) < 0
  }

  predicate After(m: Arith, x: int, y: int) {
    Diff(m, x, y) > 0
  }

  /** The distance from `base` up to `x`; under wrapping it is always a u32. */
  function Off(m: Arith, x: int, base: int): int {
    if m.Wrapping? then U(x - base) else x - base
  }

  /** A value a sequence-number field can hold. */
  predicate Canonical(m: Arith, x: int) {
    m.Wrapping? ==> 0 <= x < M32
  }

  /** Adding whole turns of the circle changes nothing. */
  lemma WholeTurns(x: int, k: int)
    ensures U(x + k * M32) == U(x)
  {
    assert (x + k * M32) / M32 == x / M32 + k;
  }

  /** Wrapping the operands first does not change a wrapped sum or difference. */
  lemma WrapShift(x: int, y: int)
    ensures U(U(x) + y) == U(x + y)
    ensures U(y - U(x)) == U(y - x)
  {
    var k := x / M32;
    assert U(x) == x - k * M32;
    WholeTurns(x + y, -k);
    WholeTurns(y - x, k);
  }

  /** Within half the circle of a common base, comparing sequence numbers is comparing offsets. */
  lemma DiffIsOffsets(m: Arith, x: int, y: int, base: int)
    requires 0 <= Off(m, x, base) < HALF && 0 <= Off(m, y, base) < HALF
    ensures Diff(m, x, y) == Off(m, x, base) - Off(m, y, base)
  {
  }

  lemma OffRebase(m: Arith, x: int, newBase: int, base: int)
    requires 0 <= Off(m, newBase, base) <= Off(m, x, base)
    ensures Off(m, x, newBase) == Off(m, x, base) - Off(m, newBase, base)
  {
  }

  lemma OffAdd(m: Arith, x: int, n: int, base: int)
    requires 0 <= Off(m, x, base) && 0 <= n && Off(m, x, base) + n < M32
    ensures Off(m, Add(m, x, n), base) == Off(m, x, base) + n
    ensures Canonical(m, x) ==> Canonical(m, Add(m, x, n))
  {
  }

  /** The two comparisons that accept a data segment say that its number lies in the window. */
  lemma InWindow(m: Arith, x: int, base: int, n: int)
    requires 0 <= n < HALF
    ensures !Before(m, x, base) && Before(m, x, Add(m, base, n)) <==> 0 <= Off(m, x, base) < n
  {
    if m.Wrapping? {
      WrapShift(base + n, x);
      var o, k := U(x - base), (x - base) / M32;
      assert x - base == o + k * M32;
      WholeTurns(o - n, k);
      assert U(x - Add(m, base, n)) == U(o - n);
      assert U(o) == o && Signed(o - n) == TimeDiff(x, Add(m, base, n));
      hide U, Add;
    }
  }

  lemma OffInjective(m: Arith, x: int, y: int, base: int)
    requires Canonical(m, x) && Canonical(m, y)
    requires Off(m, x, base) == Off(m, y, base)
    ensures x == y
  {
  }

  /** Section 3.2 of RFC 1982: numbers less than half the circle apart compare as the integers they stand for. */
  lemma SerialComparison(x: int, y: int)
    requires -HALF <= x - y < HALF
    ensures TimeDiff(U(x), U(y)) == x - y
  {
  }

  /** Beyond half the circle the comparison is reversed, so the bound above cannot be widened. */
  lemma SerialComparisonFails(x: int, y: int)
    requires HALF <= x - y < M32
    ensures TimeDiff(U(x), U(y)) == x - y - M32 < 0
  {
  }
}

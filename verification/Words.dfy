/** Machine words: bytes, 32-bit and 64-bit unsigned words, `int32_t`, and their
    little-endian layout in a byte memory. */
module Words {
  import opened Wrappers

  const TWO_32: int := 0x1_0000_0000
  const TWO_64: int := 0x1_0000_0000_0000_0000
  const I32_MIN: int := -0x8000_0000
  const I32_MAX: int := 0x7FFF_FFFF

  type byte = x: int | 0 <= x < 0x100
  type u32 = x: int | 0 <= x < TWO_32
  type u64 = x: int | 0 <= x < TWO_64
  type i32 = x: int | I32_MIN <= x <= I32_MAX

  type Memory = seq<byte>

  /** The `int32_t` a 32-bit pattern stands for, and back. */
  function Signed(u: u32): i32 {
    if u <= I32_MAX then u else u - TWO_32
  }

  function Unsigned(i: i32): u32 {
    if i < 0 then i + TWO_32 else i
  }

  function Get32(m: Memory, a: nat): u32
    requires a + 4 <= |m|
  {
    var b0: int, b1: int, b2: int, b3: int := m[a], m[a + 1], m[a + 2], m[a + 3];
    b0 + 0x100 * b1 + 0x1_0000 * b2 + 0x100_0000 * b3
  }

  lemma FourBytes(u: u32)
    ensures u == u % 0x100 + 0x100 * (u / 0x100 % 0x100)
                 + 0x1_0000 * (u / 0x1_0000 % 0x100) + 0x100_0000 * (u / 0x100_0000)
  {
  }

  /** Two's complement: a signed word is its pattern modulo 2^32. */
  lemma TwosComplement(i: i32, u: u32)
    ensures Signed(u) == i <==> u == i % TWO_32
    ensures Unsigned(i) == i % TWO_32
  {
  }

  /** Little-endian: the lowest byte comes first. */
  lemma LittleEndian(m: Memory, a: nat)
    requires a + 4 <= |m|
    ensures var u: nat := Get32(m, a);
            && u % 0x100 == m[a] && u / 0x100 % 0x100 == m[a + 1]
            && u / 0x100 / 0x100 % 0x100 == m[a + 2] && u / 0x100 / 0x100 / 0x100 == m[a + 3]
  {
    var b1: nat, b2: nat, b3: nat := m[a + 1], m[a + 2], m[a + 3];
    LowByte(m[a], b1 + 0x100 * (b2 + 0x100 * b3));
    LowByte(b1, b2 + 0x100 * b3);
    LowByte(b2, b3);
  }

  lemma LowByte(b: byte, high: nat)
    ensures (b + 0x100 * high) % 0x100 == b && (b + 0x100 * high) / 0x100 == high
  {
  }

  lemma LittleEndian64(m: Memory, a: nat)
    requires a + 8 <= |m|
    ensures Get64(m, a) % TWO_32 == Get32(m, a) && Get64(m, a) / TWO_32 == Get32(m, a + 4)
  {
  }

  function Put32(m: Memory, a: nat, u: u32): (r: Memory)
    requires a + 4 <= |m|
    ensures |r| == |m|
    ensures forall k :: 0 <= k < |m| && !(a <= k < a + 4) ==> r[k] == m[k]
    ensures Get32(r, a) == u
  {
    FourBytes(u);
    m[a := u % 0x100][a + 1 := u / 0x100 % 0x100][a + 2 := u / 0x1_0000 % 0x100][a + 3 := u / 0x100_0000]
  }

  function Get64(m: Memory, a: nat): u64
    requires a + 8 <= |m|
  {
    Get32(m, a) + TWO_32 * Get32(m, a + 4)
  }

  function Put64(m: Memory, a: nat, u: u64): (r: Memory)
    requires a + 8 <= |m|
    ensures |r| == |m|
    ensures forall k :: 0 <= k < |m| && !(a <= k < a + 8) ==> r[k] == m[k]
    ensures Get64(r, a) == u
  {
    Put32(Put32(m, a, u % TWO_32), a + 4, u / TWO_32)
  }

  /** Two memories agree on the bytes `lo..hi`. */
  ghost predicate SameBytes(m: Memory, n: Memory, lo: int, hi: int) {
    |m| == |n| && forall k :: 0 <= k < |m| && lo <= k < hi ==> m[k] == n[k]
  }

  /** They agree everywhere but there. */
  ghost predicate SameOutside(m: Memory, n: Memory, lo: int, hi: int) {
    |m| == |n| && forall k :: 0 <= k < |m| && !(lo <= k < hi) ==> m[k] == n[k]
  }

  /** The `len` bytes of `n` at `to` are those of `m` at `from`. */
  ghost predicate Copied(m: Memory, from: nat, n: Memory, to: nat, len: nat)
    requires from + len <= |m| && to + len <= |n|
  {
    forall k :: to <= k < to + len ==> n[k] == m[k - to + from]
  }

  lemma Word32Copied(m: Memory, a: nat, n: Memory, b: nat)
    requires a + 4 <= |m| && b + 4 <= |n| && Copied(m, a, n, b, 4)
    ensures Get32(n, b) == Get32(m, a)
  {
  }

  /** Division as C++ defines it: the quotient loses its fraction
      (section 7.6.5 [expr.mul] of ISO/IEC 14882:2020). */
  function TruncDiv(a: int, b: int): (q: int)
    requires b != 0
  {
    var m := (if a < 0 then -a else a) / (if b < 0 then -b else b);
    if (a < 0) == (b < 0) then m else -m
  }

  /** The quotient is the one with a remainder smaller than the divisor and of
      the dividend's sign. */
  lemma TruncDivMeaning(a: int, b: int)
    requires b != 0
    ensures var r := a - TruncDiv(a, b) * b;
            (if r < 0 then -r else r) < (if b < 0 then -b else b) && (r == 0 || (r < 0) == (a < 0))
  {
    var x, y := if a < 0 then -a else a, if b < 0 then -b else b;
    assert x == x / y * y + x % y;
    assert (-(x / y)) * y == -(x / y * y);
    assert (x / y) * (-y) == -(x / y * y);
  }

  datatype Arith = Add | Sub | Mul | Div

  /** `a OP b` on `int32_t`: nothing where the C++ result is undefined, that is,
      on overflow and on a zero divisor. */
  function ArithI32(op: Arith, a: i32, b: i32): Option<i32> {
    if op == Div && b == 0 then None else
      var r :=
        match op
        case Add => a + b
        case Sub => a - b
        case Mul => a * b
        case Div => TruncDiv(a, b);
      if I32_MIN <= r <= I32_MAX then Some(r) else None
  }

  function Magnitude(a: int): nat {
    if a < 0 then -a else a
  }

  /** `r` is what C++ says `a OP b` is, and `Defined` where it says anything: sums, differences
      and products that are in range; quotients by a non-zero divisor, but for the one that
      is out of range, which leave a remainder smaller than the divisor and of the dividend's
      sign (section 7.6.5 [expr.mul] of ISO/IEC 14882:2020). */
  predicate IsResult(op: Arith, a: i32, b: i32, r: int) {
    match op
    case Add => r == a + b
    case Sub => r == a - b
    case Mul => r == a * b
    case Div =>
      var m: int := a - r * b;
      && Magnitude(m) < Magnitude(b)
      && (m > 0 ==> a > 0) && (m < 0 ==> a < 0)
  }

  predicate Defined(op: Arith, a: i32, b: i32) {
    match op
    case Add => I32_MIN <= a + b <= I32_MAX
    case Sub => I32_MIN <= a - b <= I32_MAX
    case Mul => I32_MIN <= a * b <= I32_MAX
    case Div => b != 0 && !(a == I32_MIN && b == -1)
  }

  lemma ArithMeaning(op: Arith, a: i32, b: i32)
    ensures ArithI32(op, a, b).Some? <==> Defined(op, a, b)
    ensures ArithI32(op, a, b).Some? ==> IsResult(op, a, b, ArithI32(op, a, b).value)
  {
    if op == Div && b != 0 {
      TruncDivMeaning(a, b);
      QuotientRange(a, b);
    }
  }

  lemma QuotientRange(a: i32, b: i32)
    requires b != 0
    ensures I32_MIN <= TruncDiv(a, b) <= I32_MAX <==> !(a == I32_MIN && b == -1)
  {
    var x, y := Magnitude(a), Magnitude(b);
    if y == 1 {
      assert x / y == x;
    } else {
      Halved(x, y);
    }
  }

  lemma Halved(x: nat, y: nat)
    requires y > 1
    ensures x / y <= x / 2
  {
    AtLeastTwice(x / y, y);
    assert x == x / y * y + x % y;
  }

  lemma AtLeastTwice(q: nat, y: nat)
    requires y >= 2
    ensures q * y >= 2 * q
  {
    assert q * y == 2 * q + q * (y - 2);
  }

  /** There is only one such result. */
  lemma OneResult(op: Arith, a: i32, b: i32, r: int, q: int)
    requires Defined(op, a, b) && IsResult(op, a, b, r) && IsResult(op, a, b, q)
    ensures r == q
  {
    if op == Div && r != q {
      assert (q - r) * b == (a - r * b) - (a - q * b);
      MultipleSize(q - r, b);
    }
  }

  lemma MultipleSize(k: int, b: int)
    requires k != 0
    ensures Magnitude(k * b) >= Magnitude(b)
  {
    var n := Magnitude(k) - 1;
    assert n * Magnitude(b) >= 0;
    assert k > 0 ==> k * b == b + n * b;
    assert k < 0 ==> k * b == -b - n * b;
  }
}

/**
 * Fixed-width unsigned integers of the emulator (Rust `u8`, `u16`, a 4-bit
 * nibble) and the bit-level operations the CPU applies to bytes.
 *
 * Values are kept as bounded `int`s so that carries, borrows and decimal
 * digits are ordinary arithmetic. The register operators `|`, `&` and `^` are
 * defined on those numbers one binary digit at a time; the sprite path
 * (`reverse_bits` and the single-bit tests while drawing) works on `bv8`.
 */
module Bytes {
  type u8 = x: int | 0 <= x < 0x100
  type u16 = x: int | 0 <= x < 0x1_0000
  type Nibble = x: int | 0 <= x < 0x10

  /** Bit `k` (0 = least significant) of the bit-vector `b` is set. */
  predicate BitSet(b: bv8, k: nat)
    requires k < 8
  {
    (b >> k) & 1 == 1
  }

  /** Bit `k` (0 = least significant) of the number `v`. */
  predicate BitOf(v: nat, k: nat)
  {
    if k == 0 then v % 2 == 1 else BitOf(v / 2, k - 1)
  }

  function Pow2(n: nat): (p: nat)
    ensures p >= 1
  {
    if n == 0 then 1 else 2 * Pow2(n - 1)
  }

  /**
   * The low `n` bits of `a` and `b` combined one bit at a time with `op`,
   * least significant bit first: the bitwise operators on unsigned integers.
   */
  function Bitwise(op: (bool, bool) -> bool, a: nat, b: nat, n: nat): (r: nat)
    ensures r < Pow2(n)
  {
    if n == 0 then 0
    else (if op(a % 2 == 1, b % 2 == 1) then 1 else 0) + 2 * Bitwise(op, a / 2, b / 2, n - 1)
  }

  /** Bit `k` of a bitwise combination is `op` of bit `k` of each operand. */
  lemma {:induction false} BitwiseBit(op: (bool, bool) -> bool, a: nat, b: nat, n: nat, k: nat)
    requires k < n
    ensures BitOf(Bitwise(op, a, b, n), k) == op(BitOf(a, k), BitOf(b, k))
  {
    var r := Bitwise(op, a, b, n);
    if k == 0 {
      assert r % 2 == if op(a % 2 == 1, b % 2 == 1) then 1 else 0;
    } else {
      assert r / 2 == Bitwise(op, a / 2, b / 2, n - 1);
      BitwiseBit(op, a / 2, b / 2, n - 1, k - 1);
    }
  }

  /** Every bit below n of a digit-by-digit combination at once. */
  lemma {:induction false} BitwiseBits(op: (bool, bool) -> bool, a: nat, b: nat, n: nat)
    ensures forall k: nat :: k < n ==> BitOf(Bitwise(op, a, b, n), k) == op(BitOf(a, k), BitOf(b, k))
  {
    forall k: nat | k < n
      ensures BitOf(Bitwise(op, a, b, n), k) == op(BitOf(a, k), BitOf(b, k))
    {
      BitwiseBit(op, a, b, n, k);
    }
  }

  /** Two numbers below 2^n with the same low `n` bits are equal. */
  lemma {:induction false} SameBits(u: nat, v: nat, n: nat)
    requires u < Pow2(n) && v < Pow2(n)
    requires forall k: nat :: k < n ==> BitOf(u, k) == BitOf(v, k)
    ensures u == v
  {
    if n > 0 {
      assert BitOf(u, 0) == BitOf(v, 0);
      forall k: nat | k < n - 1
        ensures BitOf(u / 2, k) == BitOf(v / 2, k)
      {
        assert BitOf(u, k + 1) == BitOf(v, k + 1);
      }
      SameBits(u / 2, v / 2, n - 1);
    }
  }

  /** Zero has no bit set. */
  lemma {:induction false} NoBits(k: nat)
    ensures !BitOf(0, k)
  {
    if k > 0 {
      NoBits(k - 1);
    }
  }

  /** Rust `a | b` on `u8`: a bit of the result is set when it is set in either operand. */
  function Or(a: u8, b: u8): (r: u8)
    ensures forall k: nat :: k < 8 ==> BitOf(r, k) == (BitOf(a, k) || BitOf(b, k))
  {
    BitwiseBits((p, q) => p || q, a, b, 8);
    Bitwise((p, q) => p || q, a, b, 8)
  }

  /** Rust `a & b` on `u8`: a bit of the result is set when it is set in both operands. */
  function And(a: u8, b: u8): (r: u8)
    ensures forall k: nat :: k < 8 ==> BitOf(r, k) == (BitOf(a, k) && BitOf(b, k))
  {
    BitwiseBits((p, q) => p && q, a, b, 8);
    Bitwise((p, q) => p && q, a, b, 8)
  }

  /** Rust `a ^ b` on `u8`: a bit of the result is set when it is set in exactly one operand. */
  function Xor(a: u8, b: u8): (r: u8)
    ensures forall k: nat :: k < 8 ==> BitOf(r, k) == (BitOf(a, k) != BitOf(b, k))
  {
    BitwiseBits((p, q) => p != q, a, b, 8);
    Bitwise((p, q) => p != q, a, b, 8)
  }

  /** Rust `u8::reverse_bits`: bit `k` of the result is bit `7 - k` of the input. */
  function ReverseBits(b: bv8): (r: bv8)
    ensures forall k: nat :: k < 8 ==> (BitSet(r, k) <==> BitSet(b, 7 - k))
  {
    ((b & 1) << 7) | ((b & 2) << 5) | ((b & 4) << 3) | ((b & 8) << 1)
    | ((b & 16) >> 1) | ((b & 32) >> 3) | ((b & 64) >> 5) | ((b & 128) >> 7)
  }

  /** OR-ing in the same byte a second time changes nothing. */
  lemma OrTwice(a: u8, b: u8)
    ensures Or(Or(a, b), b) == Or(a, b)
  {
    SameBits(Or(Or(a, b), b), Or(a, b), 8);
  }

  /** Masking with the same byte a second time changes nothing. */
  lemma AndTwice(a: u8, b: u8)
    ensures And(And(a, b), b) == And(a, b)
  {
    SameBits(And(And(a, b), b), And(a, b), 8);
  }

  /** A byte XOR-ed with itself is zero. */
  lemma XorSelf(a: u8)
    ensures Xor(a, a) == 0
  {
    forall k: nat | k < 8
      ensures BitOf(Xor(a, a), k) == BitOf(0, k)
    {
      NoBits(k);
    }
    SameBits(Xor(a, a), 0, 8);
  }

  /** XOR-ing in the same byte twice gives back the original. */
  lemma XorTwice(a: u8, b: u8)
    ensures Xor(Xor(a, b), b) == a
  {
    SameBits(Xor(Xor(a, b), b), a, 8);
  }

  /** Shifting right by one moves bit `k + 1` to bit `k`. */
  lemma ShiftBit(b: bv8, shifted: bv8)
    requires shifted == b >> 1
    ensures forall k: nat :: k < 7 ==> BitSet(shifted, k) == BitSet(b, k + 1)
  {
  }
}

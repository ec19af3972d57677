/** Fixed-width unsigned integers of the interpreter and the bit operations it uses. */
module Bytes {

  /** A `std::uint8_t`: registers, timers and memory cells. */
  type Byte = b: int | 0 <= b < 0x100

  /** A `std::uint16_t`: the program counter, the index register and stack entries. */
  type Word = w: int | 0 <= w < 0x1_0000

  /** A 4-bit field of an instruction: a register number, a key number or a sprite height. */
  type Nibble = k: int | 0 <= k < 0x10

  /** A 12-bit address field (`nnn`) of an instruction. */
  type Addr12 = a: int | 0 <= a < 0x1000

  /** The value a `std::uint8_t` holds after `k` is stored into it: reduction modulo 256. */
  function Wrap8(k: int): (r: Byte)
    ensures 0 <= k < 0x100 ==> r == k
    ensures (k - r) % 0x100 == 0
  {
    k % 0x100
  }

  /** The value a `std::uint16_t` holds after `k` is stored into it: reduction modulo 65536. */
  function Wrap16(k: int): (r: Word)
    ensures 0 <= k < 0x1_0000 ==> r == k
    ensures (k - r) % 0x1_0000 == 0
  {
    k % 0x1_0000
  }

  /** Storing into a `std::uint16_t` keeps the low twelve bits: 0x1000 divides 0x10000. */
  lemma Wrap16Low12(k: int)
    ensures Wrap16(k) % 0x1000 == k % 0x1000
  {
    var q, w := k / 0x1_0000, k % 0x1_0000;
    var d, e := w / 0x1000, w % 0x1000;
    assert k == 0x1000 * (16 * q + d) + e && 0 <= e < 0x1000;
  }

  function Pow2(k: nat): (p: nat)
    ensures p >= 1
  {
    if k == 0 then 1 else 2 * Pow2(k - 1)
  }

  /** Bit `k` of `b`, numbered as `std::bitset<8>` numbers them: bit 0 is the least significant. */
  predicate Bit(b: Byte, k: nat)
    requires k < 8
  {
    (b / Pow2(k)) % 2 == 1
  }

  /** Bitwise AND of the low `k` bits of `a` and `b`, one bit at a time from the least
      significant: the result has no bit that `b` lacks, so it is at most `b`. */
  function AndBits(a: nat, b: nat, k: nat): (r: nat)
    ensures r < Pow2(k) && r <= b
  {
    if k == 0 then 0 else 2 * AndBits(a / 2, b / 2, k - 1) + (if a % 2 == 1 && b % 2 == 1 then 1 else 0)
  }

  /** Bitwise OR of the low `k` bits of `a` and `b`. */
  function OrBits(a: nat, b: nat, k: nat): (r: nat)
    ensures r < Pow2(k)
  {
    if k == 0 then 0 else 2 * OrBits(a / 2, b / 2, k - 1) + (if a % 2 == 1 || b % 2 == 1 then 1 else 0)
  }

  /** Bitwise exclusive OR of the low `k` bits of `a` and `b`. */
  function XorBits(a: nat, b: nat, k: nat): (r: nat)
    ensures r < Pow2(k)
  {
    if k == 0 then 0 else 2 * XorBits(a / 2, b / 2, k - 1) + (if (a % 2 == 1) != (b % 2 == 1) then 1 else 0)
  }

  /** `&` on two `std::uint8_t` operands. */
  function And8(a: Byte, b: Byte): (r: Byte)
    ensures r <= b
  {
    assert Pow2(8) == 0x100;
    AndBits(a, b, 8)
  }

  /** `|=` on a `std::uint8_t`. */
  function Or8(a: Byte, b: Byte): Byte
  {
    assert Pow2(8) == 0x100;
    OrBits(a, b, 8)
  }

  /** `^=` on a `std::uint8_t`. */
  function Xor8(a: Byte, b: Byte): Byte
  {
    assert Pow2(8) == 0x100;
    XorBits(a, b, 8)
  }

  /** Bit `j` of `a & b` is set exactly when bit `j` is set in both operands. */
  lemma And8Bits(a: Byte, b: Byte, j: nat)
    requires j < 8
    ensures Bit(And8(a, b), j) <==> Bit(a, j) && Bit(b, j)
  {
    AndBitsBit(a, b, 8, j);
  }

  /** Bit `j` of `a | b` is set exactly when bit `j` is set in either operand. */
  lemma Or8Bits(a: Byte, b: Byte, j: nat)
    requires j < 8
    ensures Bit(Or8(a, b), j) <==> Bit(a, j) || Bit(b, j)
  {
    OrBitsBit(a, b, 8, j);
  }

  /** Bit `j` of `a ^ b` is set exactly when bit `j` is set in one operand but not the other. */
  lemma Xor8Bits(a: Byte, b: Byte, j: nat)
    requires j < 8
    ensures Bit(Xor8(a, b), j) <==> Bit(a, j) != Bit(b, j)
  {
    XorBitsBit(a, b, 8, j);
  }

  lemma {:induction false} AndBitsBit(a: nat, b: nat, k: nat, j: nat)
    requires j < k
    ensures (AndBits(a, b, k) / Pow2(j)) % 2 == 1 <==> (a / Pow2(j)) % 2 == 1 && (b / Pow2(j)) % 2 == 1
  {
    var r := AndBits(a, b, k);
    if j > 0 {
      AndBitsBit(a / 2, b / 2, k - 1, j - 1);
      assert r / 2 == AndBits(a / 2, b / 2, k - 1);
      HalveBit(r, j - 1);
      HalveBit(a, j - 1);
      HalveBit(b, j - 1);
    }
  }

  lemma {:induction false} OrBitsBit(a: nat, b: nat, k: nat, j: nat)
    requires j < k
    ensures (OrBits(a, b, k) / Pow2(j)) % 2 == 1 <==> (a / Pow2(j)) % 2 == 1 || (b / Pow2(j)) % 2 == 1
  {
    var r := OrBits(a, b, k);
    if j > 0 {
      OrBitsBit(a / 2, b / 2, k - 1, j - 1);
      assert r / 2 == OrBits(a / 2, b / 2, k - 1);
      HalveBit(r, j - 1);
      HalveBit(a, j - 1);
      HalveBit(b, j - 1);
    }
  }

  lemma {:induction false} XorBitsBit(a: nat, b: nat, k: nat, j: nat)
    requires j < k
    ensures (XorBits(a, b, k) / Pow2(j)) % 2 == 1 <==> ((a / Pow2(j)) % 2 == 1) != ((b / Pow2(j)) % 2 == 1)
  {
    var r := XorBits(a, b, k);
    if j > 0 {
      XorBitsBit(a / 2, b / 2, k - 1, j - 1);
      assert r / 2 == XorBits(a / 2, b / 2, k - 1);
      HalveBit(r, j - 1);
      HalveBit(a, j - 1);
      HalveBit(b, j - 1);
    }
  }

  /** Bit `j + 1` of `r` is bit `j` of `r / 2`. */
  lemma HalveBit(r: nat, j: nat)
    ensures (r / Pow2(j + 1)) % 2 == ((r / 2) / Pow2(j)) % 2
  {
    var p := Pow2(j);
    var h, e := r / 2, r % 2;
    var q, s := h / p, h % p;
    assert r == (2 * p) * q + (2 * s + e);
    DivUnique(r, 2 * p, q, 2 * s + e);
  }

  /** Euclidean division has one quotient and one remainder. */
  lemma DivUnique(r: nat, d: nat, q: nat, s: nat)
    requires d >= 1 && r == d * q + s && s < d
    ensures r / d == q && r % d == s
  {
    var q0 := r / d;
    if q0 < q {
      MulAtLeast(d, q - q0);
    } else if q < q0 {
      MulAtLeast(d, q0 - q);
    }
  }

  lemma MulAtLeast(d: nat, t: nat)
    requires t >= 1
    ensures d * t >= d
  {
  }
}

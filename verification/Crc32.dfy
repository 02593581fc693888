/** The CRC-32 checksum (IEEE polynomial, reflected), fed bit by bit. */
module Crc32 {
  import opened Types
  import opened Sequences

  function Fold<T, B>(step: (T, B) -> T, c: T, data: seq<B>): T
    decreases |data|
  {
    if data == [] then c else Fold(step, step(c, data[0]), data[1..])
  }

  lemma {:induction false} FoldConcat<T, B>(step: (T, B) -> T, c: T, a: seq<B>, b: seq<B>)
    ensures Fold(step, c, a + b) == Fold(step, Fold(step, c, a), b)
    decreases |a|
  {
    if a == [] {
      assert a + b == b;
    } else {
      assert (a + b)[1..] == a[1..] + b;
      FoldConcat(step, step(c, a[0]), a[1..], b);
    }
  }

  /** A fold over a register that is kept under an involution. */
  function Update<T, B>(flip: T -> T, step: (T, B) -> T, c: T, data: seq<B>): T {
    flip(Fold(step, flip(c), data))
  }

  lemma UpdateConcat<T(!new), B>(flip: T -> T, step: (T, B) -> T, c: T, a: seq<B>, b: seq<B>)
    requires forall x :: flip(flip(x)) == x
    ensures Update(flip, step, Update(flip, step, c, a), b) == Update(flip, step, c, a + b)
    ensures Update(flip, step, c, []) == c
  {
    FoldConcat(step, flip(c), a, b);
  }

  /** The n low bits of v, least significant first. */
  function Bits(v: nat, n: nat): (bits: seq<bool>)
    ensures |bits| == n
    decreases v, n
  {
    if n == 0 then [] else [v % 2 == 1] + Bits(v / 2, n - 1)
  }

  function Xor(a: nat, b: nat): nat
    decreases a + b
  {
    if a + b == 0 then 0 else (if a % 2 == b % 2 then 0 else 1) + 2 * Xor(a / 2, b / 2)
  }

  lemma {:induction false} XorWidth(a: nat, b: nat, n: nat)
    requires a < Power2(n) && b < Power2(n)
    ensures Xor(a, b) < Power2(n)
    decreases n
  {
    if n > 0 {
      XorWidth(a / 2, b / 2, n - 1);
    }
  }

  lemma Power2Widths()
    ensures Power2(32) == TWO_TO_32
  {
    assert Power2(8) == 256;
    assert Power2(16) == 256 * Power2(8) by { DoublePower(8, 8); }
    assert Power2(32) == Power2(16) * Power2(16) by { DoublePower(16, 16); }
  }

  lemma {:induction false} DoublePower(a: nat, b: nat)
    ensures Power2(a + b) == Power2(a) * Power2(b)
    decreases b
  {
    if b > 0 {
      DoublePower(a, b - 1);
    }
  }

  type Word = n: nat | n < TWO_TO_32

  const CRC_POLYNOMIAL: Word := 0xEDB8_8320

  function Complement(c: Word): Word {
    TWO_TO_32 - 1 - c
  }

  function CrcBit(c: Word, bit: bool): Word {
    if (c % 2 == 1) != bit then
      Power2Widths();
      XorWidth(c / 2, CRC_POLYNOMIAL, 32);
      Xor(c / 2, CRC_POLYNOMIAL)
    else c / 2
  }

  function CrcStep(c: Word, b: byte): Word {
    Fold(CrcBit, c, Bits(b, 8))
  }

  /** crc32.Update: the register is complemented on the way in and on the way out. */
  function CrcUpdate(crc: Word, data: Bytes): Word {
    Update(Complement, CrcStep, crc, data)
  }

  /** crc32.ChecksumIEEE. */
  function Checksum(data: Bytes): Word {
    CrcUpdate(0, data)
  }

  /** Updating piece by piece gives the checksum of the pieces put together. */
  lemma CrcUpdateConcat(crc: Word, a: Bytes, b: Bytes)
    ensures CrcUpdate(CrcUpdate(crc, a), b) == CrcUpdate(crc, a + b)
    ensures CrcUpdate(crc, []) == crc
  {
    UpdateConcat(Complement, CrcStep, crc, a, b);
  }

  // ---------- which damage the checksum finds ----------

  /** The register without its k lowest bits. */
  function Shifted(v: nat, k: nat): nat
    decreases v, k
  {
    if k == 0 then v else Shifted(v / 2, k - 1)
  }

  lemma {:induction false} ShiftedTwice(v: nat, j: nat, k: nat)
    ensures Shifted(Shifted(v, j), k) == Shifted(v, j + k)
    decreases j
  {
    if j > 0 {
      ShiftedTwice(v / 2, j - 1, k);
    }
  }

  lemma {:induction false} ShiftedOut(v: nat, k: nat)
    requires v < Power2(k)
    ensures Shifted(v, k) == 0
    decreases k
  {
    if k > 0 {
      ShiftedOut(v / 2, k - 1);
    }
  }

  lemma {:induction false} LeadingBit(v: nat, k: nat)
    requires Power2(k) <= v < Power2(k + 1)
    ensures Shifted(v, k) == 1
    decreases k
  {
    if k > 0 {
      LeadingBit(v / 2, k - 1);
    }
  }

  lemma {:induction false} XorTwice(a: nat, b: nat)
    ensures Xor(Xor(a, b), b) == a
    decreases a + b
  {
    if a + b > 0 {
      XorTwice(a / 2, b / 2);
    }
  }

  lemma {:induction false} XorNothing(a: nat)
    ensures Xor(a, 0) == a
    decreases a
  {
    if a > 0 {
      XorNothing(a / 2);
    }
  }

  lemma {:induction false} XorShifted(a: nat, b: nat, k: nat)
    ensures Shifted(Xor(a, b), k) == Xor(Shifted(a, k), Shifted(b, k))
    decreases k
  {
    if k > 0 {
      XorShifted(a / 2, b / 2, k - 1);
    }
  }

  /** Whether the polynomial goes into the register. */
  predicate FeedsBack(c: Word, bit: bool) {
    (c % 2 == 1) != bit
  }

  lemma BitShifted(c: Word, bit: bool, k: nat)
    ensures Shifted(CrcBit(c, bit), k)
         == if FeedsBack(c, bit) then Xor(Shifted(c, k + 1), Shifted(CRC_POLYNOMIAL, k)) else Shifted(c, k + 1)
  {
    XorShifted(c / 2, CRC_POLYNOMIAL, k);
  }

  /** The top bit of the new register tells whether it did. */
  lemma TopBit(c: Word, bit: bool)
    ensures Shifted(CrcBit(c, bit), 31) == if FeedsBack(c, bit) then 1 else 0
  {
    BitShifted(c, bit, 31);
    Power2Widths();
    ShiftedOut(c, 32);
    XorNothing(1);
    assert Xor(0, 1) == 1;
    LeadingBit(CRC_POLYNOMIAL, 31);
  }

  /** Registers that differ above their lowest bits still do so one bit later, and so do those that fed back
      differently. */
  lemma BitApart(c: Word, a: bool, d: Word, b: bool, k: nat)
    requires k <= 31
    requires Shifted(c, k + 1) != Shifted(d, k + 1) || FeedsBack(c, a) != FeedsBack(d, b)
    ensures Shifted(CrcBit(c, a), k) != Shifted(CrcBit(d, b), k)
  {
    if FeedsBack(c, a) == FeedsBack(d, b) {
      BitShifted(c, a, k);
      BitShifted(d, b, k);
      XorTwice(Shifted(c, k + 1), Shifted(CRC_POLYNOMIAL, k));
      XorTwice(Shifted(d, k + 1), Shifted(CRC_POLYNOMIAL, k));
    } else {
      TopBit(c, a);
      TopBit(d, b);
      ShiftedTwice(CrcBit(c, a), k, 31 - k);
      ShiftedTwice(CrcBit(d, b), k, 31 - k);
    }
  }

  lemma {:induction false} StaysApart(c: Word, xs: seq<bool>, d: Word, ys: seq<bool>, k: nat)
    requires |xs| == |ys| <= k <= 32 && Shifted(c, k) != Shifted(d, k)
    ensures Fold(CrcBit, c, xs) != Fold(CrcBit, d, ys)
    decreases |xs|
  {
    if xs != [] {
      BitApart(c, xs[0], d, ys[0], k - 1);
      StaysApart(CrcBit(c, xs[0]), xs[1..], CrcBit(d, ys[0]), ys[1..], k - 1);
    }
  }

  /** From one register, different runs of up to 32 bits lead to different registers. */
  lemma {:induction false} BitsApart(c: Word, xs: seq<bool>, ys: seq<bool>)
    requires |xs| == |ys| <= 32 && xs != ys
    ensures Fold(CrcBit, c, xs) != Fold(CrcBit, c, ys)
    decreases |xs|
  {
    if xs[0] == ys[0] {
      assert xs[1..] != ys[1..] by {
        HeadTail(xs);
        HeadTail(ys);
      }
      BitsApart(CrcBit(c, xs[0]), xs[1..], ys[1..]);
    } else {
      BitApart(c, xs[0], c, ys[0], 31);
      StaysApart(CrcBit(c, xs[0]), xs[1..], CrcBit(c, ys[0]), ys[1..], 31);
    }
  }

  /** The same bits lead from different registers to different registers. */
  lemma {:induction false} RegistersApart(c: Word, d: Word, xs: seq<bool>)
    requires c != d
    ensures Fold(CrcBit, c, xs) != Fold(CrcBit, d, xs)
    decreases |xs|
  {
    if xs != [] {
      BitApart(c, xs[0], d, xs[0], 0);
      RegistersApart(CrcBit(c, xs[0]), CrcBit(d, xs[0]), xs[1..]);
    }
  }

  // ---------- bytes ----------

  function ByteBits(b: byte): (bits: seq<bool>)
    ensures |bits| == 8
  {
    Bits(b, 8)
  }

  lemma {:induction false} FoldBytes(c: Word, data: Bytes)
    ensures Fold(CrcStep, c, data) == Fold(CrcBit, c, FlatMap(ByteBits, data))
    decreases |data|
  {
    if data != [] {
      FoldBytes(CrcStep(c, data[0]), data[1..]);
      FoldConcat(CrcBit, c, ByteBits(data[0]), FlatMap(ByteBits, data[1..]));
    }
  }

  lemma {:induction false} SameBits(a: nat, b: nat, n: nat)
    requires Bits(a, n) == Bits(b, n) && a < Power2(n) && b < Power2(n)
    ensures a == b
    decreases n
  {
    if n > 0 {
      assert Bits(a, n)[1..] == Bits(a / 2, n - 1) && Bits(b, n)[1..] == Bits(b / 2, n - 1);
      assert Bits(a, n)[0] == (a % 2 == 1) && Bits(b, n)[0] == (b % 2 == 1);
      SameBits(a / 2, b / 2, n - 1);
    }
  }

  lemma {:induction false} BytesApart(x: Bytes, y: Bytes)
    requires |x| == |y| && x != y
    ensures |FlatMap(ByteBits, x)| == |FlatMap(ByteBits, y)| == 8 * |x|
    ensures FlatMap(ByteBits, x) != FlatMap(ByteBits, y)
    decreases |x|
  {
    HeadTail(x);
    HeadTail(y);
    BitCount(x);
    BitCount(y);
    assert FlatMap(ByteBits, x)[..8] == ByteBits(x[0]) && FlatMap(ByteBits, y)[..8] == ByteBits(y[0]);
    assert FlatMap(ByteBits, x)[8..] == FlatMap(ByteBits, x[1..]);
    assert FlatMap(ByteBits, y)[8..] == FlatMap(ByteBits, y[1..]);
    if x[0] != y[0] {
      if ByteBits(x[0]) == ByteBits(y[0]) {
        SameBits(x[0], y[0], 8);
      }
    } else {
      BytesApart(x[1..], y[1..]);
    }
  }

  lemma {:induction false} BitCount(data: Bytes)
    ensures |FlatMap(ByteBits, data)| == 8 * |data|
    decreases |data|
  {
    if data != [] {
      BitCount(data[1..]);
    }
  }

  lemma CrcChunks(c: Word, before: Bytes, x: Bytes, after: Bytes)
    ensures Fold(CrcStep, c, before + x + after)
         == Fold(CrcBit, Fold(CrcBit, Fold(CrcStep, c, before), FlatMap(ByteBits, x)), FlatMap(ByteBits, after))
  {
    FoldConcat(CrcStep, c, before + x, after);
    FoldConcat(CrcStep, c, before, x);
    FoldBytes(Fold(CrcStep, c, before), x);
    FoldBytes(Fold(CrcStep, c, before + x), after);
  }

  /** Damage to up to four bytes in a row, wherever they stand, changes the checksum. */
  lemma BurstChangesCrc(crc: Word, before: Bytes, x: Bytes, y: Bytes, after: Bytes)
    requires |x| == |y| <= 4
    ensures CrcUpdate(crc, before + x + after) == CrcUpdate(crc, before + y + after) <==> x == y
  {
    if x != y {
      var c := Fold(CrcStep, Complement(crc), before);
      BytesApart(x, y);
      BitsApart(c, FlatMap(ByteBits, x), FlatMap(ByteBits, y));
      RegistersApart(Fold(CrcBit, c, FlatMap(ByteBits, x)), Fold(CrcBit, c, FlatMap(ByteBits, y)),
                     FlatMap(ByteBits, after));
      CrcChunks(Complement(crc), before, x, after);
      CrcChunks(Complement(crc), before, y, after);
    }
  }

  /** Data of the same length that starts from different checksums ends with different ones. */
  lemma CrcKeepsApart(c: Word, d: Word, data: Bytes)
    ensures CrcUpdate(c, data) == CrcUpdate(d, data) <==> c == d
  {
    if c != d {
      RegistersApart(Complement(c), Complement(d), FlatMap(ByteBits, data));
      FoldBytes(Complement(c), data);
      FoldBytes(Complement(d), data);
    }
  }
}

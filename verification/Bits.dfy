/**
 * Bits of a byte string, numbered as SETBIT numbers them: bit 0 is the most
 * significant bit of the first byte (src/bitops.c:352-371).
 */
module Bits {

  /** The single-bit byte `1 << (7 - k)`. */
  function BitMask(k: nat): bv8
    requires k < 8
  {
    match k
    case 0 => 0x80 case 1 => 0x40 case 2 => 0x20 case 3 => 0x10
    case 4 => 0x08 case 5 => 0x04 case 6 => 0x02 case 7 => 0x01
  }

  predicate Bit(b: bv8, k: nat)
    requires k < 8
  {
    b & BitMask(k) != 0
  }

  predicate BitAt(s: seq<bv8>, i: nat)
    requires i < 8 * |s|
  {
    Bit(s[i / 8], i % 8)
  }

  /** Bit `i` of the string seen as zero-padded without end. */
  predicate PaddedBitAt(s: seq<bv8>, i: nat) {
    i < 8 * |s| && BitAt(s, i)
  }

  /** Number of set bits in positions [lo, hi). */
  function CountBits(s: seq<bv8>, lo: nat, hi: nat): nat
    requires lo <= hi <= 8 * |s|
    decreases hi
  {
    if lo == hi then 0 else CountBits(s, lo, hi - 1) + if BitAt(s, hi - 1) then 1 else 0
  }

  /** Number of set bits among bits [lo, hi) of one byte. */
  function OnesIn(b: bv8, lo: nat, hi: nat): nat
    requires lo <= hi <= 8
    decreases hi
  {
    if lo == hi then 0 else OnesIn(b, lo, hi - 1) + if Bit(b, hi - 1) then 1 else 0
  }

  lemma {:induction false} CountBitsSplit(s: seq<bv8>, lo: nat, mid: nat, hi: nat)
    requires lo <= mid <= hi <= 8 * |s|
    ensures CountBits(s, lo, hi) == CountBits(s, lo, mid) + CountBits(s, mid, hi)
    decreases hi
  {
    if mid < hi { CountBitsSplit(s, lo, mid, hi - 1); }
  }

  /** Counting inside one byte of the string is counting in that byte. */
  lemma {:induction false} CountBitsInByte(s: seq<bv8>, i: nat, lo: nat, hi: nat)
    requires i < |s| && lo <= hi <= 8
    ensures CountBits(s, 8 * i + lo, 8 * i + hi) == OnesIn(s[i], lo, hi)
    decreases hi
  {
    if lo < hi {
      CountBitsInByte(s, i, lo, hi - 1);
      assert (8 * i + hi - 1) / 8 == i && (8 * i + hi - 1) % 8 == hi - 1;
    }
  }

  /** Clearing bit `k` and or-ing in `v` changes bit `k` and no other. */
  function SetBit(b: bv8, k: nat, v: bool): bv8
    requires k < 8
  {
    (b & !BitMask(k)) | (if v then BitMask(k) else 0)
  }

  lemma SetBitBits(b: bv8, k: nat, v: bool, j: nat)
    requires k < 8 && j < 8
    ensures Bit(SetBit(b, k, v), j) == if j == k then v else Bit(b, j)
  {
  }
}

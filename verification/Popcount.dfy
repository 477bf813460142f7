/**
 * Scalar population count (src/bitops.c:140-191): a byte loop up to a 4-byte
 * boundary, blocks of seven 32-bit words summed in parallel byte lanes, and a
 * byte loop for the tail.
 */
module Popcount {
  import opened Bits

  /** Set bits of one byte; the contents of the table `bitsinbyte`. */
  function BitsInByte(b: bv8): nat {
    OnesIn(b, 0, 8)
  }

  // ---- 32-bit words as four byte lanes -------------------------------------

  /** A little-endian 32-bit load. */
  function Word(a: bv8, b: bv8, c: bv8, d: bv8): bv32 {
    (a as bv32) | ((b as bv32) << 8) | ((c as bv32) << 16) | ((d as bv32) << 24)
  }

  function LoadWord(s: seq<bv8>, i: nat): bv32
    requires i + 4 <= |s|
  {
    Word(s[i], s[i + 1], s[i + 2], s[i + 3])
  }

  /** The two SWAR steps applied to every word, and the final nibble fold. */
  function SwarPairs(w: bv32): bv32 {
    var x := w - ((w >> 1) & 0x55555555);
    (x & 0x33333333) + ((x >> 2) & 0x33333333)
  }

  function Swar(w: bv32): bv32 {
    (SwarPairs(w) + (SwarPairs(w) >> 4)) & 0x0F0F0F0F
  }

  function Lane(w: bv32, k: nat): bv32
    requires k < 4
  {
    match k
    case 0 => w & 0xff case 1 => (w >> 8) & 0xff case 2 => (w >> 16) & 0xff case 3 => w >> 24
  }

  /** Set bits of a byte held in a 32-bit register. */
  function Ones32(b: bv32): bv32 {
    (b & 1) + ((b >> 1) & 1) + ((b >> 2) & 1) + ((b >> 3) & 1)
    + ((b >> 4) & 1) + ((b >> 5) & 1) + ((b >> 6) & 1) + ((b >> 7) & 1)
  }

  lemma SwarLane0(w: bv32)
    ensures Lane(Swar(w), 0) == Ones32(Lane(w, 0))
  {
  }

  lemma SwarLane1(w: bv32)
    ensures Lane(Swar(w), 1) == Ones32(Lane(w, 1))
  {
  }

  lemma SwarLane2(w: bv32)
    ensures Lane(Swar(w), 2) == Ones32(Lane(w, 2))
  {
  }

  lemma SwarLane3(w: bv32)
    ensures Lane(Swar(w), 3) == Ones32(Lane(w, 3))
  {
  }

  lemma Ones32Counts(b: bv8)
    ensures Ones32(b as bv32) < 256
    ensures (Ones32(b as bv32) as bv8) as int == BitsInByte(b) <= 8
  {
  }

  lemma WordLanes(a: bv8, b: bv8, c: bv8, d: bv8)
    ensures Lane(Word(a, b, c, d), 0) == a as bv32 && Lane(Word(a, b, c, d), 1) == b as bv32
    ensures Lane(Word(a, b, c, d), 2) == c as bv32 && Lane(Word(a, b, c, d), 3) == d as bv32
  {
  }

  // ---- Words as numbers -----------------------------------------------------

  const TWO32: nat := 0x1_0000_0000

  /** Byte `k` of a word, as a number. */
  function Byte(w: bv32, k: nat): nat
    requires k < 4
  {
    (Lane(w, k) as bv8) as int
  }

  /** The unsigned value of a word. */
  function Number(w: bv32): nat {
    Byte(w, 0) + 0x100 * Byte(w, 1) + 0x1_0000 * Byte(w, 2) + 0x100_0000 * Byte(w, 3)
  }

  /** The SWAR steps leave in every byte of a word the bit count of that byte. */
  lemma SwarNumber(a: bv8, b: bv8, c: bv8, d: bv8)
    ensures Number(Swar(Word(a, b, c, d)))
         == BitsInByte(a) + 0x100 * BitsInByte(b) + 0x1_0000 * BitsInByte(c) + 0x100_0000 * BitsInByte(d)
    ensures BitsInByte(a) <= 8 && BitsInByte(b) <= 8 && BitsInByte(c) <= 8 && BitsInByte(d) <= 8
  {
    hide Swar, Ones32, Lane, Word, BitsInByte;
    var w := Word(a, b, c, d);
    WordLanes(a, b, c, d);
    SwarLane0(w); SwarLane1(w); SwarLane2(w); SwarLane3(w);
    Ones32Counts(a); Ones32Counts(b); Ones32Counts(c); Ones32Counts(d);
  }

  // ---- The seven-word sum ---------------------------------------------------

  lemma DivideAway(h: nat, t: nat, l: nat)
    requires t < 0x100 && l < 0x100_0000
    ensures (h * TWO32 + t * 0x100_0000 + l) % TWO32 / 0x100_0000 == t
  {
  }

  /** The truncated sum, the truncated multiply and the shift that end a block. */
  function Gather(sum: nat): nat {
    (sum % TWO32 * 0x0101_0101) % TWO32 / 0x100_0000
  }

  /**
   * The multiply gathers the four byte sums in the top byte. No sum reaches its
   * neighbour because seven words give at most 56 a byte, and 4 * 56 = 224 < 256.
   */
  lemma GatherBytes(a: nat, b: nat, c: nat, d: nat)
    requires a <= 56 && b <= 56 && c <= 56 && d <= 56
    ensures Gather(a + 0x100 * b + 0x1_0000 * c + 0x100_0000 * d) == a + b + c + d
  {
    var sum := a + 0x100 * b + 0x1_0000 * c + 0x100_0000 * d;
    assert sum % TWO32 == sum;
    var low := a + (a + b) * 0x100 + (a + b + c) * 0x1_0000;
    var high := (b + c + d) + (c + d) * 0x100 + d * 0x1_0000;
    assert sum * 0x0101_0101 == high * TWO32 + (a + b + c + d) * 0x100_0000 + low;
    DivideAway(high, a + b + c + d, low);
  }

  function SwarAt(s: seq<bv8>, i: nat): nat
    requires i + 4 <= |s|
  {
    Number(Swar(LoadWord(s, i)))
  }

  /** What the unrolled block at byte `i` adds to the total, in 32-bit arithmetic. */
  function Block(s: seq<bv8>, i: nat): nat
    requires i + 28 <= |s|
  {
    Gather(SwarAt(s, i) + SwarAt(s, i + 4) + SwarAt(s, i + 8) + SwarAt(s, i + 12)
           + SwarAt(s, i + 16) + SwarAt(s, i + 20) + SwarAt(s, i + 24))
  }

  lemma ByteCount(s: seq<bv8>, i: nat)
    requires i < |s|
    ensures CountBits(s, 8 * i, 8 * i + 8) == BitsInByte(s[i])
  {
    hide Bit;
    CountBitsInByte(s, i, 0, 8);
  }

  /** Byte sums of one or more words. */
  datatype Sums = Sums(a: nat, b: nat, c: nat, d: nat) {
    function Packed(): nat {
      a + 0x100 * b + 0x1_0000 * c + 0x100_0000 * d
    }

    function Total(): nat {
      a + b + c + d
    }

    predicate AtMost(n: nat) {
      a <= n && b <= n && c <= n && d <= n
    }

    function Plus(o: Sums): Sums {
      Sums(a + o.a, b + o.b, c + o.c, d + o.d)
    }
  }

  lemma SumsPlus(x: Sums, n: nat, y: Sums)
    requires x.AtMost(n) && y.AtMost(8)
    ensures x.Plus(y).AtMost(n + 8)
    ensures x.Plus(y).Packed() == x.Packed() + y.Packed()
    ensures x.Plus(y).Total() == x.Total() + y.Total()
  {
  }

  lemma WordSums(s: seq<bv8>, i: nat) returns (x: Sums)
    requires i + 4 <= |s|
    ensures x.AtMost(8) && SwarAt(s, i) == x.Packed()
    ensures CountBits(s, 8 * i, 8 * i + 32) == x.Total()
  {
    hide BitsInByte, CountBits, Number, Swar, Word;
    x := Sums(BitsInByte(s[i]), BitsInByte(s[i + 1]), BitsInByte(s[i + 2]), BitsInByte(s[i + 3]));
    SwarNumber(s[i], s[i + 1], s[i + 2], s[i + 3]);
    ByteCount(s, i); ByteCount(s, i + 1); ByteCount(s, i + 2); ByteCount(s, i + 3);
    CountBitsSplit(s, 8 * i, 8 * i + 8, 8 * i + 16);
    CountBitsSplit(s, 8 * i, 8 * i + 16, 8 * i + 24);
    CountBitsSplit(s, 8 * i, 8 * i + 24, 8 * i + 32);
  }

  function SwarSum(s: seq<bv8>, i: nat, k: nat): nat
    requires i + 4 * k <= |s|
  {
    if k == 0 then 0 else SwarSum(s, i, k - 1) + SwarAt(s, i + 4 * (k - 1))
  }

  lemma {:induction false} SwarSumCounts(s: seq<bv8>, i: nat, k: nat) returns (x: Sums)
    requires i + 4 * k <= |s|
    ensures x.AtMost(8 * k) && SwarSum(s, i, k) == x.Packed()
    ensures CountBits(s, 8 * i, 8 * i + 32 * k) == x.Total()
  {
    hide SwarAt;
    if k == 0 {
      x := Sums(0, 0, 0, 0);
    } else {
      var y := SwarSumCounts(s, i, k - 1);
      x := SwarSumStep(s, i, k, y);
    }
  }

  lemma SwarSumStep(s: seq<bv8>, i: nat, k: nat, y: Sums) returns (x: Sums)
    requires i + 4 * k <= |s| && k > 0
    requires y.AtMost(8 * (k - 1)) && SwarSum(s, i, k - 1) == y.Packed()
    requires CountBits(s, 8 * i, 8 * i + 32 * (k - 1)) == y.Total()
    ensures x.AtMost(8 * k) && SwarSum(s, i, k) == x.Packed()
    ensures CountBits(s, 8 * i, 8 * i + 32 * k) == x.Total()
  {
    hide SwarAt, CountBits, Sums.Packed, Sums.Total, Sums.AtMost, Sums.Plus;
    var j := i + 4 * (k - 1);
    var z := WordSums(s, j);
    SumsPlus(y, 8 * (k - 1), z);
    CountBitsSplit(s, 8 * i, 8 * j, 8 * j + 32);
    x := y.Plus(z);
  }

  lemma SevenTerms(s: seq<bv8>, i: nat)
    requires i + 28 <= |s|
    ensures SwarSum(s, i, 7)
         == SwarAt(s, i) + SwarAt(s, i + 4) + SwarAt(s, i + 8) + SwarAt(s, i + 12)
            + SwarAt(s, i + 16) + SwarAt(s, i + 20) + SwarAt(s, i + 24)
  {
    hide SwarAt;
    assert SwarSum(s, i, 1) == SwarAt(s, i);
    assert SwarSum(s, i, 2) == SwarAt(s, i) + SwarAt(s, i + 4);
    assert SwarSum(s, i, 4) == SwarSum(s, i, 2) + SwarAt(s, i + 8) + SwarAt(s, i + 12);
    assert SwarSum(s, i, 6) == SwarSum(s, i, 4) + SwarAt(s, i + 16) + SwarAt(s, i + 20);
  }

  /** One block adds exactly the set bits of its 28 bytes. */
  lemma BlockCounts(s: seq<bv8>, i: nat)
    requires i + 28 <= |s|
    ensures Block(s, i) == CountBits(s, 8 * i, 8 * i + 224)
  {
    hide SwarAt, CountBits, SwarSum, Gather;
    SevenTerms(s, i);
    var x := SwarSumCounts(s, i, 7);
    GatherBytes(x.a, x.b, x.c, x.d);
  }

  /**
   * Counts the set bits of `s`, which starts at address `addr`. Whatever the
   * alignment and the length, the three loops together count every bit once.
   */
  method PopcountScalar(s: seq<bv8>, addr: nat) returns (bits: nat)
    ensures bits == CountBits(s, 0, 8 * |s|)
  {
    hide Block, OnesIn, Bit;
    bits := 0;
    var p := 0;
    while (addr + p) % 4 != 0 && p < |s|
      invariant p <= |s| && bits == CountBits(s, 0, 8 * p)
      decreases |s| - p
    {
      ByteCount(s, p);
      CountBitsSplit(s, 0, 8 * p, 8 * p + 8);
      bits := bits + BitsInByte(s[p]);
      p := p + 1;
    }
    while |s| - p >= 28
      invariant p <= |s| && bits == CountBits(s, 0, 8 * p)
    {
      BlockCounts(s, p);
      CountBitsSplit(s, 0, 8 * p, 8 * p + 224);
      bits := bits + Block(s, p);
      p := p + 28;
    }
    while p < |s|
      invariant p <= |s| && bits == CountBits(s, 0, 8 * p)
    {
      ByteCount(s, p);
      CountBitsSplit(s, 0, 8 * p, 8 * p + 8);
      bits := bits + BitsInByte(s[p]);
      p := p + 1;
    }
  }
}

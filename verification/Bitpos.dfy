/**
 * First set or clear bit: the word-at-a-time search (src/bitops.c:258-350) and
 * the BITPOS command on top of it (src/bitops.c:1040-1181).
 */
module Bitpos {
  import opened Common
  import opened Bits
  import opened BitRange

  // ---- What is searched for --------------------------------------------------

  /** No bit of [lo, hi) has the wanted value. */
  ghost predicate Absent(s: seq<bv8>, lo: nat, hi: nat, bit: bool)
    requires hi <= 8 * |s|
  {
    forall j: nat | lo <= j < hi :: BitAt(s, j) != bit
  }

  /** `i` is the least position in [lo, hi) whose bit has the wanted value. */
  ghost predicate IsFirst(s: seq<bv8>, lo: nat, hi: nat, bit: bool, i: int)
    requires hi <= 8 * |s|
  {
    lo <= i < hi && BitAt(s, i) == bit && Absent(s, lo, i, bit)
  }

  /** `pos` answers a search of the whole of `s`; a search for 0 sees a zero after the end. */
  ghost predicate Answers(s: seq<bv8>, bit: bool, pos: int) {
    if Absent(s, 0, 8 * |s|, bit) then pos == if bit then -1 else 8 * |s|
    else IsFirst(s, 0, 8 * |s|, bit, pos)
  }

  // ---- 64-bit words ------------------------------------------------------------

  /** Byte `q` of a word, most significant first. */
  function ByteOf(w: bv64, q: nat): bv8
    requires q < 8
  {
    match q
    case 0 => ((w >> 56) & 0xff) as bv8 case 1 => ((w >> 48) & 0xff) as bv8
    case 2 => ((w >> 40) & 0xff) as bv8 case 3 => ((w >> 32) & 0xff) as bv8
    case 4 => ((w >> 24) & 0xff) as bv8 case 5 => ((w >> 16) & 0xff) as bv8
    case 6 => ((w >> 8) & 0xff) as bv8 case 7 => (w & 0xff) as bv8
  }

  /** A byte moved to byte place `q` of a word. */
  function ToPlace(m: bv8, q: nat): bv64
    requires q < 8
  {
    match q
    case 0 => (m as bv64) << 56 case 1 => (m as bv64) << 48 case 2 => (m as bv64) << 40 case 3 => (m as bv64) << 32
    case 4 => (m as bv64) << 24 case 5 => (m as bv64) << 16 case 6 => (m as bv64) << 8 case 7 => m as bv64
  }

  /** The one-bit word that selects bit `i`, bit 0 being the most significant. */
  function OneAt(i: nat): bv64
    requires i < 64
  {
    ToPlace(BitMask(i % 8), i / 8)
  }

  lemma OneAtFirst()
    ensures OneAt(0) == !HalfOf(0xFFFF_FFFF_FFFF_FFFF)
  {
  }

  lemma NextInByte(k: nat, q: nat)
    requires k < 8 && q < 8
    ensures ToPlace(BitMask(k), q) != 0
    ensures k < 7 ==> HalfOf(ToPlace(BitMask(k), q)) == ToPlace(BitMask(k + 1), q)
    ensures k == 7 && q < 7 ==> HalfOf(ToPlace(BitMask(7), q)) == ToPlace(BitMask(0), q + 1)
    ensures k == 7 && q == 7 ==> HalfOf(ToPlace(BitMask(7), q)) == 0
  {
  }

  lemma OneAtNext(i: nat)
    requires i < 64
    ensures OneAt(i) != 0
    ensures i < 63 ==> HalfOf(OneAt(i)) == OneAt(i + 1)
    ensures i == 63 ==> HalfOf(OneAt(i)) == 0
  {
    hide HalfOf, ToPlace, BitMask;
    NextInByte(i % 8, i / 8);
    assert i % 8 < 7 ==> (i + 1) % 8 == i % 8 + 1 && (i + 1) / 8 == i / 8;
    assert i % 8 == 7 ==> (i + 1) % 8 == 0 && (i + 1) / 8 == i / 8 + 1;
  }

  /** `one & word`, as the scan tests it. */
  predicate Meets(w: bv64, one: bv64) {
    one & w != 0
  }

  function HalfOf(one: bv64): bv64 {
    one >> 1
  }

  predicate WordBit(w: bv64, k: nat, q: nat)
    requires k < 8 && q < 8
  {
    Meets(w, ToPlace(BitMask(k), q))
  }

  lemma SelectsBit0(w: bv64, k: nat)
    requires k < 8
    ensures WordBit(w, k, 0) <==> Bit(ByteOf(w, 0), k)
  {
  }

  lemma SelectsBit1(w: bv64, k: nat)
    requires k < 8
    ensures WordBit(w, k, 1) <==> Bit(ByteOf(w, 1), k)
  {
  }

  lemma SelectsBit2(w: bv64, k: nat)
    requires k < 8
    ensures WordBit(w, k, 2) <==> Bit(ByteOf(w, 2), k)
  {
  }

  lemma SelectsBit3(w: bv64, k: nat)
    requires k < 8
    ensures WordBit(w, k, 3) <==> Bit(ByteOf(w, 3), k)
  {
  }

  lemma SelectsBit4(w: bv64, k: nat)
    requires k < 8
    ensures WordBit(w, k, 4) <==> Bit(ByteOf(w, 4), k)
  {
  }

  lemma SelectsBit5(w: bv64, k: nat)
    requires k < 8
    ensures WordBit(w, k, 5) <==> Bit(ByteOf(w, 5), k)
  {
  }

  lemma SelectsBit6(w: bv64, k: nat)
    requires k < 8
    ensures WordBit(w, k, 6) <==> Bit(ByteOf(w, 6), k)
  {
  }

  lemma SelectsBit7(w: bv64, k: nat)
    requires k < 8
    ensures WordBit(w, k, 7) <==> Bit(ByteOf(w, 7), k)
  {
  }

  /** The scan's test at place (q, k) reads bit `k` of byte `q`. */
  lemma SelectsBit(w: bv64, k: nat, q: nat)
    requires k < 8 && q < 8
    ensures WordBit(w, k, q) <==> Bit(ByteOf(w, q), k)
  {
    hide WordBit, ByteOf, Bit;
    match q
    case 0 => SelectsBit0(w, k);
    case 1 => SelectsBit1(w, k);
    case 2 => SelectsBit2(w, k);
    case 3 => SelectsBit3(w, k);
    case 4 => SelectsBit4(w, k);
    case 5 => SelectsBit5(w, k);
    case 6 => SelectsBit6(w, k);
    case 7 => SelectsBit7(w, k);
  }

  /** Shifting a byte in at the bottom moves every other byte up by one. */
  lemma ShiftIn(w: bv64, b: bv8, q: nat)
    requires q < 8
    ensures ByteOf(ShiftByteIn(w, b), q) == if q == 7 then b else ByteOf(w, q + 1)
  {
  }

  lemma ZeroWord(w: bv64)
    requires w != 0
    ensures ByteOf(w, 0) != 0 || ByteOf(w, 1) != 0 || ByteOf(w, 2) != 0 || ByteOf(w, 3) != 0
            || ByteOf(w, 4) != 0 || ByteOf(w, 5) != 0 || ByteOf(w, 6) != 0 || ByteOf(w, 7) != 0
  {
  }

  // ---- The search --------------------------------------------------------------

  function Push(b: bv8, w: bv64): bv64 {
    (b as bv64) | (w << 8)
  }

  function Assemble(a: bv8, b: bv8, c: bv8, d: bv8, e: bv8, f: bv8, g: bv8, h: bv8): bv64 {
    Push(a, Push(b, Push(c, Push(d, Push(e, Push(f, Push(g, Push(h, 0))))))))
  }

  /** A native (little-endian) 64-bit load. */
  function LoadWord(s: seq<bv8>, i: nat): bv64
    requires i + 8 <= |s|
  {
    Assemble(s[i], s[i + 1], s[i + 2], s[i + 3], s[i + 4], s[i + 5], s[i + 6], s[i + 7])
  }

  lemma LoadSkips(a: bv8, b: bv8, c: bv8, d: bv8, e: bv8, f: bv8, g: bv8, h: bv8)
    ensures var w := Assemble(a, b, c, d, e, f, g, h);
            && (w == 0 <==> a == 0 && b == 0 && c == 0 && d == 0 && e == 0 && f == 0 && g == 0 && h == 0)
            && (w == 0xFFFF_FFFF_FFFF_FFFF <==> a == 0xff && b == 0xff && c == 0xff && d == 0xff
                                                && e == 0xff && f == 0xff && g == 0xff && h == 0xff)
  {
  }

  /** The byte, and the word, that hold only bits not searched for. */
  function SkipByte(bit: bool): bv8 {
    if bit then 0 else 0xff
  }

  function SkipWord(bit: bool): bv64 {
    if bit then 0 else 0xFFFF_FFFF_FFFF_FFFF
  }

  lemma SkipByteBits(b: bv8, bit: bool, k: nat)
    requires k < 8 && b == SkipByte(bit)
    ensures Bit(b, k) != bit
  {
  }

  lemma OtherByteBit(b: bv8, bit: bool) returns (k: nat)
    requires b != SkipByte(bit)
    ensures k < 8 && Bit(b, k) == bit
  {
    if Bit(b, 0) == bit { return 0; }
    if Bit(b, 1) == bit { return 1; }
    if Bit(b, 2) == bit { return 2; }
    if Bit(b, 3) == bit { return 3; }
    if Bit(b, 4) == bit { return 4; }
    if Bit(b, 5) == bit { return 5; }
    if Bit(b, 6) == bit { return 6; }
    return 7;
  }

  lemma AbsentFromByte(s: seq<bv8>, i: nat, bit: bool)
    requires i < |s| && s[i] == SkipByte(bit) && Absent(s, 0, 8 * i, bit)
    ensures Absent(s, 0, 8 * i + 8, bit)
  {
    hide Bit, SkipByte;
    forall j: nat | 8 * i <= j < 8 * i + 8 ensures BitAt(s, j) != bit {
      SkipByteBits(s[i], bit, j - 8 * i);
      assert j / 8 == i && j % 8 == j - 8 * i;
    }
  }

  lemma {:induction false} AbsentFromBytes(s: seq<bv8>, i: nat, n: nat, bit: bool)
    requires i + n <= |s| && Absent(s, 0, 8 * i, bit)
    requires forall m: nat | i <= m < i + n :: s[m] == SkipByte(bit)
    ensures Absent(s, 0, 8 * (i + n), bit)
  {
    hide Bit, SkipByte;
    if n > 0 {
      AbsentFromBytes(s, i, n - 1, bit);
      AbsentFromByte(s, i + n - 1, bit);
    }
  }

  lemma WordSkips(s: seq<bv8>, i: nat, bit: bool)
    requires i + 8 <= |s|
    ensures LoadWord(s, i) == SkipWord(bit) <==> (forall m: nat | i <= m < i + 8 :: s[m] == SkipByte(bit))
  {
    hide ToPlace;
    LoadSkips(s[i], s[i + 1], s[i + 2], s[i + 3], s[i + 4], s[i + 5], s[i + 6], s[i + 7]);
    if LoadWord(s, i) == SkipWord(bit) {
      forall m: nat | i <= m < i + 8 ensures s[m] == SkipByte(bit) {
        assert m == i || m == i + 1 || m == i + 2 || m == i + 3 || m == i + 4 || m == i + 5 || m == i + 6 || m == i + 7;
      }
    }
  }

  /** Skips initial bytes up to an aligned address, then whole words. */
  method SkipBytes(s: seq<bv8>, addr: nat, bit: bool) returns (i: nat)
    ensures i <= |s| && Absent(s, 0, 8 * i, bit)
    ensures |s| - i >= 8 ==> exists m: nat :: i <= m < i + 8 && s[m] != SkipByte(bit)
  {
    hide Bit, SkipByte, SkipWord, LoadWord;
    i := 0;
    var found := false;
    while (addr + i) % 8 != 0 && i < |s|
      invariant i <= |s| && Absent(s, 0, 8 * i, bit) && !found
      decreases |s| - i
    {
      if s[i] != SkipByte(bit) {
        found := true;
        break;
      }
      AbsentFromByte(s, i, bit);
      i := i + 1;
    }
    if !found {
      while |s| - i >= 8
        invariant i <= |s| && Absent(s, 0, 8 * i, bit)
        decreases |s| - i
      {
        WordSkips(s, i, bit);
        if LoadWord(s, i) != SkipWord(bit) { break; }
        AbsentFromBytes(s, i, 8, bit);
        i := i + 8;
      }
    }
  }

  /** Byte `q` of what is loaded from byte `i` on, zero-padded on the right. */
  function Padded(s: seq<bv8>, i: nat, q: nat): bv8 {
    if i + q < |s| then s[i + q] else 0
  }

  function ShiftByteIn(w: bv64, b: bv8): bv64 {
    (w << 8) | (b as bv64)
  }

  /** Loads up to eight bytes into a word, the first byte most significant. */
  method LoadBytes(s: seq<bv8>, i: nat) returns (word: bv64)
    requires i <= |s|
    ensures forall q: nat | q < 8 :: ByteOf(word, q) == Padded(s, i, q)
  {
    hide ByteOf, ShiftByteIn;
    word := 0;
    var j := 0;
    while j < 8
      invariant j <= 8
      invariant forall q: nat | 8 - j <= q < 8 :: ByteOf(word, q) == Padded(s, i, q - (8 - j))
    {
      var before := word;
      var b := if i + j < |s| then s[i + j] else 0;
      word := ShiftByteIn(before, b);
      forall q: nat | q < 8 ensures ByteOf(word, q) == if q == 7 then b else ByteOf(before, q + 1) {
        ShiftIn(before, b, q);
      }
      j := j + 1;
    }
  }

  predicate WordBitAt(w: bv64, u: nat)
    requires u < 64
  {
    WordBit(w, u % 8, u / 8)
  }

  /** Moves a single one down the word until it meets the wanted bit. */
  method ScanWord(word: bv64, bit: bool) returns (t: nat)
    ensures t <= 64 && (forall u: nat | u < t :: WordBitAt(word, u) != bit)
    ensures t < 64 ==> WordBitAt(word, t) == bit
  {
    hide Meets, HalfOf, ToPlace, BitMask;
    OneAtFirst();
    var one: bv64 := 0xFFFF_FFFF_FFFF_FFFF;
    one := HalfOf(one);
    one := !one;
    t := 0;
    while one != 0
      invariant t <= 64 && (t < 64 ==> one == OneAt(t)) && (t == 64 ==> one == 0)
      invariant forall u: nat | u < t :: WordBitAt(word, u) != bit
      decreases 64 - t
    {
      if Meets(word, one) == bit { return; }
      OneAtNext(t);
      t := t + 1;
      one := HalfOf(one);
    }
    if t < 64 { OneAtNext(t); }
  }

  lemma BitOfPadded(s: seq<bv8>, i: nat, word: bv64, u: nat)
    requires i <= |s| && u < 64
    requires forall q: nat | q < 8 :: ByteOf(word, q) == Padded(s, i, q)
    ensures WordBitAt(word, u) == PaddedBitAt(s, 8 * i + u)
  {
    hide ByteOf, Bit, WordBit;
    SelectsBit(word, u % 8, u / 8);
    assert (8 * i + u) / 8 == i + u / 8 && (8 * i + u) % 8 == u % 8;
    if i + u / 8 >= |s| { SkipByteBits(0, true, u % 8); }
  }

  /** A byte that is not skipped shows up in the word loaded over it. */
  lemma BitOfOtherByte(s: seq<bv8>, i: nat, word: bv64, bit: bool, q: nat) returns (u: nat)
    requires i <= |s| && q < 8 && Padded(s, i, q) != SkipByte(bit)
    requires forall r: nat | r < 8 :: ByteOf(word, r) == Padded(s, i, r)
    ensures u < 64 && WordBitAt(word, u) == bit
  {
    hide ByteOf, Bit, WordBit, SkipByte;
    var k := OtherByteBit(Padded(s, i, q), bit);
    u := 8 * q + k;
    assert u / 8 == q && u % 8 == k;
    SelectsBit(word, k, q);
  }

  /**
   * Position of the first bit with the given value, for a string at any
   * address. The panic after the scan is unreachable.
   */
  method ServerBitpos(s: seq<bv8>, addr: nat, bit: bool) returns (pos: int)
    ensures Answers(s, bit, pos)
  {
    hide ByteOf, Bit, WordBit, SkipByte, SkipWord;
    var i := SkipBytes(s, addr, bit);
    var word := LoadBytes(s, i);
    if bit && word == 0 {
      EmptyWord(s, i, word);
      return -1;
    }
    ghost var u := SomeBit(s, i, word, bit);
    var t := ScanWord(word, bit);
    assert t <= u;
    pos := 8 * i + t;
    ScanAnswers(s, i, word, bit, t);
  }

  lemma NonZeroWord(s: seq<bv8>, i: nat, word: bv64) returns (q: nat)
    requires i <= |s| && word != 0
    requires forall r: nat | r < 8 :: ByteOf(word, r) == Padded(s, i, r)
    ensures q < 8 && Padded(s, i, q) != 0
  {
    hide ByteOf;
    ZeroWord(word);
    if Padded(s, i, 0) != 0 { return 0; }
    if Padded(s, i, 1) != 0 { return 1; }
    if Padded(s, i, 2) != 0 { return 2; }
    if Padded(s, i, 3) != 0 { return 3; }
    if Padded(s, i, 4) != 0 { return 4; }
    if Padded(s, i, 5) != 0 { return 5; }
    if Padded(s, i, 6) != 0 { return 6; }
    return 7;
  }

  lemma ZeroWordBytes(q: nat)
    requires q < 8
    ensures ByteOf(0, q) == 0
  {
  }

  /** A zero word after the skipped part: there is no set bit at all. */
  lemma EmptyWord(s: seq<bv8>, i: nat, word: bv64)
    requires i <= |s| && word == 0 && Absent(s, 0, 8 * i, true)
    requires forall r: nat | r < 8 :: ByteOf(word, r) == Padded(s, i, r)
    requires |s| - i >= 8 ==> exists m: nat :: i <= m < i + 8 && s[m] != SkipByte(true)
    ensures Absent(s, 0, 8 * |s|, true)
  {
    hide ByteOf, Bit;
    forall m: nat | i <= m < |s| && m < i + 8 ensures s[m] == SkipByte(true) {
      ZeroWordBytes(m - i);
      assert Padded(s, i, m - i) == s[m];
    }
    AbsentFromBytes(s, i, |s| - i, true);
  }

  /** Otherwise the loaded word holds the wanted bit somewhere. */
  lemma SomeBit(s: seq<bv8>, i: nat, word: bv64, bit: bool) returns (u: nat)
    requires i <= |s| && (bit ==> word != 0)
    requires forall r: nat | r < 8 :: ByteOf(word, r) == Padded(s, i, r)
    requires |s| - i >= 8 ==> exists m: nat :: i <= m < i + 8 && s[m] != SkipByte(bit)
    ensures u < 64 && WordBitAt(word, u) == bit
  {
    hide ByteOf, Bit, WordBit;
    if bit {
      var q := NonZeroWord(s, i, word);
      u := BitOfOtherByte(s, i, word, bit, q);
    } else if |s| - i >= 8 {
      var m: nat :| i <= m < i + 8 && s[m] != SkipByte(bit);
      assert Padded(s, i, m - i) == s[m];
      u := BitOfOtherByte(s, i, word, bit, m - i);
    } else {
      u := BitOfOtherByte(s, i, word, bit, |s| - i);
    }
  }

  /** The first match in the loaded word is the answer for the string. */
  lemma ScanAnswers(s: seq<bv8>, i: nat, word: bv64, bit: bool, t: nat)
    requires i <= |s| && Absent(s, 0, 8 * i, bit) && t < 64
    requires forall r: nat | r < 8 :: ByteOf(word, r) == Padded(s, i, r)
    requires (forall u: nat | u < t :: WordBitAt(word, u) != bit) && WordBitAt(word, t) == bit
    ensures Answers(s, bit, 8 * i + t)
  {
    hide ByteOf, Bit, WordBit, WordBitAt;
    forall u: nat | u < 64 ensures WordBitAt(word, u) == PaddedBitAt(s, 8 * i + u) { BitOfPadded(s, i, word, u); }
    forall j: nat | j < 8 * i + t && j < 8 * |s| ensures BitAt(s, j) != bit {
      if j >= 8 * i { assert WordBitAt(word, j - 8 * i) != bit; }
    }
    var past := 8 * |s| - 8 * i;
    assert past < 64 ==> WordBitAt(word, past) == PaddedBitAt(s, 8 * i + past);
    if past < t {
      assert false;
    }
  }

  // ---- BITPOS ------------------------------------------------------------------

  /** `pos` is the reply the command owes for a normalised range. */
  ghost predicate PosReply(value: Option<seq<bv8>>, bit: bool, r: Range, pos: int) {
    match value
    case None => pos == if bit then -1 else 0
    case Some(s) =>
      var (lo, hi) := BitBounds(r, |s|);
      if lo >= hi then pos == -1
      else if !Absent(s, lo, hi, bit) then IsFirst(s, lo, hi, bit, pos)
      else if !bit && !r.Between? then pos == 8 * |s|
      else pos == -1
  }

  /** The reply in terms of the bits that the range selects. */
  ghost predicate PosMeans(s: seq<bv8>, bit: bool, r: Range, pos: int) {
    if exists p: nat :: Selected(r, |s|, p) && BitAt(s, p) == bit then
      && pos >= 0 && Selected(r, |s|, pos) && BitAt(s, pos) == bit
      && forall p: nat | p < pos && Selected(r, |s|, p) :: BitAt(s, p) != bit
    else if !bit && !r.Between? && exists p: nat :: Selected(r, |s|, p) then pos == 8 * |s|
    else pos == -1
  }

  lemma PosReplyMeans(s: seq<bv8>, bit: bool, r: Range, pos: int)
    requires PosReply(Some(s), bit, r, pos)
    ensures PosMeans(s, bit, r, pos)
  {
    hide BitAt, BitBounds;
    var (lo, hi) := BitBounds(r, |s|);
    forall p: nat | p < 8 * |s| ensures lo <= p < hi <==> Selected(r, |s|, p) { BoundsMean(r, |s|, p); }
    BoundsFit(r, |s|);
    if lo < hi { assert Selected(r, |s|, lo); }
  }

  function KeepMask(b: bv8, m: bv8, bit: bool): bv8 {
    if bit then b & !m else b | m
  }

  lemma KeepMaskBits(b: bv8, m: bv8, bit: bool, j: nat)
    requires j < 8
    ensures Bit(KeepMask(b, m, bit), j) == if Bit(m, j) then !bit else Bit(b, j)
  {
  }

  /** `seg` shows bits [lo, hi) of the bytes of `s` from byte `i` on, and the unwanted bit elsewhere. */
  ghost predicate Shows(seg: seq<bv8>, s: seq<bv8>, i: nat, lo: nat, hi: nat, bit: bool) {
    && hi <= 8 * |seg| && i + |seg| <= |s|
    && forall j: nat | j < 8 * |seg| ::
         BitAt(seg, j) == if lo <= j < hi then BitAt(s, 8 * i + j) else !bit
  }

  /** An answer for the segment is an answer for the bits it shows. */
  lemma SegmentAnswers(seg: seq<bv8>, s: seq<bv8>, i: nat, lo: nat, hi: nat, bit: bool, pos: int)
    requires Shows(seg, s, i, lo, hi, bit) && Answers(seg, bit, pos)
    ensures if Absent(s, 8 * i + lo, 8 * i + hi, bit) then pos == if bit then -1 else 8 * |seg|
            else 0 <= pos < 8 * |seg| && IsFirst(s, 8 * i + lo, 8 * i + hi, bit, 8 * i + pos)
  {
    hide BitAt;
    if Absent(s, 8 * i + lo, 8 * i + hi, bit) {
      forall j: nat | j < 8 * |seg| ensures BitAt(seg, j) != bit {
        assert lo <= j < hi ==> BitAt(s, 8 * i + j) != bit;
      }
    } else {
      var m: nat :| 8 * i + lo <= m < 8 * i + hi && BitAt(s, m) == bit;
      assert BitAt(seg, m - 8 * i) == bit;
      forall m: nat | 8 * i + lo <= m < 8 * i + pos ensures BitAt(s, m) != bit {
        assert BitAt(seg, m - 8 * i) != bit;
      }
    }
  }

  lemma SliceShows(s: seq<bv8>, i: nat, n: nat, bit: bool)
    requires i + n <= |s|
    ensures Shows(s[i..i + n], s, i, 0, 8 * n, bit)
  {
    hide Bit;
    var seg := s[i..i + n];
    forall j: nat | j < 8 * |seg| ensures BitAt(seg, j) == BitAt(s, 8 * i + j) {
      assert (8 * i + j) / 8 == i + j / 8 && (8 * i + j) % 8 == j % 8;
    }
  }

  /** Masking the bits before `a` and after `b` out of byte `i` leaves a view of bits a..b. */
  lemma MaskedShows(s: seq<bv8>, i: nat, x: bv8, a: nat, b: nat, bit: bool)
    requires i < |s| && a < 8 && b < 8
    requires x == KeepMask(KeepMask(s[i], FirstMask(a), bit), LastMask(b), bit)
    ensures Shows([x], s, i, a, b + 1, bit)
  {
    hide Bit, FirstMask, LastMask, KeepMask;
    var seg := [x];
    forall j: nat | j < 8 * |seg| ensures BitAt(seg, j) == if a <= j < b + 1 then BitAt(s, 8 * i + j) else !bit {
      assert (8 * i + j) / 8 == i && (8 * i + j) % 8 == j;
      KeepMaskBits(s[i], FirstMask(a), bit, j);
      KeepMaskBits(KeepMask(s[i], FirstMask(a), bit), LastMask(b), bit, j);
      FirstMaskBits(a, j);
      LastMaskBits(b, j);
    }
  }

  lemma NoMask(b: bv8, bit: bool)
    ensures KeepMask(b, 0, bit) == b && FirstMask(0) == 0 && LastMask(7) == 0
  {
  }

  /** What is sent for the final `pos`, relative to byte `start` of a rest of `bytes` bytes. */
  function Final(pos: int, start: nat, bytes: nat, bit: bool, endGiven: bool): int {
    if endGiven && !bit && pos == 8 * bytes then -1
    else if pos != -1 then pos + 8 * start
    else pos
  }

  ghost predicate RangeReply(s: seq<bv8>, lo: nat, hi: nat, bit: bool, endGiven: bool, pos: int)
    requires hi <= 8 * |s|
  {
    if !Absent(s, lo, hi, bit) then IsFirst(s, lo, hi, bit, pos)
    else pos == if bit || endGiven then -1 else hi
  }

  /**
   * The search of bytes start0..end with `a` and `b` the first and last bit used
   * in the edge bytes: first byte alone, then the whole bytes, then the last byte.
   */
  method SearchBytes(s: seq<bv8>, start0: nat, end: nat, a: nat, b: nat, bit: bool, endGiven: bool, addr: nat)
    returns (reply: int)
    requires start0 <= end < |s| && a < 8 && b < 8 && (start0 == end ==> a <= b)
    requires !endGiven ==> a == 0 && b == 7
    ensures RangeReply(s, 8 * start0 + a, 8 * end + b + 1, bit, endGiven, reply)
  {
    hide Bit, BitAt, FirstMask, LastMask, KeepMask, Answers, Shows, IsFirst, Absent;
    var start, bytes, pos := start0, end - start0 + 1, 0;
    var firstMask, lastMask := FirstMask(a), LastMask(b);
    MaskIsZero(a);
    MaskIsZero(b);
    if firstMask != 0 {
      var tmpchar := KeepMask(s[start], firstMask, bit);
      if lastMask != 0 && bytes == 1 { tmpchar := KeepMask(tmpchar, lastMask, bit); }
      pos := ServerBitpos([tmpchar], addr, bit);
      ghost var b0 := if bytes == 1 then b else 7;
      NoMask(KeepMask(s[start], firstMask, bit), bit);
      MaskedShows(s, start, tmpchar, a, b0, bit);
      SegmentAnswers([tmpchar], s, start, a, b0 + 1, bit, pos);
      FirstPart(s, 8 * start + a, 8 * start + b0 + 1, 8 * end + b + 1, bit);
      if bytes == 1 || (pos != -1 && pos != 8) {
        return Final(pos, start, bytes, bit, endGiven);
      }
      start := start + 1;
      bytes := bytes - 1;
    }
    assert Absent(s, 8 * start0 + a, 8 * start, bit) by { AbsentNothing(s, 8 * start, bit); }
    var curbytes := bytes - if lastMask != 0 then 1 else 0;
    if curbytes > 0 {
      pos := ServerBitpos(s[start..start + curbytes], addr + start, bit);
      SliceShows(s, start, curbytes, bit);
      SegmentAnswers(s[start..start + curbytes], s, start, 0, 8 * curbytes, bit, pos);
      NextPart(s, 8 * start0 + a, 8 * start, 8 * (start + curbytes), 8 * end + b + 1, bit);
      if bytes == curbytes || (pos != -1 && pos != 8 * curbytes) {
        return Final(pos, start, bytes, bit, endGiven);
      }
      start := start + curbytes;
      bytes := bytes - curbytes;
    }
    var tmpchar := KeepMask(s[end], lastMask, bit);
    pos := ServerBitpos([tmpchar], addr, bit);
    NoMask(s[end], bit);
    MaskedShows(s, end, tmpchar, 0, b, bit);
    SegmentAnswers([tmpchar], s, end, 0, b + 1, bit, pos);
    NextPart(s, 8 * start0 + a, 8 * start, 8 * end + b + 1, 8 * end + b + 1, bit);
    return Final(pos, start, bytes, bit, endGiven);
  }

  lemma AbsentNothing(s: seq<bv8>, i: nat, bit: bool)
    requires i <= 8 * |s|
    ensures Absent(s, i, i, bit)
  {
  }

  /** A hit in the first part is a hit in the whole; a miss leaves the rest to search. */
  lemma FirstPart(s: seq<bv8>, lo: nat, mid: nat, hi: nat, bit: bool)
    requires lo <= mid <= hi <= 8 * |s|
    ensures forall p :: IsFirst(s, lo, mid, bit, p) ==> IsFirst(s, lo, hi, bit, p) && !Absent(s, lo, hi, bit)
    ensures forall p :: IsFirst(s, lo, mid, bit, p) ==> lo <= p < mid
  {
    hide BitAt;
  }

  lemma NextPart(s: seq<bv8>, lo: nat, mid: nat, mid': nat, hi: nat, bit: bool)
    requires lo <= mid <= mid' <= hi <= 8 * |s| && Absent(s, lo, mid, bit)
    ensures forall p :: IsFirst(s, mid, mid', bit, p) ==> IsFirst(s, lo, hi, bit, p) && !Absent(s, lo, hi, bit)
    ensures forall p :: IsFirst(s, mid, mid', bit, p) ==> mid <= p < mid'
    ensures Absent(s, mid, mid', bit) ==> Absent(s, lo, mid', bit)
  {
    hide BitAt;
  }

  /** BITPOS: parse-time range, normalisation, masks and search. */
  method BitPosCommand(value: Option<seq<bv8>>, bit: bool, r: Range, addr: nat) returns (reply: int)
    ensures PosReply(value, bit, r, reply)
  {
    hide Bit, BitAt, Absent, IsFirst;
    var s := if value.Some? then value.value else [];
    var start, end: int;
    var a, b := 0, 7;
    if r.Whole? {
      start, end := 0, |s| - 1;
    } else {
      var isbit := r.Between? && r.inBits;
      start, end := Normalise(r.start, if r.Between? then r.end else |s| - 1, if isbit then 8 * |s| else |s|);
      if isbit && start <= end {
        a, b := start % 8, end % 8;
        start, end := start / 8, end / 8;
      }
    }
    if value.None? {
      return if bit then -1 else 0;
    }
    if start > end {
      return -1;
    }
    reply := SearchBytes(s, start, end, a, b, bit, r.Between?, addr);
  }
}

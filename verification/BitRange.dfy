/**
 * BITCOUNT (src/bitops.c:943-1038): range normalisation, whole-byte counting
 * and the two edge masks that take bits outside a bit range back out.
 */
module BitRange {
  import opened Common
  import opened Bits
  import Popcount

  /** The optional part of the command line: nothing, a start, or a start, an end and a unit. */
  datatype Range = Whole | From(start: int) | Between(start: int, end: int, inBits: bool)

  function Clamp(i: int, total: nat): int {
    var j := if i < 0 then total + i else i;
    if j < 0 then 0 else j
  }

  function ClampEnd(i: int, total: nat): int {
    if Clamp(i, total) >= total then total - 1 else Clamp(i, total)
  }

  lemma ClampLast(n: nat)
    ensures ClampEnd(n - 1, n) == n - 1
  {
  }

  /** Bits [lo, hi) that a range denotes in a string of `len` bytes; empty when lo >= hi. */
  function BitBounds(r: Range, len: nat): (int, int) {
    match r
    case Whole => (0, 8 * len)
    case From(start) => (8 * Clamp(start, len), 8 * len)
    case Between(start, end, inBits) =>
      if inBits then (Clamp(start, 8 * len), ClampEnd(end, 8 * len) + 1)
      else (8 * Clamp(start, len), 8 * ClampEnd(end, len) + 8)
  }

  // ---- Edge masks -----------------------------------------------------------

  /** `1 << n` in a C int. */
  function OneShl(n: nat): bv32
    requires n <= 8
  {
    match n
    case 0 => 1 case 1 => 2 case 2 => 4 case 3 => 8 case 4 => 16
    case 5 => 32 case 6 => 64 case 7 => 128 case 8 => 256
  }

  /** `firstByteNegMask` for a range starting at bit `k` of its first byte. */
  function FirstMask(k: nat): bv8
    requires k < 8
  {
    (!(OneShl(8 - k) - 1) & 0xFF) as bv8
  }

  /** `lastByteNegMask` for a range ending at bit `k` of its last byte. */
  function LastMask(k: nat): bv8
    requires k < 8
  {
    (OneShl(7 - k) - 1) as bv8
  }

  lemma FirstMaskBits(k: nat, j: nat)
    requires k < 8 && j < 8
    ensures Bit(FirstMask(k), j) <==> j < k
  {
  }

  lemma LastMaskBits(k: nat, j: nat)
    requires k < 8 && j < 8
    ensures Bit(LastMask(k), j) <==> k < j
  {
  }

  lemma MaskIsZero(k: nat)
    requires k < 8
    ensures FirstMask(k) == 0 <==> k == 0
    ensures LastMask(k) == 0 <==> k == 7
  {
  }

  lemma AndBits(a: bv8, b: bv8, j: nat)
    requires j < 8
    ensures Bit(a & b, j) <==> Bit(a, j) && Bit(b, j)
  {
  }

  lemma {:induction false} OnesUnderMask(b: bv8, m: bv8, lo: nat, hi: nat, n: nat)
    requires lo <= hi <= 8 && n <= 8
    requires forall j: nat | j < 8 :: Bit(m, j) <==> lo <= j < hi
    ensures OnesIn(b & m, 0, n) == OnesIn(b, if lo <= n then lo else n, if n <= lo then n else if n <= hi then n else hi)
    decreases n
  {
    hide Bit;
    if n > 0 {
      OnesUnderMask(b, m, lo, hi, n - 1);
      AndBits(b, m, n - 1);
    }
  }

  lemma FirstMaskOnes(b: bv8, k: nat)
    requires k < 8
    ensures Popcount.BitsInByte(b & FirstMask(k)) == OnesIn(b, 0, k)
  {
    hide Bit, FirstMask;
    forall j: nat | j < 8 ensures Bit(FirstMask(k), j) <==> 0 <= j < k { FirstMaskBits(k, j); }
    OnesUnderMask(b, FirstMask(k), 0, k, 8);
  }

  lemma LastMaskOnes(b: bv8, k: nat)
    requires k < 8
    ensures Popcount.BitsInByte(b & LastMask(k)) == OnesIn(b, k + 1, 8)
  {
    hide Bit, LastMask;
    forall j: nat | j < 8 ensures Bit(LastMask(k), j) <==> k + 1 <= j < 8 { LastMaskBits(k, j); }
    OnesUnderMask(b, LastMask(k), k + 1, 8, 8);
  }

  lemma {:induction false} CountBitsSlice(s: seq<bv8>, first: nat, last: nat, n: nat)
    requires first <= last <= |s| && n <= 8 * (last - first)
    ensures CountBits(s[first..last], 0, n) == CountBits(s, 8 * first, 8 * first + n)
    decreases n
  {
    hide Bit;
    if n > 0 {
      CountBitsSlice(s, first, last, n - 1);
      assert (8 * first + n - 1) / 8 == first + (n - 1) / 8 && (8 * first + n - 1) % 8 == (n - 1) % 8;
    }
  }

  lemma PairCounts(x: bv8, y: bv8)
    ensures CountBits([x, y], 0, 16) == Popcount.BitsInByte(x) + Popcount.BitsInByte(y)
  {
    hide OnesIn, CountBits;
    Popcount.ByteCount([x, y], 0);
    Popcount.ByteCount([x, y], 1);
    CountBitsSplit([x, y], 0, 8, 16);
  }

  /**
   * Bits of the bytes that hold [lo, hi), less the bits before `lo` in the first
   * and from `hi` on in the last byte. When both fall in one byte the two
   * subtracted runs are still disjoint because lo < hi.
   */
  lemma EdgesOut(s: seq<bv8>, lo: nat, hi: nat)
    requires lo < hi <= 8 * |s|
    ensures var first, last := lo / 8, (hi - 1) / 8;
            && last < |s|
            && CountBits(s, lo, hi) == CountBits(s, 8 * first, 8 * last + 8)
                                       - OnesIn(s[first], 0, lo % 8) - OnesIn(s[last], (hi - 1) % 8 + 1, 8)
  {
    hide OnesIn, CountBits;
    var first, last := lo / 8, (hi - 1) / 8;
    CountBitsInByte(s, first, 0, lo % 8);
    CountBitsInByte(s, last, (hi - 1) % 8 + 1, 8);
    CountBitsSplit(s, 8 * first, lo, hi);
    CountBitsSplit(s, 8 * first, hi, 8 * last + 8);
  }

  /** The reply the command owes: the set bits of the normalised range. */
  function CountReply(value: Option<seq<bv8>>, r: Range): nat {
    match value
    case None => 0
    case Some(s) =>
      var (lo, hi) := BitBounds(r, |s|);
      if r.Between? && r.start < 0 && r.end < 0 && r.start > r.end then 0
      else if lo < hi then CountBits(s, lo, hi) else 0
  }

  // ---- What a range selects ------------------------------------------------------------------------

  /** Position `q` of `n` is not before `start`; a negative index counts from the end. */
  predicate NotBefore(start: int, q: nat, n: nat) {
    if start >= 0 then start <= q else n + start <= q
  }

  /** Position `q` is not after `end`; an end before the first position selects that position. */
  predicate NotAfter(end: int, q: nat, n: nat) {
    if end >= 0 then q <= end else q <= n + end || q == 0
  }

  /** Bit `p` of a string of `len` bytes is in the range, in bytes or in bits. */
  predicate Selected(r: Range, len: nat, p: nat) {
    && p < 8 * len
    && match r
       case Whole => true
       case From(start) => NotBefore(start, p / 8, len)
       case Between(start, end, inBits) =>
         var q, n := if inBits then p else p / 8, if inBits then 8 * len else len;
         NotBefore(start, q, n) && NotAfter(end, q, n)
  }

  lemma BoundsMean(r: Range, len: nat, p: nat)
    requires p < 8 * len
    ensures BitBounds(r, len).0 <= p < BitBounds(r, len).1 <==> Selected(r, len, p)
  {
    assert 8 * (p / 8) <= p < 8 * (p / 8) + 8;
  }

  ghost function OnesFrom(s: seq<bv8>, lo: nat, hi: nat): set<nat>
    requires hi <= 8 * |s|
  {
    set p: nat | lo <= p < hi && BitAt(s, p)
  }

  lemma {:induction false} CountIsCardinality(s: seq<bv8>, lo: nat, hi: nat)
    requires lo <= hi <= 8 * |s|
    ensures CountBits(s, lo, hi) == |OnesFrom(s, lo, hi)|
    decreases hi
  {
    hide BitAt;
    if lo < hi {
      CountIsCardinality(s, lo, hi - 1);
      assert OnesFrom(s, lo, hi) == OnesFrom(s, lo, hi - 1) + if BitAt(s, hi - 1) then {hi - 1} else {};
    } else {
      assert OnesFrom(s, lo, hi) == {};
    }
  }

  /** BITCOUNT counts the selected bits that are set; two negative indexes in the wrong order give 0. */
  lemma CountReplyMeans(s: seq<bv8>, r: Range)
    ensures CountReply(Some(s), r) == if r.Between? && 0 > r.start > r.end then 0
                                      else |set p: nat | p < 8 * |s| && Selected(r, |s|, p) && BitAt(s, p)|
    ensures CountReply(None, r) == 0
  {
    hide BitAt, CountBits, BitBounds;
    var (lo, hi) := BitBounds(r, |s|);
    var ones := set p: nat | p < 8 * |s| && Selected(r, |s|, p) && BitAt(s, p);
    forall p: nat | p < 8 * |s| ensures lo <= p < hi <==> Selected(r, |s|, p) { BoundsMean(r, |s|, p); }
    BoundsFit(r, |s|);
    if lo < hi {
      CountIsCardinality(s, lo, hi);
      assert ones == OnesFrom(s, lo, hi);
    } else {
      assert ones == {};
    }
  }

  lemma BoundsFit(r: Range, len: nat)
    ensures 0 <= BitBounds(r, len).0 && BitBounds(r, len).1 <= 8 * len
  {
  }

  /** Set bits of `b` under a mask. */
  function MaskedOnes(b: bv8, m: bv8): nat {
    Popcount.BitsInByte(b & m)
  }

  lemma BitRangeEdges(s: seq<bv8>, lo: nat, hi: nat)
    requires lo < hi <= 8 * |s|
    ensures var first, last := lo / 8, (hi - 1) / 8;
            && first <= last < |s|
            && CountBits(s, lo, hi) == CountBits(s, 8 * first, 8 * last + 8)
                                       - MaskedOnes(s[first], FirstMask(lo % 8))
                                       - MaskedOnes(s[last], LastMask((hi - 1) % 8))
  {
    hide OnesIn, CountBits, FirstMask, LastMask, Popcount.BitsInByte;
    EdgesOut(s, lo, hi);
    FirstMaskOnes(s[lo / 8], lo % 8);
    LastMaskOnes(s[(hi - 1) / 8], (hi - 1) % 8);
  }

  lemma NoBitsUnderZero(b: bv8)
    ensures MaskedOnes(b, 0) == 0 && Popcount.BitsInByte(0) == 0
  {
  }

  /** Counts whole bytes start..end and takes out the masked bits of the edge bytes. */
  method CountBytes(s: seq<bv8>, start: nat, end: nat, firstMask: bv8, lastMask: bv8, addr: nat, pairAddr: nat)
    returns (count: int)
    requires start <= end < |s|
    ensures count == CountBits(s, 8 * start, 8 * end + 8) - MaskedOnes(s[start], firstMask)
                     - MaskedOnes(s[end], lastMask)
  {
    hide CountBits, Popcount.BitsInByte;
    count := Popcount.PopcountScalar(s[start..end + 1], addr + start);
    CountBitsSlice(s, start, end + 1, 8 * (end + 1 - start));
    NoBitsUnderZero(s[start]);
    NoBitsUnderZero(s[end]);
    if firstMask != 0 || lastMask != 0 {
      var firstlast: seq<bv8> := [0, 0];
      if firstMask != 0 { firstlast := firstlast[0 := s[start] & firstMask]; }
      if lastMask != 0 { firstlast := firstlast[1 := s[end] & lastMask]; }
      PairCounts(firstlast[0], firstlast[1]);
      assert firstlast == [firstlast[0], firstlast[1]];
      var outside := Popcount.PopcountScalar(firstlast, pairAddr);
      count := count - outside;
    }
  }

  /** What the two "convert negative indexes" steps compute for one unit. */
  method Normalise(start0: int, end0: int, totlen: nat) returns (start: int, end: int)
    ensures start == Clamp(start0, totlen) && end == ClampEnd(end0, totlen)
    ensures 0 <= start && -1 <= end < totlen
  {
    start, end := start0, end0;
    if start < 0 { start := totlen + start; }
    if end < 0 { end := totlen + end; }
    if start < 0 { start := 0; }
    if end < 0 { end := 0; }
    if end >= totlen { end := totlen - 1; }
  }

  /**
   * BITCOUNT. `addr` is where the string lies in memory, `pairAddr` where the
   * two edge bytes are put; neither matters to the reply.
   */
  method BitCount(value: Option<seq<bv8>>, r: Range, addr: nat, pairAddr: nat) returns (count: int)
    ensures count == CountReply(value, r)
  {
    hide CountBits, FirstMask, LastMask, MaskedOnes, Clamp, ClampEnd;
    var s := if value.Some? then value.value else [];
    ClampLast(|s|);
    var start, end: int;
    var firstByteNegMask: bv8, lastByteNegMask: bv8 := 0, 0;
    if r.Whole? {
      start, end := 0, |s| - 1;
    } else {
      var isbit := r.Between? && r.inBits;
      start := r.start;
      end := if r.Between? then r.end else |s| - 1;
      if start < 0 && end < 0 && start > end {
        return 0;
      }
      start, end := Normalise(start, end, if isbit then 8 * |s| else |s|);
      if isbit && start <= end {
        firstByteNegMask := FirstMask(start % 8);
        lastByteNegMask := LastMask(end % 8);
        BitRangeEdges(s, start, end + 1);
        start, end := start / 8, end / 8;
      }
    }
    if value.None? || start > end {
      return 0;
    }
    NoBitsUnderZero(s[start]);
    NoBitsUnderZero(s[end]);
    count := CountBytes(s, start, end, firstByteNegMask, lastByteNegMask, addr, pairAddr);
  }
}

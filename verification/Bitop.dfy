/**
 * BITOP (src/bitops.c:756-941): the four-words-at-a-time path over the common
 * length, and the byte loop that stops early on an absorbing value.
 */
module Bitop {
  import opened Bits
  import opened BitRange
  import opened Bitpos

  datatype Op = And | Or | Xor | Not

  /** What a source key holds. */
  datatype Source = Missing | Str(bytes: seq<bv8>) | OtherType

  datatype Outcome = NotArity | WrongType | Deleted | Stored(bytes: seq<bv8>)

  function Apply(op: Op, a: bv8, b: bv8): bv8 {
    match op
    case And => a & b case Or => a | b case Xor => a ^ b case Not => a
  }

  function Bytes(s: Source): seq<bv8> {
    if s.Str? then s.bytes else []
  }

  /** Byte `j` of a source, zero past its end. */
  function ByteAt(s: Source, j: nat): bv8 {
    if j < |Bytes(s)| then Bytes(s)[j] else 0
  }

  /** The definition: byte `j` of the first `n` sources combined from left to right. */
  function Combined(op: Op, srcs: seq<Source>, j: nat, n: nat): bv8
    requires 0 < n <= |srcs|
  {
    if n == 1 then (if op == Not then !ByteAt(srcs[0], j) else ByteAt(srcs[0], j))
    else Apply(op, Combined(op, srcs, j, n - 1), ByteAt(srcs[n - 1], j))
  }

  function MaxLen(srcs: seq<Source>): nat {
    if |srcs| == 0 then 0
    else
      var m := MaxLen(srcs[..|srcs| - 1]);
      if |Bytes(srcs[|srcs| - 1])| > m then |Bytes(srcs[|srcs| - 1])| else m
  }

  /** What the command does to the target key. */
  function Result(op: Op, srcs: seq<Source>): Outcome
    requires |srcs| > 0
  {
    if op == Not && |srcs| != 1 then NotArity
    else if exists s | s in srcs :: s.OtherType? then WrongType
    else if MaxLen(srcs) == 0 then Deleted
    else Stored(seq(MaxLen(srcs), j requires j >= 0 => Combined(op, srcs, j, |srcs|)))
  }

  // ---- Word operations act on every byte ----------------------------------------

  function Apply64(op: Op, a: bv64, b: bv64): bv64 {
    match op
    case And => a & b case Or => a | b case Xor => a ^ b case Not => a
  }

  lemma LoadedByte(s: seq<bv8>, i: nat, k: nat)
    requires i + 8 <= |s| && k < 8
    ensures ByteOf(LoadWord(s, i), 7 - k) == s[i + k]
  {
  }

  lemma PushAnd(b: bv8, v: bv64, c: bv8, w: bv64)
    ensures Apply64(And, Push(b, v), Push(c, w)) == Push(Apply(And, b, c), Apply64(And, v, w))
  {
  }

  lemma PushOr(b: bv8, v: bv64, c: bv8, w: bv64)
    ensures Apply64(Or, Push(b, v), Push(c, w)) == Push(Apply(Or, b, c), Apply64(Or, v, w))
  {
  }

  lemma PushXor(b: bv8, v: bv64, c: bv8, w: bv64)
    ensures Apply64(Xor, Push(b, v), Push(c, w)) == Push(Apply(Xor, b, c), Apply64(Xor, v, w))
  {
  }

  /** The little-endian load of `n` bytes from `i` on, built from the last byte down. */
  function Pushed(s: seq<bv8>, i: nat, n: nat): bv64
    requires i + n <= |s|
    decreases n
  {
    if n == 0 then 0 else Push(s[i], Pushed(s, i + 1, n - 1))
  }

  lemma ZeroZero(op: Op)
    ensures Apply64(op, 0, 0) == 0
  {
  }

  function Zip(op: Op, x: seq<bv8>, y: seq<bv8>): (z: seq<bv8>)
    ensures |z| == if |x| < |y| then |x| else |y|
    ensures forall k: nat | k < |z| :: z[k] == Apply(op, x[k], y[k])
  {
    seq(if |x| < |y| then |x| else |y|, k requires 0 <= k < |x| && k < |y| => Apply(op, x[k], y[k]))
  }

  /** A word operation is the byte operation in every place. */
  lemma {:induction false} PushedApply(op: Op, x: seq<bv8>, y: seq<bv8>, i: nat, n: nat)
    requires i + n <= |x| && i + n <= |y| && op != Not
    ensures Apply64(op, Pushed(x, i, n), Pushed(y, i, n)) == Pushed(Zip(op, x, y), i, n)
    decreases n
  {
    hide Push, Apply64, Apply;
    if n == 0 {
      ZeroZero(op);
    } else {
      PushedApply(op, x, y, i + 1, n - 1);
      var v, w := Pushed(x, i + 1, n - 1), Pushed(y, i + 1, n - 1);
      match op {
        case And => PushAnd(x[i], v, y[i], w);
        case Or => PushOr(x[i], v, y[i], w);
        case Xor => PushXor(x[i], v, y[i], w);
      }
    }
  }

  lemma LoadIsPushed(s: seq<bv8>, i: nat)
    requires i + 8 <= |s|
    ensures LoadWord(s, i) == Pushed(s, i, 8)
  {
    hide Push;
    assert Pushed(s, i + 6, 2) == Push(s[i + 6], Push(s[i + 7], 0));
    assert Pushed(s, i + 4, 4) == Push(s[i + 4], Push(s[i + 5], Pushed(s, i + 6, 2)));
    assert Pushed(s, i + 2, 6) == Push(s[i + 2], Push(s[i + 3], Pushed(s, i + 4, 4)));
  }

  /** Storing the result of a word operation stores the byte operation's results. */
  lemma StoredByte(op: Op, x: seq<bv8>, y: seq<bv8>, at: nat, k: nat)
    requires at + 8 <= |x| && at + 8 <= |y| && k < 8 && op != Not
    ensures ByteOf(Apply64(op, LoadWord(x, at), LoadWord(y, at)), 7 - k) == Apply(op, x[at + k], y[at + k])
  {
    hide ByteOf, LoadWord, Apply64, Apply, Pushed;
    LoadIsPushed(x, at);
    LoadIsPushed(y, at);
    PushedApply(op, x, y, at, 8);
    LoadIsPushed(Zip(op, x, y), at);
    LoadedByte(Zip(op, x, y), at, k);
  }

  lemma NotIsXor(w: bv64)
    ensures !w == Apply64(Xor, w, 0xFFFF_FFFF_FFFF_FFFF)
  {
  }

  lemma NotIsXor8(b: bv8)
    ensures !b == Apply(Xor, b, 0xff)
  {
  }

  lemma NegatedByte(x: seq<bv8>, at: nat, k: nat)
    requires at + 8 <= |x| && k < 8
    ensures ByteOf(!LoadWord(x, at), 7 - k) == !x[at + k]
  {
    hide ByteOf, LoadWord, Apply64, Apply;
    var ones: seq<bv8> := seq(at + 8, _ => 0xff);
    WordSkips(ones, at, false);
    NotIsXor(LoadWord(x, at));
    NotIsXor8(x[at + k]);
    StoredByte(Xor, x, ones, at, k);
  }

  // ---- The word path ----------------------------------------------------------------

  /** `lres[0] op= lp[i][0]` on the eight bytes at `at`. */
  method CombineWord(op: Op, res: array<bv8>, src: seq<bv8>, at: nat)
    requires at + 8 <= res.Length && at + 8 <= |src| && op != Not
    modifies res
    ensures forall m: nat | m < res.Length ::
              res[m] == if at <= m < at + 8 then Apply(op, old(res[m]), src[m]) else old(res[m])
  {
    hide ByteOf, LoadWord, Apply64, Apply;
    ghost var before := res[..];
    var w := Apply64(op, LoadWord(res[..], at), LoadWord(src, at));
    for k := 0 to 8
      invariant forall m: nat | m < res.Length ::
                  res[m] == if at <= m < at + k then Apply(op, before[m], src[m]) else before[m]
    {
      res[at + k] := ByteOf(w, 7 - k);
      StoredByte(op, before, src, at, k);
    }
  }

  /** `lres[0] = ~lres[0]`. */
  method NegateWord(res: array<bv8>, at: nat)
    requires at + 8 <= res.Length
    modifies res
    ensures forall m: nat | m < res.Length ::
              res[m] == if at <= m < at + 8 then !old(res[m]) else old(res[m])
  {
    hide ByteOf, LoadWord;
    ghost var before := res[..];
    var w := !LoadWord(res[..], at);
    for k := 0 to 8
      invariant forall m: nat | m < res.Length ::
                  res[m] == if at <= m < at + k then !before[m] else before[m]
    {
      res[at + k] := ByteOf(w, 7 - k);
      NegatedByte(before, at, k);
    }
  }

  method NegateBlock(res: array<bv8>, j: nat)
    requires j + 32 <= res.Length
    modifies res
    ensures forall p: nat | p < res.Length ::
              res[p] == if j <= p < j + 32 then !old(res[p]) else old(res[p])
  {
    NegateWord(res, j);
    NegateWord(res, j + 8);
    NegateWord(res, j + 16);
    NegateWord(res, j + 24);
  }

  /** The fast path over whole 32-byte blocks that every source covers; `j` is the first byte left. */
  method FastPath(op: Op, srcs: seq<Source>, minlen: nat, res: array<bv8>) returns (j: nat)
    requires |srcs| > 0 && (op == Not ==> |srcs| == 1) && minlen <= res.Length
    requires forall s | s in srcs :: minlen <= |Bytes(s)|
    modifies res
    ensures j <= minlen < j + 32
    ensures forall m: nat | m < j :: res[m] == Combined(op, srcs, m, |srcs|)
  {
    hide Apply;
    j := 0;
    var left := minlen;
    for m := 0 to minlen
      invariant forall p: nat | p < m :: res[p] == ByteAt(srcs[0], p)
    {
      res[m] := Bytes(srcs[0])[m];
    }
    while left >= 32
      invariant j + left == minlen
      invariant forall p: nat | p < j :: res[p] == Combined(op, srcs, p, |srcs|)
      invariant forall p: nat | j <= p < minlen :: res[p] == ByteAt(srcs[0], p)
    {
      if op == Not {
        NegateBlock(res, j);
      } else {
        CombineBlock(op, srcs, res, j);
      }
      j := j + 32;
      left := left - 32;
    }
  }

  /** The inner loop of the fast path: one 32-byte block over all sources. */
  method CombineBlock(op: Op, srcs: seq<Source>, res: array<bv8>, j: nat)
    requires |srcs| > 0 && op != Not && j + 32 <= res.Length
    requires forall s | s in srcs :: j + 32 <= |Bytes(s)|
    requires forall p: nat | j <= p < j + 32 :: res[p] == ByteAt(srcs[0], p)
    modifies res
    ensures forall p: nat | p < res.Length ::
              res[p] == if j <= p < j + 32 then Combined(op, srcs, p, |srcs|) else old(res[p])
  {
    hide Apply;
    for i := 1 to |srcs|
      invariant forall p: nat | p < res.Length ::
                  res[p] == if j <= p < j + 32 then Combined(op, srcs, p, i) else old(res[p])
    {
      var src := Bytes(srcs[i]);
      CombineWord(op, res, src, j);
      CombineWord(op, res, src, j + 8);
      CombineWord(op, res, src, j + 16);
      CombineWord(op, res, src, j + 24);
    }
  }

  // ---- The byte loop ----------------------------------------------------------------

  /** The value from which further sources change nothing. */
  predicate Absorbs(op: Op, b: bv8) {
    (op == And && b == 0) || (op == Or && b == 0xff)
  }

  lemma AbsorbsNext(op: Op, b: bv8, c: bv8)
    requires Absorbs(op, b)
    ensures Apply(op, b, c) == b
  {
  }

  lemma {:induction false} AbsorbsRest(op: Op, srcs: seq<Source>, j: nat, i: nat, n: nat)
    requires 0 < i <= n <= |srcs| && Absorbs(op, Combined(op, srcs, j, i))
    ensures Combined(op, srcs, j, n) == Combined(op, srcs, j, i)
    decreases n
  {
    hide Apply, Absorbs;
    if i < n {
      AbsorbsRest(op, srcs, j, i, n - 1);
      AbsorbsNext(op, Combined(op, srcs, j, i), ByteAt(srcs[n - 1], j));
    }
  }

  method CombineByte(op: Op, srcs: seq<Source>, j: nat) returns (output: bv8)
    requires |srcs| > 0 && (op == Not ==> |srcs| == 1)
    ensures output == Combined(op, srcs, j, |srcs|)
  {
    hide Apply, Absorbs;
    output := ByteAt(srcs[0], j);
    if op == Not { output := !output; }
    var i := 1;
    while i < |srcs|
      invariant 1 <= i <= |srcs|
      invariant output == Combined(op, srcs, j, i)
    {
      output := Apply(op, output, ByteAt(srcs[i], j));
      i := i + 1;
      if Absorbs(op, output) {
        AbsorbsRest(op, srcs, j, i, |srcs|);
        return;
      }
    }
  }

  // ---- The command ---------------------------------------------------------------------

  lemma {:induction false} MaxLenIsMax(srcs: seq<Source>)
    ensures forall s | s in srcs :: |Bytes(s)| <= MaxLen(srcs)
    ensures MaxLen(srcs) > 0 ==> exists s | s in srcs :: |Bytes(s)| == MaxLen(srcs)
  {
    if |srcs| > 0 {
      var front, last := srcs[..|srcs| - 1], srcs[|srcs| - 1];
      MaxLenIsMax(front);
      assert forall s | s in srcs :: s in front || s == last;
      assert last in srcs && forall s | s in front :: s in srcs;
    }
  }

  /** The lookup loop: the longest and the shortest source, unless one has the wrong type. */
  method Lengths(srcs: seq<Source>) returns (wrong: bool, minlen: nat, maxlen: nat)
    requires |srcs| > 0
    ensures wrong <==> exists s | s in srcs :: s.OtherType?
    ensures !wrong ==> maxlen == MaxLen(srcs)
    ensures !wrong ==> (forall s | s in srcs :: minlen <= |Bytes(s)|) && exists s | s in srcs :: minlen == |Bytes(s)|
  {
    wrong, minlen, maxlen := false, 0, 0;
    for j := 0 to |srcs|
      invariant forall i: nat | i < j :: !srcs[i].OtherType? && minlen <= |Bytes(srcs[i])|
      invariant j > 0 ==> exists i: nat | i < j :: minlen == |Bytes(srcs[i])|
      invariant maxlen == MaxLen(srcs[..j])
    {
      assert srcs[..j + 1][..j] == srcs[..j];
      match srcs[j] {
        case Missing =>
          minlen := 0;
        case OtherType =>
          wrong := true;
          assert srcs[j] in srcs;
          return;
        case Str(b) =>
          if |b| > maxlen { maxlen := |b|; }
          if j == 0 || |b| < minlen { minlen := |b|; }
      }
    }
    assert srcs[..|srcs|] == srcs;
  }

  // ---- What the result means, bit by bit ---------------------------------------------------------

  /** The source has bit `i` set; a missing key and everything past a string's end count as zero. */
  predicate Has(s: Source, i: nat) {
    s.Str? && PaddedBitAt(s.bytes, i)
  }

  /** How many of the sources have bit `i` set. */
  function Having(srcs: seq<Source>, i: nat): nat {
    if |srcs| == 0 then 0 else Having(srcs[..|srcs| - 1], i) + if Has(srcs[|srcs| - 1], i) then 1 else 0
  }

  /** The bit that the operation owes. */
  ghost predicate Owed(op: Op, srcs: seq<Source>, i: nat)
    requires |srcs| > 0
  {
    match op
    case And => forall s | s in srcs :: Has(s, i)
    case Or => exists s | s in srcs :: Has(s, i)
    case Xor => Having(srcs, i) % 2 == 1
    case Not => !Has(srcs[0], i)
  }

  lemma OrBits(a: bv8, b: bv8, k: nat)
    requires k < 8
    ensures Bit(a | b, k) <==> Bit(a, k) || Bit(b, k)
  {
  }

  lemma XorMask(a: bv8, b: bv8, m: bv8)
    ensures (a ^ b) & m == (a & m) ^ (b & m)
    ensures m ^ m == 0 && m ^ 0 == m && 0 ^ m == m
  {
  }

  lemma OneOrNone(a: bv8, k: nat)
    requires k < 8
    ensures a & BitMask(k) == 0 || a & BitMask(k) == BitMask(k)
    ensures BitMask(k) != 0
  {
  }

  lemma XorBits(a: bv8, b: bv8, k: nat)
    requires k < 8
    ensures Bit(a ^ b, k) <==> Bit(a, k) != Bit(b, k)
  {
    hide BitMask;
    XorMask(a, b, BitMask(k));
    OneOrNone(a, k);
    OneOrNone(b, k);
    XorMask(0, 0, 0);
  }

  lemma NotBits(a: bv8, k: nat)
    requires k < 8
    ensures Bit(!a, k) <==> !Bit(a, k)
  {
  }

  lemma NoBits(k: nat)
    requires k < 8
    ensures !Bit(0, k)
  {
  }

  lemma SourceBit(s: Source, j: nat, k: nat)
    requires k < 8
    ensures Bit(ByteAt(s, j), k) <==> Has(s, 8 * j + k)
  {
    NoBits(k);
    hide Bit;
    assert (8 * j + k) / 8 == j && (8 * j + k) % 8 == k;
  }

  lemma OwedNext(op: Op, front: seq<Source>, last: Source, i: nat)
    requires |front| > 0 && op != Not
    ensures Owed(op, front + [last], i) <==> match op
                                             case And => Owed(op, front, i) && Has(last, i)
                                             case Or => Owed(op, front, i) || Has(last, i)
                                             case _ => Owed(op, front, i) != Has(last, i)
  {
    hide Has;
    var all := front + [last];
    assert all[..|front|] == front && all[|front|] == last;
    assert forall s | s in all :: s in front || s == last;
    assert last in all && forall s | s in front :: s in all;
  }

  lemma OwedOne(op: Op, s: Source, i: nat)
    ensures Owed(op, [s], i) <==> if op == Not then !Has(s, i) else Has(s, i)
  {
    hide Has;
    assert s in [s] && [s][..0] == [];
    assert Having([s], i) == if Has(s, i) then 1 else 0;
  }

  lemma AppliedBit(op: Op, a: bv8, b: bv8, k: nat)
    requires k < 8 && op != Not
    ensures Bit(Apply(op, a, b), k) <==> match op
                                         case And => Bit(a, k) && Bit(b, k)
                                         case Or => Bit(a, k) || Bit(b, k)
                                         case _ => Bit(a, k) != Bit(b, k)
  {
    hide Bit;
    AndBits(a, b, k);
    OrBits(a, b, k);
    XorBits(a, b, k);
  }

  lemma {:induction false} CombinedBit(op: Op, srcs: seq<Source>, j: nat, n: nat, k: nat)
    requires 0 < n <= |srcs| && k < 8 && (op == Not ==> n == 1)
    ensures Bit(Combined(op, srcs, j, n), k) <==> Owed(op, srcs[..n], 8 * j + k)
    decreases n
  {
    hide Bit, Has, ByteAt, Owed, Apply;
    var front, last := srcs[..n - 1], srcs[n - 1];
    assert srcs[..n] == front + [last];
    SourceBit(last, j, k);
    if n > 1 {
      CombinedBit(op, srcs, j, n - 1, k);
      AppliedBit(op, Combined(op, srcs, j, n - 1), ByteAt(last, j), k);
      OwedNext(op, front, last, 8 * j + k);
    } else {
      assert srcs[..n] == [last];
      NotBits(ByteAt(last, j), k);
      OwedOne(op, last, 8 * j + k);
    }
  }

  /** The outcome without reference to how it is computed. */
  ghost predicate Correct(op: Op, srcs: seq<Source>, out: Outcome)
    requires |srcs| > 0
  {
    match out
    case NotArity => op == Not && |srcs| != 1
    case WrongType => !(op == Not && |srcs| != 1) && exists s | s in srcs :: s.OtherType?
    case Deleted =>
      && !(op == Not && |srcs| != 1)
      && forall s | s in srcs :: s.Missing? || (s.Str? && s.bytes == [])
    case Stored(bytes) =>
      && !(op == Not && |srcs| != 1)
      && (forall s | s in srcs :: !s.OtherType? && (s.Str? ==> |s.bytes| <= |bytes|))
      && (exists s | s in srcs :: s.Str? && |s.bytes| == |bytes| > 0)
      && (forall i: nat | i < 8 * |bytes| :: BitAt(bytes, i) <==> Owed(op, srcs, i))
  }

  lemma ResultIsCorrect(op: Op, srcs: seq<Source>)
    requires |srcs| > 0
    ensures Correct(op, srcs, Result(op, srcs))
  {
    hide Bit, Combined, Owed;
    var out := Result(op, srcs);
    MaxLenIsMax(srcs);
    if out.Stored? {
      forall i: nat | i < 8 * |out.bytes| ensures BitAt(out.bytes, i) <==> Owed(op, srcs, i) {
        CombinedBit(op, srcs, i / 8, |srcs|, i % 8);
        assert srcs[..|srcs|] == srcs && 8 * (i / 8) + i % 8 == i;
      }
      assert forall s | s in srcs :: !s.OtherType? && (s.Str? ==> |s.bytes| == |Bytes(s)|);
    } else if out.Deleted? {
      assert forall s | s in srcs :: |Bytes(s)| == 0;
    }
  }

  /** The outcome of BITOP on any sources. */
  method BitOp(op: Op, srcs: seq<Source>) returns (out: Outcome)
    requires |srcs| > 0
    ensures Correct(op, srcs, out)
  {
    hide Result, Correct;
    ResultIsCorrect(op, srcs);
    out := Compute(op, srcs);
  }

  method Compute(op: Op, srcs: seq<Source>) returns (out: Outcome)
    requires |srcs| > 0
    ensures out == Result(op, srcs)
  {
    hide Combined;
    if op == Not && |srcs| != 1 { return NotArity; }
    var wrong, minlen, maxlen := Lengths(srcs);
    if wrong { return WrongType; }
    if maxlen == 0 { return Deleted; }
    MaxLenIsMax(srcs);
    assert srcs[0] in srcs;
    var res := new bv8[maxlen](_ => 0);
    var j := 0;
    if minlen >= 32 && |srcs| <= 16 {
      j := FastPath(op, srcs, minlen, res);
    }
    while j < maxlen
      invariant j <= maxlen
      invariant forall m: nat | m < j :: res[m] == Combined(op, srcs, m, |srcs|)
    {
      res[j] := CombineByte(op, srcs, j);
      j := j + 1;
    }
    out := Stored(res[..]);
  }
}

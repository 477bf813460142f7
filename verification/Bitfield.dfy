/**
 * Integers of any width up to 64 bits at any bit offset: the get and set loops
 * (src/bitops.c:373-429), the overflow checks (src/bitops.c:454-539) and
 * BITFIELD INCRBY and GET (src/bitops.c:1312-1414).
 */
module Bitfield {
  import opened Common
  import opened Bits

  // ---- Powers of two and fixed-width integers -----------------------------------

  function Pow2(n: nat): (r: nat)
    ensures r > 0
  {
    if n == 0 then 1 else 2 * Pow2(n - 1)
  }

  const TWO63: int := 0x8000_0000_0000_0000
  const TWO64: int := 0x1_0000_0000_0000_0000

  /** Conversion to uint64_t. */
  function ToU64(x: int): nat {
    x % TWO64
  }

  /** Two's complement reading of a uint64_t. */
  function ToI64(u: int): int {
    if u % TWO64 >= TWO63 then u % TWO64 - TWO64 else u % TWO64
  }

  predicate IsI64(x: int) {
    -TWO63 <= x < TWO63
  }

  // ---- The number held in a field --------------------------------------------------

  /** Bits [off, off + n) read as a binary number, first bit most significant. */
  function FieldU(s: seq<bv8>, off: nat, n: nat): nat
    requires off + n <= 8 * |s|
  {
    if n == 0 then 0 else 2 * FieldU(s, off, n - 1) + if BitAt(s, off + n - 1) then 1 else 0
  }

  /** The same bits read in two's complement. */
  function FieldS(s: seq<bv8>, off: nat, n: nat): int
    requires 0 < n && off + n <= 8 * |s|
  {
    var u := FieldU(s, off, n);
    if u >= Pow2(n - 1) then u - Pow2(n) else u
  }

  function Field(s: seq<bv8>, off: nat, n: nat, signed: bool): int
    requires 0 < n && off + n <= 8 * |s|
  {
    if signed then FieldS(s, off, n) else FieldU(s, off, n)
  }

  function Max(n: nat, signed: bool): int
    requires 0 < n
  {
    if signed then Pow2(n - 1) - 1 else Pow2(n) - 1
  }

  function Min(n: nat, signed: bool): int
    requires 0 < n
  {
    if signed then -(Pow2(n - 1) as int) else 0
  }

  predicate InRange(x: int, n: nat, signed: bool)
    requires 0 < n
  {
    Min(n, signed) <= x <= Max(n, signed)
  }

  /** The only number in range that is congruent to `x` modulo 2^n. */
  function Wrap(x: int, n: nat, signed: bool): int
    requires 0 < n
  {
    var u := x % Pow2(n);
    if signed && u >= Pow2(n - 1) then u - Pow2(n) else u
  }

  lemma {:induction false} FieldUBound(s: seq<bv8>, off: nat, n: nat)
    requires off + n <= 8 * |s|
    ensures FieldU(s, off, n) < Pow2(n)
  {
    hide BitAt;
    if n > 0 { FieldUBound(s, off, n - 1); }
  }

  lemma FieldInRange(s: seq<bv8>, off: nat, n: nat, signed: bool)
    requires 0 < n && off + n <= 8 * |s|
    ensures InRange(Field(s, off, n, signed), n, signed)
  {
    hide FieldU;
    FieldUBound(s, off, n);
  }

  // ---- Powers of two, proofs -----------------------------------------------------

  lemma {:induction false} Pow2Mono(a: nat, b: nat)
    requires a <= b
    ensures Pow2(a) <= Pow2(b)
  {
    if a < b { Pow2Mono(a, b - 1); }
  }

  lemma Pow2Of64()
    ensures Pow2(63) == TWO63 && Pow2(64) == TWO64
  {
    assert Pow2(1) == 2;
    Pow2Add(1, 1); Pow2Add(2, 2); Pow2Add(4, 4); Pow2Add(8, 8); Pow2Add(16, 16); Pow2Add(32, 32);
    assert Pow2(64) == 2 * Pow2(63);
  }

  lemma {:induction false} Pow2Add(a: nat, b: nat)
    ensures Pow2(a + b) == Pow2(a) * Pow2(b)
  {
    if b > 0 {
      Pow2Add(a, b - 1);
      assert Pow2(a + b) == 2 * Pow2(a + (b - 1));
    }
  }

  lemma HalvePower(v: nat, k: nat)
    ensures v / Pow2(k) / 2 == v / Pow2(k + 1)
  {
    var p, q := Pow2(k), v / Pow2(k);
    var r, h, b := v % p, q / 2, q % 2;
    assert v == h * (2 * p) + (b * p + r);
    assert b * p + r < 2 * p;
    QuotientIs(v, 2 * p, h, b * p + r);
  }

  lemma Multiple(k: int, d: int)
    requires d > 0
    ensures k >= 1 ==> k * d >= d
    ensures k <= -1 ==> k * d <= -d
  {
    if k >= 1 { assert (k - 1) * d >= 0; }
    if k <= -1 { assert (-k - 1) * d >= 0; }
  }

  lemma QuotientIs(v: int, d: int, q: int, r: int)
    requires d > 0 && 0 <= r < d && v == q * d + r
    ensures v / d == q && v % d == r
  {
    var k := v / d - q;
    assert v == v / d * d + v % d;
    assert k * d == v / d * d - q * d;
    Multiple(k, d);
  }

  lemma LowBits(x: nat, n: nat)
    requires n > 0
    ensures x % Pow2(n) == 2 * (x / 2 % Pow2(n - 1)) + x % 2
  {
    var p, y := Pow2(n - 1), x / 2;
    assert x == (y / p) * (2 * p) + (2 * (y % p) + x % 2);
    QuotientIs(x, 2 * p, y / p, 2 * (y % p) + x % 2);
  }

  // ---- Get and set ------------------------------------------------------------------

  /** Bit `j` of a `bits`-wide value, first bit most significant. */
  predicate ValueBit(value: nat, bits: nat, j: nat)
    requires j < bits
  {
    value / Pow2(bits - 1 - j) % 2 == 1
  }

  /** Bits that spell a value make up a field with that value. */
  lemma {:induction false} FieldOfBits(s: seq<bv8>, off: nat, bits: nat, value: nat, n: nat)
    requires off + bits <= 8 * |s| && n <= bits
    requires forall j: nat | j < bits :: BitAt(s, off + j) == ValueBit(value, bits, j)
    ensures FieldU(s, off, n) == value / Pow2(bits - n) % Pow2(n)
  {
    hide BitAt, Pow2;
    if n == 0 {
      assert Pow2(0) == 1 by { ZeroPower(); }
    } else {
      FieldOfBits(s, off, bits, value, n - 1);
      assert BitAt(s, off + (n - 1)) == ValueBit(value, bits, n - 1);
      HalvePower(value, bits - n);
      LowBits(value / Pow2(bits - n), n);
    }
  }

  lemma ZeroPower()
    ensures Pow2(0) == 1
  {
  }

  /** The whole field at once. */
  lemma FieldHoldsValue(s: seq<bv8>, off: nat, bits: nat, value: nat)
    requires off + bits <= 8 * |s|
    requires forall j: nat | j < bits :: BitAt(s, off + j) == ValueBit(value, bits, j)
    ensures FieldU(s, off, bits) == value % Pow2(bits)
  {
    hide BitAt;
    FieldOfBits(s, off, bits, value, bits);
  }

  /** All bits outside [off, off + n) agree. */
  ghost predicate SameOutside(s: seq<bv8>, t: seq<bv8>, off: nat, n: nat) {
    && |s| == |t|
    && forall i: nat | i < 8 * |s| && !(off <= i < off + n) :: BitAt(t, i) == BitAt(s, i)
  }

  lemma StoreBit(s: seq<bv8>, i: nat, v: bool, t: seq<bv8>)
    requires i < 8 * |s| && t == s[i / 8 := SetBit(s[i / 8], i % 8, v)]
    ensures forall j: nat | j < 8 * |s| :: BitAt(t, j) == if j == i then v else BitAt(s, j)
  {
    hide Bit, SetBit;
    forall j: nat | j < 8 * |s| ensures BitAt(t, j) == if j == i then v else BitAt(s, j) {
      if j / 8 == i / 8 { SetBitBits(s[i / 8], i % 8, v, j % 8); }
    }
  }

  method SetUnsignedBitfield(p: array<bv8>, offset: nat, bits: nat, value: nat)
    requires offset + bits <= 8 * p.Length
    modifies p
    ensures FieldU(p[..], offset, bits) == value % Pow2(bits)
    ensures SameOutside(old(p[..]), p[..], offset, bits)
  {
    hide BitAt, SetBit, Pow2, FieldU;
    ghost var s := p[..];
    for j := 0 to bits
      invariant |s| == p.Length
      invariant forall i: nat | i < j :: BitAt(p[..], offset + i) == ValueBit(value, bits, i)
      invariant forall i: nat | i < 8 * |s| && !(offset <= i < offset + j) :: BitAt(p[..], i) == BitAt(s, i)
    {
      ghost var before := p[..];
      var byte, bit := (offset + j) / 8, (offset + j) % 8;
      p[byte] := SetBit(p[byte], bit, ValueBit(value, bits, j));
      StoreBit(before, offset + j, ValueBit(value, bits, j), p[..]);
    }
    FieldHoldsValue(p[..], offset, bits, value);
  }

  method GetUnsignedBitfield(p: seq<bv8>, offset: nat, bits: nat) returns (value: nat)
    requires offset + bits <= 8 * |p|
    ensures value == FieldU(p, offset, bits)
  {
    value := 0;
    for j := 0 to bits
      invariant value == FieldU(p, offset, j)
    {
      var bitval := Bit(p[(offset + j) / 8], (offset + j) % 8);
      value := 2 * value + if bitval then 1 else 0;
    }
  }

  /** `u | (-1 << bits)` on a uint64_t. */
  function OrHigh(u: nat, bits: nat): int
    requires bits <= 64
  {
    u % Pow2(bits) + (TWO64 - Pow2(bits))
  }

  /** `u & ~(-1 << bits)` on a uint64_t. */
  function AndLow(u: nat, bits: nat): int {
    u % Pow2(bits)
  }

  /** `u & (1 << k)` on a uint64_t. */
  predicate TestBit(u: nat, k: nat) {
    u / Pow2(k) % 2 == 1
  }

  lemma TopBit(u: nat, n: nat)
    requires n > 0 && u < Pow2(n)
    ensures TestBit(u, n - 1) <==> u >= Pow2(n - 1)
  {
    if u >= Pow2(n - 1) {
      QuotientIs(u, Pow2(n - 1), 1, u - Pow2(n - 1));
    } else {
      QuotientIs(u, Pow2(n - 1), 0, u);
    }
  }

  lemma WidthBound(n: nat)
    requires 0 < n <= 64
    ensures Pow2(n) == 2 * Pow2(n - 1) && Pow2(n) <= TWO64 && (n < 64 ==> Pow2(n) <= TWO63) && Pow2(n - 1) <= TWO63
    ensures n == 64 ==> Pow2(n) == TWO64 && Pow2(n - 1) == TWO63
  {
    Pow2Of64();
    Pow2Mono(n, 64);
    Pow2Mono(n - 1, 63);
    if n < 64 { Pow2Mono(n, 63); }
  }

  method GetSignedBitfield(p: seq<bv8>, offset: nat, bits: nat) returns (value: int)
    requires offset + bits <= 8 * |p| && 0 < bits <= 64
    ensures value == FieldS(p, offset, bits)
  {
    hide Pow2, FieldU, TestBit;
    var u := GetUnsignedBitfield(p, offset, bits);
    FieldUBound(p, offset, bits);
    WidthBound(bits);
    TopBit(u, bits);
    value := ToI64(u);
    if bits < 64 && TestBit(u, bits - 1) {
      assert u % Pow2(bits) == u by { QuotientIs(u, Pow2(bits), 0, u); }
      value := ToI64(OrHigh(u, bits));
    }
  }

  // ---- Overflow -----------------------------------------------------------------------

  datatype Policy = WrapAround | Saturate | Fail

  /** Return code and, where the code sets it, the replacement value. */
  datatype Check = Check(code: int, limit: Option<int>)

  function CheckUnsigned(value: nat, incr: int, bits: nat, ow: Policy): Check
    requires 0 < bits <= 64
  {
    var max := if bits == 64 then TWO64 - 1 else Pow2(bits) - 1;
    var maxincr, minincr := ToI64(max - value), ToI64(-(value as int));
    var wrapped := Some(AndLow(ToU64(value + incr), bits));
    if value > max || (incr > 0 && incr > maxincr) then
      match ow case WrapAround => Check(1, wrapped) case Saturate => Check(1, Some(max)) case Fail => Check(1, None)
    else if incr < 0 && incr < minincr then
      match ow case WrapAround => Check(1, wrapped) case Saturate => Check(-1, Some(0)) case Fail => Check(-1, None)
    else Check(0, None)
  }

  function WrapSigned(value: int, incr: int, bits: nat): int
    requires 0 < bits <= 64
  {
    var c := ToU64(value + incr);
    if bits < 64 then ToI64(if TestBit(c, bits - 1) then OrHigh(c, bits) else AndLow(c, bits))
    else ToI64(c)
  }

  function CheckSigned(value: int, incr: int, bits: nat, ow: Policy): Check
    requires 0 < bits <= 64
  {
    var max := if bits == 64 then TWO63 - 1 else Pow2(bits - 1) - 1;
    var min := -max - 1;
    var maxincr, minincr := ToI64(max - value), ToI64(min - value);
    var wrapped := Some(WrapSigned(value, incr, bits));
    if value > max || (bits != 64 && incr > maxincr) || (value >= 0 && incr > 0 && incr > maxincr) then
      match ow case WrapAround => Check(1, wrapped) case Saturate => Check(1, Some(max)) case Fail => Check(1, None)
    else if value < min || (bits != 64 && incr < minincr) || (value < 0 && incr < 0 && incr < minincr) then
      match ow case WrapAround => Check(1, wrapped) case Saturate => Check(-1, Some(min)) case Fail => Check(-1, None)
    else Check(0, None)
  }

  /** What INCRBY owes: the exact sum, or the policy's replacement. */
  function IncrResult(value: int, incr: int, bits: nat, signed: bool, ow: Policy): int
    requires 0 < bits
  {
    var sum := value + incr;
    if InRange(sum, bits, signed) then sum
    else match ow
         case WrapAround => Wrap(sum, bits, signed)
         case Saturate => if sum > Max(bits, signed) then Max(bits, signed) else Min(bits, signed)
         case Fail => value
  }

  function Distance(a: int, b: int): nat {
    if a < b then b - a else a - b
  }

  /**
   * In numbers: the result always fits the field; it is the sum if that fits;
   * otherwise it differs from the sum by a multiple of 2^bits, or no number that fits is
   * nearer to the sum, or it is the old value.
   */
  lemma IncrResultMeans(value: int, incr: int, bits: nat, signed: bool, ow: Policy)
    requires 0 < bits && InRange(value, bits, signed)
    ensures var r, sum := IncrResult(value, incr, bits, signed, ow), value + incr;
            var low, high := if signed then -(Pow2(bits - 1) as int) else 0, if signed then Pow2(bits - 1) else Pow2(bits);
            && low <= r < high && (low <= sum < high ==> r == sum)
            && (!(low <= sum < high) ==>
                  match ow
                  case WrapAround => (r - sum) % Pow2(bits) == 0
                  case Saturate => forall x | low <= x < high :: Distance(r, sum) <= Distance(x, sum)
                  case Fail => r == value)
  {
    hide Pow2;
    WidthBoundHalf(bits);
    var sum, m := value + incr, Pow2(bits);
    var u := sum % m;
    assert sum == sum / m * m + u;
    MultipleOf(u - sum, m, -(sum / m));
    MultipleOf(u - m - sum, m, -(sum / m) - 1);
  }

  lemma WidthBoundHalf(bits: nat)
    requires 0 < bits
    ensures Pow2(bits) == 2 * Pow2(bits - 1)
  {
  }

  lemma MultipleOf(x: int, m: nat, q: int)
    requires m > 0 && x == q * m
    ensures x % m == 0
  {
    QuotientIs(x, m, q, 0);
  }

  lemma ModOfMultiple(x: int, k: int, m: int)
    requires k > 0 && m > 0
    ensures k * m > 0 && x % (k * m) % m == x % m
  {
    Multiple(k, m);
    var q, u := x / (k * m), x % (k * m);
    assert x == q * (k * m) + u;
    assert q * (k * m) == q * k * m;
    assert u == u / m * m + u % m;
    assert (q * k + u / m) * m == q * k * m + u / m * m;
    QuotientIs(x, m, q * k + u / m, u % m);
  }

  lemma ModOfMod(x: int, n: nat)
    requires n <= 64
    ensures ToU64(x) % Pow2(n) == x % Pow2(n)
  {
    hide Pow2;
    Pow2Of64();
    Pow2Add(64 - n, n);
    ModOfMultiple(x, Pow2(64 - n), Pow2(n));
  }

  lemma SmallSigned(x: int)
    requires IsI64(x)
    ensures ToI64(x) == x
  {
  }

  /** The check tells exactly when the sum does not fit, and gives the policy's value. */
  lemma CheckUnsignedExact(value: nat, incr: int, bits: nat, ow: Policy)
    requires 0 < bits <= 63 && value < Pow2(bits) && IsI64(incr)
    ensures var c := CheckUnsigned(value, incr, bits, ow);
            && (c.code == 0 <==> InRange(value + incr, bits, false))
            && (c.code != 0 && ow != Fail ==> c.limit == Some(IncrResult(value, incr, bits, false, ow)))
  {
    hide Pow2, ToI64, ToU64;
    WidthBound(bits);
    ModOfMod(value + incr, bits);
    SmallSigned(Pow2(bits) - 1 - value);
    SmallSigned(-(value as int));
  }

  lemma WrapSignedExact(value: int, incr: int, bits: nat)
    requires 0 < bits <= 64
    ensures WrapSigned(value, incr, bits) == Wrap(value + incr, bits, true)
  {
    hide Pow2, TestBit;
    WidthBound(bits);
    var c := ToU64(value + incr);
    ModOfMod(value + incr, bits);
    if bits < 64 {
      TestLow(c, bits);
      TopBit(c % Pow2(bits), bits);
    }
  }

  /** Bit n-1 is one of the low `n` bits. */
  lemma TestLow(u: nat, n: nat)
    requires n > 0
    ensures TestBit(u, n - 1) == TestBit(u % Pow2(n), n - 1)
  {
    hide Pow2;
    WidthDouble(n);
    TestLowOf(u, Pow2(n - 1));
  }

  lemma TestLowOf(u: nat, p: nat)
    requires p > 0
    ensures u / p % 2 == u % (2 * p) / p % 2
  {
    var h, l := u / (2 * p), u % (2 * p);
    DivideBack(u, 2 * p);
    DivideBack(l, p);
    assert (2 * h + l / p) * p == h * (2 * p) + l / p * p;
    QuotientIs(u, p, 2 * h + l / p, l % p);
  }

  lemma DivideBack(v: int, d: int)
    requires d > 0
    ensures v == v / d * d + v % d && 0 <= v % d < d
  {
  }

  lemma WidthDouble(n: nat)
    requires n > 0
    ensures Pow2(n) == 2 * Pow2(n - 1)
  {
  }

  lemma CheckSignedExact(value: int, incr: int, bits: nat, ow: Policy)
    requires 0 < bits <= 64 && InRange(value, bits, true) && IsI64(incr)
    ensures var c := CheckSigned(value, incr, bits, ow);
            && (c.code == 0 <==> InRange(value + incr, bits, true))
            && (c.code != 0 && ow != Fail ==> c.limit == Some(IncrResult(value, incr, bits, true, ow)))
  {
    hide Pow2, WrapSigned, Wrap;
    WidthBound(bits);
    WrapSignedExact(value, incr, bits);
  }

  // ---- INCRBY ---------------------------------------------------------------------------

  lemma WrapInRange(x: int, n: nat, signed: bool)
    requires 0 < n
    ensures InRange(Wrap(x, n, signed), n, signed)
  {
  }

  lemma ResultInRange(value: int, incr: int, bits: nat, signed: bool, ow: Policy)
    requires 0 < bits && InRange(value, bits, signed)
    ensures InRange(IncrResult(value, incr, bits, signed, ow), bits, signed)
  {
    hide Wrap;
    WrapInRange(value + incr, bits, signed);
    assert Pow2(bits) > 0;
  }

  /** A number in range survives the trip through the field. */
  lemma StoredValue(s: seq<bv8>, off: nat, bits: nat, x: int, signed: bool)
    requires 0 < bits <= 64 && off + bits <= 8 * |s| && InRange(x, bits, signed)
    requires FieldU(s, off, bits) == ToU64(x) % Pow2(bits)
    ensures Field(s, off, bits, signed) == x
  {
    hide Pow2, FieldU;
    WidthBound(bits);
    ModOfMod(x, bits);
    if x >= 0 {
      QuotientIs(x, Pow2(bits), 0, x);
    } else {
      QuotientIs(x, Pow2(bits), -1, x + Pow2(bits));
    }
  }

  /**
   * One INCRBY: rereading the field gives the owed result, the reply tells it
   * (or null on a refused overflow), and no bit outside the field changes.
   */
  method IncrBy(p: array<bv8>, offset: nat, bits: nat, signed: bool, incr: int, ow: Policy)
    returns (reply: Option<int>)
    requires offset + bits <= 8 * p.Length && 0 < bits <= 64 && (!signed ==> bits <= 63) && IsI64(incr)
    modifies p
    ensures Field(p[..], offset, bits, signed) == IncrResult(old(Field(p[..], offset, bits, signed)), incr, bits, signed, ow)
    ensures SameOutside(old(p[..]), p[..], offset, bits)
    ensures reply == if ow == Fail && !InRange(old(Field(p[..], offset, bits, signed)) + incr, bits, signed) then None
                     else Some(Field(p[..], offset, bits, signed))
  {
    hide Pow2, FieldU, BitAt, IncrResult, InRange, CheckSigned, CheckUnsigned, ToU64;
    ghost var before := p[..];
    FieldInRange(before, offset, bits, signed);
    var oldval, newval: int;
    var check: Check;
    if signed {
      oldval := GetSignedBitfield(p[..], offset, bits);
      check := CheckSigned(oldval, incr, bits, ow);
      CheckSignedExact(oldval, incr, bits, ow);
    } else {
      oldval := GetUnsignedBitfield(p[..], offset, bits);
      FieldUBound(before, offset, bits);
      check := CheckUnsigned(oldval, incr, bits, ow);
      CheckUnsignedExact(oldval, incr, bits, ow);
    }
    ResultIfFits(oldval, incr, bits, signed, ow);
    if check.code != 0 && ow == Fail {
      return None;
    }
    newval := if check.code != 0 then check.limit.value else oldval + incr;
    ResultInRange(oldval, incr, bits, signed, ow);
    SetUnsignedBitfield(p, offset, bits, ToU64(newval));
    StoredValue(p[..], offset, bits, newval, signed);
    reply := Some(newval);
  }

  lemma ResultIfFits(value: int, incr: int, bits: nat, signed: bool, ow: Policy)
    requires 0 < bits
    ensures InRange(value + incr, bits, signed) ==> IncrResult(value, incr, bits, signed, ow) == value + incr
    ensures !InRange(value + incr, bits, signed) && ow == Fail ==> IncrResult(value, incr, bits, signed, ow) == value
  {
  }

  // ---- The string around the field ---------------------------------------------------------

  /** The string grown with zero bytes so that bit `maxbit` exists. */
  function Grown(s: seq<bv8>, maxbit: nat): (r: seq<bv8>)
    ensures |r| > maxbit / 8 && s <= r
  {
    if maxbit / 8 + 1 > |s| then s + seq(maxbit / 8 + 1 - |s|, _ => 0) else s
  }

  /** Growing changes no bit of the padded string and adds no more than is needed. */
  lemma GrownBits(s: seq<bv8>, maxbit: nat, i: nat)
    ensures PaddedBitAt(Grown(s, maxbit), i) <==> PaddedBitAt(s, i)
    ensures |Grown(s, maxbit)| == if |s| > maxbit / 8 then |s| else maxbit / 8 + 1
  {
    var g := Grown(s, maxbit);
    if 8 * |s| <= i < 8 * |g| {
      assert g[i / 8] == 0;
      ZeroByte(i % 8);
    }
  }

  lemma ZeroByte(k: nat)
    requires k < 8
    ensures !Bit(0, k)
  {
  }

  /** Nothing outside the field changes when the string is seen as zero-padded. */
  lemma PaddedOutside(src: seq<bv8>, stored: seq<bv8>, offset: nat, bits: nat, i: nat)
    requires 0 < bits && !(offset <= i < offset + bits)
    requires SameOutside(Grown(src, offset + bits - 1), stored, offset, bits)
    ensures PaddedBitAt(stored, i) <==> PaddedBitAt(src, i)
  {
    hide BitAt, Grown;
    GrownBits(src, offset + bits - 1, i);
  }

  /** INCRBY on a key: a missing or short string counts as zero-padded. */
  method IncrByCommand(value: Option<seq<bv8>>, offset: nat, bits: nat, signed: bool, incr: int, ow: Policy)
    returns (stored: seq<bv8>, reply: Option<int>)
    requires 0 < bits <= 64 && (!signed ==> bits <= 63) && IsI64(incr)
    ensures var s := Grown(if value.Some? then value.value else [], offset + bits - 1);
            && SameOutside(s, stored, offset, bits) && offset + bits <= 8 * |s|
            && Field(stored, offset, bits, signed)
               == IncrResult(Field(s, offset, bits, signed), incr, bits, signed, ow)
            && reply == if ow == Fail && !InRange(Field(s, offset, bits, signed) + incr, bits, signed) then None
                        else Some(Field(stored, offset, bits, signed))
  {
    hide Field, IncrResult, BitAt, InRange;
    var s := Grown(if value.Some? then value.value else [], offset + bits - 1);
    var p := new bv8[|s|](i requires 0 <= i < |s| => s[i]);
    assert p[..] == s;
    reply := IncrBy(p, offset, bits, signed, incr, ow);
    stored := p[..];
  }

  /** Bits [off, off + n) of `s` are bits [off', off' + n) of `t`. */
  ghost predicate SameBits(s: seq<bv8>, off: nat, t: seq<bv8>, off': nat, n: nat) {
    && off + n <= 8 * |s| && off' + n <= 8 * |t|
    && forall i: nat | off <= i < off + n :: BitAt(s, i) == BitAt(t, i - off + off')
  }

  lemma {:induction false} SameBitsSameField(s: seq<bv8>, off: nat, t: seq<bv8>, off': nat, n: nat)
    requires SameBits(s, off, t, off', n)
    ensures FieldU(s, off, n) == FieldU(t, off', n)
  {
    hide BitAt;
    if n > 0 { SameBitsSameField(s, off, t, off', n - 1); }
  }

  /** GET copies at most nine bytes into a zeroed buffer and reads the field there. */
  method GetField(value: Option<seq<bv8>>, offset: nat, bits: nat, signed: bool) returns (val: int)
    requires 0 < bits <= 64 && (!signed ==> bits <= 63)
    ensures val == Field(Grown(if value.Some? then value.value else [], offset + bits - 1), offset, bits, signed)
  {
    hide Bit, BitAt, FieldU, Pow2;
    var src := if value.Some? then value.value else [];
    var byte := offset / 8;
    var buf: seq<bv8> := seq(9, _ => 0);
    var i := 0;
    while i < 9
      invariant i <= 9 && |buf| == 9
      invariant forall k: nat | k < 9 :: buf[k] == if k < i && byte + k < |src| then src[byte + k] else 0
      decreases 9 - i
    {
      if i + byte >= |src| { break; }
      buf := buf[i := src[i + byte]];
      i := i + 1;
    }
    ghost var s := Grown(src, offset + bits - 1);
    BufferBits(src, buf, offset, bits);
    SameBitsSameField(s, offset, buf, offset % 8, bits);
    if signed {
      val := GetSignedBitfield(buf, offset % 8, bits);
    } else {
      val := GetUnsignedBitfield(buf, offset % 8, bits);
    }
  }

  lemma BufferBits(src: seq<bv8>, buf: seq<bv8>, offset: nat, bits: nat)
    requires 0 < bits <= 64 && |buf| == 9
    requires forall k: nat | k < 9 :: buf[k] == if offset / 8 + k < |src| then src[offset / 8 + k] else 0
    ensures SameBits(Grown(src, offset + bits - 1), offset, buf, offset % 8, bits)
  {
    hide Bit;
    var s := Grown(src, offset + bits - 1);
    forall i: nat | offset <= i < offset + bits ensures BitAt(s, i) == BitAt(buf, i - offset + offset % 8) {
      assert (i - offset + offset % 8) / 8 == i / 8 - offset / 8 && (i - offset + offset % 8) % 8 == i % 8;
      assert s[i / 8] == buf[i / 8 - offset / 8];
    }
  }
}

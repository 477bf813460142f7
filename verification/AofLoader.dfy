/**
 * The encoder of the append-only log (src/aof.c:1269-1292) and the loop that loads
 * it (src/aof.c:1472-1620) with truncated files allowed: commands between MULTI and
 * EXEC are queued, and a file that ends inside a transaction is cut before its MULTI,
 * except when it ends inside a command. Commands are known to the server and have
 * the right number of arguments; RDB preambles are not modelled.
 */
module AofLoader {
  import opened AofBuffer

  type Argument = seq<Byte>
  type Command = seq<Argument>

  const CR: Byte := 13
  const LF: Byte := 10
  const STAR: Byte := 42
  const DOLLAR: Byte := 36
  const HASH: Byte := 35
  const MINUS: Byte := 45
  const PLUS: Byte := 43

  /** What fgets reads at most: AOF_ANNOTATION_LINE_MAX_LEN less the terminating zero. */
  const LINE := 1023

  // ---- Numbers ------------------------------------------------------------------------------

  predicate IsDigit(b: Byte) {
    48 <= b <= 57
  }

  function Digit(d: nat): (b: Byte)
    requires d < 10
    ensures IsDigit(b)
  {
    (48 + d) as Byte
  }

  /** Decimal digits, as ll2string writes them. */
  function Dec(n: nat): (ds: seq<Byte>)
    ensures |ds| > 0
  {
    if n < 10 then [Digit(n)] else Dec(n / 10) + [Digit(n % 10)]
  }

  /** The number that leading digits stand for. */
  function Value(ds: seq<Byte>): nat {
    if |ds| == 0 then 0
    else if IsDigit(ds[|ds| - 1]) then 10 * Value(ds[..|ds| - 1]) + (ds[|ds| - 1] as int - 48)
    else Value(ds[..|ds| - 1])
  }

  /** How many leading bytes are digits. */
  function DigitCount(s: seq<Byte>): (n: nat)
    ensures n <= |s|
  {
    if |s| == 0 || !IsDigit(s[0]) then 0 else 1 + DigitCount(s[1..])
  }

  predicate IsSpace(b: Byte) {
    b == 32 || 9 <= b <= 13
  }

  /** atoi and strtol: blanks, a sign, digits, and nothing after them matters. */
  function Int(s: seq<Byte>): int
  {
    if |s| > 0 && IsSpace(s[0]) then Int(s[1..])
    else if |s| > 0 && s[0] == MINUS then -(Value(s[1..][..DigitCount(s[1..])]) as int)
    else if |s| > 0 && s[0] == PLUS then Value(s[1..][..DigitCount(s[1..])])
    else Value(s[..DigitCount(s)])
  }

  // ---- Encoding -----------------------------------------------------------------------------

  /** A marker, a number and the end of the line. */
  function Header(mark: Byte, n: nat): seq<Byte> {
    [mark] + Dec(n) + [CR, LF]
  }

  function EncodeArgument(a: Argument): seq<Byte> {
    Header(DOLLAR, |a|) + a + [CR, LF]
  }

  function EncodeArguments(args: seq<Argument>): seq<Byte> {
    if |args| == 0 then [] else EncodeArgument(args[0]) + EncodeArguments(args[1..])
  }

  function EncodeCommand(c: Command): seq<Byte> {
    Header(STAR, |c|) + EncodeArguments(c)
  }

  function Encode(cmds: seq<Command>): seq<Byte> {
    if |cmds| == 0 then [] else EncodeCommand(cmds[0]) + Encode(cmds[1..])
  }

  lemma {:induction false} ArgumentsConcat(a: seq<Argument>, b: seq<Argument>)
    ensures EncodeArguments(a + b) == EncodeArguments(a) + EncodeArguments(b)
  {
    hide EncodeArgument;
    if |a| == 0 {
      assert a + b == b;
    } else {
      ArgumentsConcat(a[1..], b);
      assert (a + b)[1..] == a[1..] + b;
    }
  }

  /** The encoder as it appends to a buffer. */
  method CatCommand(dst: seq<Byte>, argv: Command) returns (buf: seq<Byte>)
    ensures buf == dst + EncodeCommand(argv)
  {
    hide Dec, EncodeArguments;
    buf := dst + [STAR] + Dec(|argv|) + [CR, LF];
    assert EncodeArguments(argv[..0]) == [] by { NoArguments(); }
    for j := 0 to |argv|
      invariant buf == dst + (Header(STAR, |argv|) + EncodeArguments(argv[..j]))
    {
      buf := buf + [DOLLAR] + Dec(|argv[j]|) + [CR, LF] + argv[j] + [CR, LF];
      ArgumentsConcat(argv[..j], [argv[j]]);
      assert argv[..j + 1] == argv[..j] + [argv[j]];
      OneArgument(argv[j]);
    }
    assert argv[..|argv|] == argv;
  }

  lemma NoArguments()
    ensures EncodeArguments([]) == []
  {
  }

  lemma OneArgument(a: Argument)
    ensures EncodeArguments([a]) == EncodeArgument(a)
  {
    assert [a][1..] == [];
  }

  // ---- Loading ----------------------------------------------------------------------------------

  /** fgets: the bytes up to and with a newline, and whether it ran into the end of the file. */
  datatype Line = NoLine | Line(text: seq<Byte>, rest: seq<Byte>, eof: bool)

  function LineLength(s: seq<Byte>, max: nat): (n: nat)
    ensures n <= |s| && n <= max && (|s| > 0 && max > 0 ==> n > 0)
    decreases max
  {
    if |s| == 0 || max == 0 then 0 else if s[0] == LF then 1 else 1 + LineLength(s[1..], max - 1)
  }

  function Fgets(s: seq<Byte>): Line {
    if |s| == 0 then NoLine
    else
      var n := LineLength(s, LINE);
      Line(s[..n], s[n..], n == |s| && n < LINE && s[n - 1] != LF)
  }

  /** What reading one piece of the log comes to: a value, the end of the file too early, or bad bytes. */
  datatype Read<T> = Got(value: T, rest: seq<Byte>) | Short | Bad

  function ReadArgument(s: seq<Byte>): Read<Argument> {
    match Fgets(s)
    case NoLine => Short
    case Line(text, rest, _) =>
      if |text| == 0 || text[0] != DOLLAR then Bad
      else
        var len := Int(text[1..]);
        if len < 0 then Bad
        else if len > |rest| then Short
        else if |rest| - len < 2 then Short
        else Got(rest[..len], rest[len + 2..])
  }

  function ReadArguments(s: seq<Byte>, n: nat): Read<seq<Argument>>
    decreases n
  {
    if n == 0 then Got([], s)
    else
      match ReadArgument(s)
      case Short => Short
      case Bad => Bad
      case Got(a, rest) =>
        (match ReadArguments(rest, n - 1)
         case Got(more, end) => Got([a] + more, end)
         case Short => Short
         case Bad => Bad)
  }

  datatype Next = Run(cmd: Command, rest: seq<Byte>) | Skip(rest: seq<Byte>) | End | TooShort | Malformed

  /** One pass of the loading loop, up to the command to run. */
  function ReadNext(s: seq<Byte>): Next {
    match Fgets(s)
    case NoLine => End
    case Line(text, rest, eof) =>
      if |text| == 0 then Malformed
      else if text[0] == HASH then Skip(rest)
      else if text[0] != STAR then Malformed
      else if |text| == 1 || text[1] == 0 then (if eof then TooShort else Malformed)
      else
        var argc := Int(text[1..]);
        if argc < 1 then Malformed
        else
          match ReadArguments(rest, argc)
          case Got(args, end) => Run(args, end)
          case Short => TooShort
          case Bad => Malformed
  }

  datatype Status = Ok | Empty | Truncated | Rejected

  /** The commands run, the status, and the length of the file afterwards. */
  datatype Loaded = Loaded(ran: seq<Command>, status: Status, size: nat)

  lemma ArgumentLess(s: seq<Byte>)
    ensures ReadArgument(s).Got? ==> |ReadArgument(s).rest| <= |s|
  {
    hide Int, LineLength;
  }

  lemma {:induction false} ReadLess(s: seq<Byte>, n: nat)
    ensures var r := ReadArguments(s, n); r.Got? ==> |r.rest| <= |s| && |r.value| == n
    decreases n
  {
    hide ReadArgument;
    ArgumentLess(s);
    if n > 0 && ReadArgument(s).Got? { ReadLess(ReadArgument(s).rest, n - 1); }
  }

  lemma NextIsShorter(s: seq<Byte>)
    ensures ReadNext(s).Run? || ReadNext(s).Skip? ==> |ReadNext(s).rest| < |s|
  {
    hide Int;
    if |s| > 0 {
      var line := Fgets(s);
      var argc := Int(line.text[1..]);
      if argc >= 1 { ReadLess(line.rest, argc); }
    }
  }

  // ---- The loading client --------------------------------------------------------------------

  function LowerByte(b: Byte): Byte {
    if 65 <= b <= 90 then b + 32 else b
  }

  function Lower(a: Argument): (l: Argument)
    ensures |l| == |a| && forall i: nat | i < |a| :: l[i] == LowerByte(a[i])
  {
    seq(|a|, i requires 0 <= i < |a| => LowerByte(a[i]))
  }

  /** The names multi and exec; commands are looked up without regard to case. */
  const MULTI_NAME: Argument := [109, 117, 108, 116, 105]
  const EXEC_NAME: Argument := [101, 120, 101, 99]

  predicate IsMulti(c: Command) {
    |c| == 1 && Lower(c[0]) == MULTI_NAME
  }

  predicate IsExec(c: Command) {
    |c| == 1 && Lower(c[0]) == EXEC_NAME
  }

  predicate Plain(c: Command) {
    !IsMulti(c) && !IsExec(c)
  }

  /** The loading client: outside a transaction, or inside one that began at offset `before`. */
  datatype Client = Outside | Inside(queue: seq<Command>, before: nat)

  /** One complete command; `valid` is the offset before it. */
  function After(st: Client, cmd: Command, valid: nat): Client {
    match st
    case Outside => if IsMulti(cmd) then Inside([], valid) else Outside
    case Inside(queue, before) =>
      if IsExec(cmd) then Outside
      else Inside(queue + [cmd], if IsMulti(cmd) then valid else before)
  }

  /** What it makes the client run. */
  function Runs(st: Client, cmd: Command): seq<Command> {
    match st
    case Outside => if IsMulti(cmd) then [] else [cmd]
    case Inside(queue, _) => if IsExec(cmd) then queue else []
  }

  /** Loading the rest `s` of a file that starts at offset `pos`; everything before `valid` is good. */
  function LoadFrom(s: seq<Byte>, pos: nat, valid: nat, st: Client): Loaded
    decreases |s|
  {
    NextIsShorter(s);
    match ReadNext(s)
    case End => if st.Inside? then Loaded([], Truncated, st.before) else Loaded([], Ok, pos + |s|)
    case TooShort => Loaded([], Truncated, valid)
    case Malformed => Loaded([], Rejected, pos + |s|)
    case Skip(rest) => LoadFrom(rest, pos + |s| - |rest|, valid, st)
    case Run(cmd, rest) =>
      var next := pos + |s| - |rest|;
      var r := LoadFrom(rest, next, next, After(st, cmd, valid));
      r.(ran := Runs(st, cmd) + r.ran)
  }

  /** The first bytes of an RDB file, REDIS0 or VALKEY. */
  predicate StartsLikeRdb(s: seq<Byte>) {
    |s| >= 6 && (s[..6] == [82, 69, 68, 73, 83, 48] || s[..6] == [86, 65, 76, 75, 69, 89])
  }

  function LoadFile(file: seq<Byte>): Loaded {
    if |file| == 0 then Loaded([], Empty, 0) else LoadFrom(file, 0, 0, Outside)
  }

  // ---- Numbers read back ---------------------------------------------------------------------------

  predicate AllDigits(s: seq<Byte>) {
    forall i: nat | i < |s| :: IsDigit(s[i])
  }

  lemma {:induction false} DecIsDigits(n: nat)
    ensures AllDigits(Dec(n)) && Value(Dec(n)) == n && (n > 0 ==> Dec(n)[0] != 48)
  {
    if n >= 10 {
      DecIsDigits(n / 10);
      assert Dec(n)[..|Dec(n)| - 1] == Dec(n / 10);
    }
  }

  lemma {:induction false} DecLength(n: nat, k: nat)
    requires k > 0 && n < Pow10(k)
    ensures |Dec(n)| <= k
    decreases k
  {
    if n >= 10 { DecLength(n / 10, k - 1); }
  }

  function Pow10(k: nat): (p: nat)
    ensures p > 0
  {
    if k == 0 then 1 else 10 * Pow10(k - 1)
  }

  lemma {:induction false} DigitCountIs(ds: seq<Byte>, t: seq<Byte>)
    requires AllDigits(ds) && (|t| > 0 ==> !IsDigit(t[0]))
    ensures DigitCount(ds + t) == |ds|
  {
    if |ds| == 0 {
      assert ds + t == t;
    } else {
      DigitCountIs(ds[1..], t);
      assert (ds + t)[1..] == ds[1..] + t;
    }
  }

  /** A number followed by anything but a digit reads as itself. */
  lemma IntIs(ds: seq<Byte>, t: seq<Byte>)
    requires AllDigits(ds) && (|t| > 0 ==> !IsDigit(t[0])) && |ds| > 0
    ensures Int(ds + t) == Value(ds)
  {
    DigitCountIs(ds, t);
    assert (ds + t)[..|ds|] == ds;
    assert (ds + t)[0] == ds[0];
  }

  /** A cut number still starts with its first digit. */
  lemma {:induction false} PositiveStart(ds: seq<Byte>)
    requires |ds| > 0 && AllDigits(ds) && ds[0] != 48
    ensures Value(ds) > 0
  {
    if |ds| > 1 { PositiveStart(ds[..|ds| - 1]); }
  }

  // ---- Lines -------------------------------------------------------------------------------------------

  ghost predicate NoNewline(s: seq<Byte>) {
    forall i: nat | i < |s| :: s[i] != LF
  }

  lemma {:induction false} LineLengthIs(a: seq<Byte>, t: seq<Byte>, max: nat)
    requires NoNewline(a) && |a| < max
    ensures LineLength(a + [LF] + t, max) == |a| + 1
    decreases max
  {
    if |a| == 0 {
      assert (a + [LF] + t)[0] == LF;
    } else {
      LineLengthIs(a[1..], t, max - 1);
      assert (a + [LF] + t)[1..] == a[1..] + [LF] + t;
    }
  }

  lemma {:induction false} LineLengthCut(a: seq<Byte>, max: nat)
    requires NoNewline(a) && |a| <= max
    ensures LineLength(a, max) == |a|
    decreases max
  {
    if |a| > 0 { LineLengthCut(a[1..], max - 1); }
  }

  lemma WholeLine(a: seq<Byte>, t: seq<Byte>)
    requires NoNewline(a) && |a| < LINE
    ensures Fgets(a + [LF] + t) == Line(a + [LF], t, false)
  {
    LineLengthIs(a, t, LINE);
    var s := a + [LF] + t;
    assert s[..|a| + 1] == a + [LF] && s[|a| + 1..] == t && s[|a|] == LF;
  }

  lemma CutLine(a: seq<Byte>)
    requires NoNewline(a) && 0 < |a| < LINE
    ensures Fgets(a) == Line(a, [], true)
  {
    LineLengthCut(a, LINE);
    assert a[..|a|] == a && a[|a|..] == [];
  }

  // ---- Reading what was encoded ---------------------------------------------------------------------

  /** Sizes have at most 20 digits, which every 64-bit number has. */
  predicate Sized(n: nat) {
    n < Pow10(20)
  }

  /** A command as it is fed: at least its name, of a size that memory can hold. */
  ghost predicate Fits(c: Command) {
    0 < |c| && Sized(|c|) && forall i: nat | i < |c| :: Sized(|c[i]|)
  }

  /** The header line without its newline. */
  function HeaderText(mark: Byte, n: nat): seq<Byte> {
    [mark] + Dec(n) + [CR]
  }

  lemma HeaderIs(mark: Byte, n: nat)
    requires Sized(n) && mark != LF
    ensures NoNewline(HeaderText(mark, n)) && |HeaderText(mark, n)| < LINE
    ensures Header(mark, n) == HeaderText(mark, n) + [LF]
    ensures HeaderText(mark, n)[0] == mark && HeaderText(mark, n)[1..] == Dec(n) + [CR]
  {
    hide Dec, Value, Pow10;
    DecIsDigits(n);
    DecLength(n, 20);
  }

  /** A whole header line reads as its mark and number. */
  lemma ReadHeader(mark: Byte, n: nat, t: seq<Byte>)
    requires Sized(n) && mark != LF
    ensures Fgets(Header(mark, n) + t) == Line(Header(mark, n), t, false)
    ensures Header(mark, n)[0] == mark && Int(Header(mark, n)[1..]) == n
    ensures |Header(mark, n)| > 1 && IsDigit(Header(mark, n)[1])
  {
    hide Dec;
    HeaderIs(mark, n);
    var a := HeaderText(mark, n);
    WholeLine(a, t);
    assert Header(mark, n) + t == a + [LF] + t;
    DecIsDigits(n);
    assert Header(mark, n)[1..] == Dec(n) + [CR, LF];
    IntIs(Dec(n), [CR, LF]);
  }

  /** A header line cut anywhere reads as the end of the file, with the number's start. */
  lemma CutHeader(mark: Byte, n: nat, s: seq<Byte>)
    requires Sized(n) && mark != LF && s <= Header(mark, n) && 0 < |s| < |Header(mark, n)|
    ensures Fgets(s) == Line(s, [], true) && s[0] == mark
    ensures Int(s[1..]) >= 0 && (n > 0 && |s| > 1 ==> Int(s[1..]) > 0 && IsDigit(s[1]))
  {
    hide Dec;
    HeaderIs(mark, n);
    DecIsDigits(n);
    var a := HeaderText(mark, n);
    assert s == a[..|s|];
    CutLine(s);
    var rest := s[1..];
    assert rest == (Dec(n) + [CR])[..|rest|];
    if |rest| > |Dec(n)| {
      assert rest == Dec(n) + [CR];
      IntIs(Dec(n), [CR]);
    } else if |rest| > 0 {
      assert rest == Dec(n)[..|rest|] && rest + [] == rest;
      IntIs(rest, []);
      if n > 0 { PositiveStart(rest); }
    }
  }

  lemma ReadWholeArgument(a: Argument, t: seq<Byte>)
    requires Sized(|a|)
    ensures ReadArgument(EncodeArgument(a) + t) == Got(a, t)
  {
    hide Header, Int, Fgets;
    var h, rest := Header(DOLLAR, |a|), a + [CR, LF] + t;
    ReadHeader(DOLLAR, |a|, rest);
    assert EncodeArgument(a) + t == h + rest;
    assert rest[..|a|] == a && rest[|a| + 2..] == t;
  }

  lemma ReadCutArgument(a: Argument, s: seq<Byte>)
    requires Sized(|a|) && s <= EncodeArgument(a) && |s| < |EncodeArgument(a)|
    ensures ReadArgument(s) == Short
  {
    hide Header, Int, Fgets;
    var h := Header(DOLLAR, |a|);
    if |s| == 0 {
      NothingToRead(s);
    } else if |s| < |h| {
      assert s <= h by { assert s == EncodeArgument(a)[..|s|] == h[..|s|]; }
      CutHeader(DOLLAR, |a|, s);
    } else {
      var rest := s[|h|..];
      assert s == h + rest by { assert s == EncodeArgument(a)[..|s|]; assert EncodeArgument(a)[..|h|] == h; }
      ReadHeader(DOLLAR, |a|, rest);
    }
  }

  lemma NothingToRead(s: seq<Byte>)
    requires |s| == 0
    ensures Fgets(s) == NoLine
  {
  }

  lemma {:induction false} ReadWholeArguments(args: seq<Argument>, t: seq<Byte>)
    requires forall i: nat | i < |args| :: Sized(|args[i]|)
    ensures ReadArguments(EncodeArguments(args) + t, |args|) == Got(args, t)
  {
    hide ReadArgument, EncodeArgument;
    if |args| == 0 {
      assert EncodeArguments(args) + t == t;
    } else {
      var rest := EncodeArguments(args[1..]) + t;
      assert EncodeArguments(args) + t == EncodeArgument(args[0]) + rest;
      ReadWholeArgument(args[0], rest);
      ReadWholeArguments(args[1..], t);
      assert [args[0]] + args[1..] == args;
    }
  }

  lemma {:induction false} ReadCutArguments(args: seq<Argument>, s: seq<Byte>)
    requires forall i: nat | i < |args| :: Sized(|args[i]|)
    requires s <= EncodeArguments(args) && |s| < |EncodeArguments(args)|
    ensures ReadArguments(s, |args|) == Short
  {
    hide ReadArgument, EncodeArgument;
    var first := EncodeArgument(args[0]);
    assert EncodeArguments(args) == first + EncodeArguments(args[1..]);
    if |s| < |first| {
      assert s <= first by { assert s == EncodeArguments(args)[..|s|] == first[..|s|]; }
      ReadCutArgument(args[0], s);
    } else {
      var rest := s[|first|..];
      assert s == first + rest by { assert s[..|first|] == EncodeArguments(args)[..|first|] == first; }
      assert rest <= EncodeArguments(args[1..]) by { assert rest == EncodeArguments(args)[|first|..|s|]; }
      ReadWholeArgument(args[0], rest);
      ReadCutArguments(args[1..], rest);
    }
  }

  /** A whole command is read back exactly. */
  lemma ReadWholeCommand(c: Command, t: seq<Byte>)
    requires Fits(c)
    ensures ReadNext(EncodeCommand(c) + t) == Run(c, t)
  {
    hide Header, Int, Fgets, ReadArguments, EncodeArguments;
    var rest := EncodeArguments(c) + t;
    assert EncodeCommand(c) + t == Header(STAR, |c|) + rest;
    ReadHeader(STAR, |c|, rest);
    ReadWholeArguments(c, t);
  }

  /** A command cut anywhere is a short read, never a wrong command and never bad format. */
  lemma ReadCutCommand(c: Command, s: seq<Byte>)
    requires Fits(c) && s <= EncodeCommand(c) && 0 < |s| < |EncodeCommand(c)|
    ensures ReadNext(s) == TooShort
  {
    hide Header, Int, Fgets, EncodeArguments, ReadArguments;
    var h := Header(STAR, |c|);
    if |s| < |h| {
      assert s <= h by { assert s == EncodeCommand(c)[..|s|] == h[..|s|]; }
      CutHeader(STAR, |c|, s);
      if |s| > 1 { NoArgumentsLeft(Int(s[1..])); }
    } else {
      var rest := s[|h|..];
      assert s == h + rest by { assert s[..|h|] == EncodeCommand(c)[..|h|] == h; }
      assert rest <= EncodeArguments(c) by { assert rest == EncodeCommand(c)[|h|..|s|]; }
      ReadHeader(STAR, |c|, rest);
      ReadCutArguments(c, rest);
    }
  }

  lemma NoArgumentsLeft(n: nat)
    requires n > 0
    ensures ReadArguments([], n) == Short
  {
  }

  // ---- Logs cut anywhere ---------------------------------------------------------------------------------

  /** How many commands the first `n` bytes of a log hold completely. */
  function Complete(cmds: seq<Command>, n: nat): (k: nat)
    ensures k <= |cmds|
  {
    if |cmds| == 0 || |EncodeCommand(cmds[0])| > n then 0
    else 1 + Complete(cmds[1..], n - |EncodeCommand(cmds[0])|)
  }

  ghost predicate AllFit(cmds: seq<Command>) {
    forall i: nat | i < |cmds| :: Fits(cmds[i])
  }

  lemma EncodeFirst(cmds: seq<Command>, k: nat)
    requires 0 < k <= |cmds|
    ensures Encode(cmds[..k]) == EncodeCommand(cmds[0]) + Encode(cmds[1..][..k - 1])
  {
    assert cmds[..k][1..] == cmds[1..][..k - 1];
  }

  function AfterAll(st: Client, cmds: seq<Command>, pos: nat): Client
    decreases |cmds|
  {
    if |cmds| == 0 then st else AfterAll(After(st, cmds[0], pos), cmds[1..], pos + |EncodeCommand(cmds[0])|)
  }

  function RunsAll(st: Client, cmds: seq<Command>): seq<Command>
    decreases |cmds|
  {
    if |cmds| == 0 then [] else Runs(st, cmds[0]) + RunsAll(After(st, cmds[0], 0), cmds[1..])
  }

  /** What runs does not depend on offsets. */
  lemma {:induction false} RunsIgnoreOffsets(st: Client, other: Client, cmds: seq<Command>)
    requires st.Inside? == other.Inside? && (st.Inside? ==> st.queue == other.queue)
    ensures RunsAll(st, cmds) == RunsAll(other, cmds)
    decreases |cmds|
  {
    if |cmds| > 0 { RunsIgnoreOffsets(After(st, cmds[0], 0), After(other, cmds[0], 0), cmds[1..]); }
  }

  lemma OneAlike(st: Client, cmd: Command, p: nat, q: nat)
    ensures var a, b := After(st, cmd, p), After(st, cmd, q); a.Inside? == b.Inside? && (a.Inside? ==> a.queue == b.queue)
  {
  }

  lemma LoadOne(c: Command, rest: seq<Byte>, pos: nat, st: Client)
    requires Fits(c)
    ensures var next := pos + |EncodeCommand(c)|;
            var r := LoadFrom(rest, next, next, After(st, c, pos));
            LoadFrom(EncodeCommand(c) + rest, pos, pos, st) == r.(ran := Runs(st, c) + r.ran)
  {
    hide ReadNext, EncodeCommand;
    ReadWholeCommand(c, rest);
  }

  lemma LoadCut(c: Command, s: seq<Byte>, pos: nat, st: Client)
    requires Fits(c) && s <= EncodeCommand(c) && 0 < |s| < |EncodeCommand(c)|
    ensures LoadFrom(s, pos, pos, st) == Loaded([], Truncated, pos)
  {
    hide ReadNext, EncodeCommand;
    ReadCutCommand(c, s);
  }

  lemma LoadEnd(s: seq<Byte>, pos: nat, st: Client)
    requires |s| == 0
    ensures LoadFrom(s, pos, pos, st) == if st.Inside? then Loaded([], Truncated, st.before) else Loaded([], Ok, pos)
  {
    hide ReadNext;
    NothingNext(s);
  }

  /** Loading a prefix of an encoded log: complete commands count, and how it ends decides the cut. */
  lemma {:induction false} LoadsPrefix(cmds: seq<Command>, s: seq<Byte>, pos: nat, st: Client)
    requires AllFit(cmds) && s <= Encode(cmds)
    ensures var k := Complete(cmds, |s|);
            var size, end := |Encode(cmds[..k])|, AfterAll(st, cmds[..k], pos);
            && size <= |s|
            && LoadFrom(s, pos, pos, st) == Loaded(RunsAll(st, cmds[..k]),
                                                   if size == |s| && end.Outside? then Ok else Truncated,
                                                   if size == |s| && end.Inside? then end.before else pos + size)
    decreases |cmds|
  {
    hide LoadFrom, EncodeCommand, After, Runs, Fits;
    if |s| == 0 {
      EncodedNotEmpty(cmds);
      LoadEnd(s, pos, st);
      assert cmds[..0] == [];
    } else {
      var first, more := EncodeCommand(cmds[0]), cmds[1..];
      assert Encode(cmds) == first + Encode(more);
      if |s| < |first| {
        assert s <= first by { assert s == Encode(cmds)[..|s|] == first[..|s|]; }
        LoadCut(cmds[0], s, pos, st);
        assert cmds[..0] == [];
      } else {
        var rest := s[|first|..];
        assert s == first + rest by { assert s[..|first|] == Encode(cmds)[..|first|] == first; }
        assert rest <= Encode(more) by { assert rest == Encode(cmds)[|first|..|s|]; }
        LoadOne(cmds[0], rest, pos, st);
        LoadsPrefix(more, rest, pos + |first|, After(st, cmds[0], pos));
        NextCommand(cmds, Complete(more, |rest|), pos, st);
      }
    }
  }

  /** One command more at the front of those that are complete. */
  lemma NextCommand(cmds: seq<Command>, k: nat, pos: nat, st: Client)
    requires k < |cmds|
    ensures Encode(cmds[..k + 1]) == EncodeCommand(cmds[0]) + Encode(cmds[1..][..k])
    ensures AfterAll(st, cmds[..k + 1], pos) == AfterAll(After(st, cmds[0], pos), cmds[1..][..k], pos + |EncodeCommand(cmds[0])|)
    ensures RunsAll(st, cmds[..k + 1]) == Runs(st, cmds[0]) + RunsAll(After(st, cmds[0], pos), cmds[1..][..k])
  {
    hide EncodeCommand, After, Runs;
    EncodeFirst(cmds, k + 1);
    assert cmds[..k + 1][1..] == cmds[1..][..k];
    OneAlike(st, cmds[0], pos, 0);
    RunsIgnoreOffsets(After(st, cmds[0], pos), After(st, cmds[0], 0), cmds[1..][..k]);
  }

  lemma NothingNext(s: seq<Byte>)
    requires |s| == 0
    ensures ReadNext(s) == End
  {
  }

  lemma EncodedNotEmpty(cmds: seq<Command>)
    ensures Complete(cmds, 0) == 0 && Encode(cmds[..0]) == []
  {
  }

  lemma {:induction false} CompleteIs(cmds: seq<Command>, n: nat)
    requires n <= |Encode(cmds)|
    ensures var k := Complete(cmds, n);
            |Encode(cmds[..k])| <= n && (k < |cmds| ==> n < |Encode(cmds[..k + 1])|)
    decreases |cmds|
  {
    hide EncodeCommand;
    var k := Complete(cmds, n);
    if |cmds| > 0 {
      EncodeFirst(cmds, 1);
      assert Encode(cmds[1..][..0]) == [];
      if |EncodeCommand(cmds[0])| <= n {
        CompleteIs(cmds[1..], n - |EncodeCommand(cmds[0])|);
        EncodeFirst(cmds, k);
        if k < |cmds| { EncodeFirst(cmds, k + 1); }
      } else {
        assert cmds[..0] == [];
      }
    } else {
      assert cmds[..k] == [];
    }
  }

  ghost predicate AllPlain(cmds: seq<Command>) {
    forall i: nat | i < |cmds| :: Plain(cmds[i])
  }

  /** Outside transactions every command runs by itself. */
  lemma {:induction false} PlainRuns(cmds: seq<Command>, pos: nat)
    requires AllPlain(cmds)
    ensures RunsAll(Outside, cmds) == cmds && AfterAll(Outside, cmds, pos) == Outside
    decreases |cmds|
  {
    hide EncodeCommand, Plain;
    if |cmds| > 0 {
      assert !IsMulti(cmds[0]) by { PlainIs(cmds[0]); }
      PlainRuns(cmds[1..], pos + |EncodeCommand(cmds[0])|);
      assert [cmds[0]] + cmds[1..] == cmds;
    }
  }

  lemma PlainIs(c: Command)
    ensures Plain(c) <==> !IsMulti(c) && !IsExec(c)
  {
  }

  /**
   * For every cut of a log of plain commands, loading runs exactly the commands that
   * are complete, in order, and cuts the file at the end of the last of them.
   */
  lemma TruncatedLogLoadsExactly(cmds: seq<Command>, n: nat)
    requires AllFit(cmds) && AllPlain(cmds) && n <= |Encode(cmds)|
    ensures var s, k := Encode(cmds)[..n], Complete(cmds, n);
            && !StartsLikeRdb(s)
            && |Encode(cmds[..k])| <= n && (k < |cmds| ==> n < |Encode(cmds[..k + 1])|)
            && LoadFile(s) == Loaded(cmds[..k],
                                     if n == 0 then Empty else if n == |Encode(cmds[..k])| then Ok else Truncated,
                                     |Encode(cmds[..k])|)
  {
    hide LoadFrom, RunsAll, AfterAll, Plain, Fits;
    var s, k := Encode(cmds)[..n], Complete(cmds, n);
    CompleteIs(cmds, n);
    LoadsPrefix(cmds, s, 0, Outside);
    PlainRuns(cmds[..k], 0);
    if n > 0 {
      assert |cmds| == 0 ==> Encode(cmds) == [];
      assert s[0] == Encode(cmds)[0] == STAR by { StartsWithStar(cmds); }
      assert n >= 6 ==> s[..6][0] == STAR;
    } else {
      EncodedNotEmpty(cmds);
      assert cmds[..0] == [];
    }
  }

  lemma StartsWithStar(cmds: seq<Command>)
    requires |cmds| > 0
    ensures |Encode(cmds)| > 0 && Encode(cmds)[0] == STAR
  {
    hide Dec;
  }

  /** The whole log of plain commands decodes to the commands that were fed. */
  lemma {:induction false} LogRoundTrip(cmds: seq<Command>)
    requires AllFit(cmds) && AllPlain(cmds)
    ensures LoadFile(Encode(cmds)) == Loaded(cmds, if |cmds| == 0 then Empty else Ok, |Encode(cmds)|)
  {
    hide LoadFile, EncodeCommand;
    TruncatedLogLoadsExactly(cmds, |Encode(cmds)|);
    CompleteAll(cmds);
    assert cmds[..|cmds|] == cmds && Encode(cmds)[..|Encode(cmds)|] == Encode(cmds);
    if |cmds| > 0 { StartsWithStar(cmds); }
  }

  lemma {:induction false} CompleteAll(cmds: seq<Command>)
    ensures Complete(cmds, |Encode(cmds)|) == |cmds|
  {
    if |cmds| > 0 { CompleteAll(cmds[1..]); }
  }

  // ---- The loader as it runs ------------------------------------------------------------------------------

  /** The loop over the arguments of one command; `at` is where reading stopped. */
  method LoadArguments(file: seq<Byte>, p: nat, argc: nat) returns (r: Read<seq<Argument>>)
    requires p <= |file|
    ensures r == ReadArguments(file[p..], argc)
  {
    hide ReadArgument;
    var argv: seq<Argument> := [];
    var rest := file[p..];
    ReadOn(argv, rest, argc);
    for j := 0 to argc
      invariant |argv| == j && ReadArguments(file[p..], argc) == Continue(argv, rest, argc - j)
    {
      ReadOn(argv, rest, argc - j);
      var a := ReadArgument(rest);
      match a {
        case Short => return Short;
        case Bad => return Bad;
        case Got(arg, more) =>
          argv, rest := argv + [arg], more;
      }
    }
    r := Got(argv, rest);
    assert Continue(argv, rest, 0) == r by { assert argv + [] == argv; }
  }

  /** The outcome when `argv` was read already and `n` arguments are to come. */
  function Continue(argv: seq<Argument>, rest: seq<Byte>, n: nat): Read<seq<Argument>> {
    match ReadArguments(rest, n)
    case Got(more, end) => Got(argv + more, end)
    case Short => Short
    case Bad => Bad
  }

  lemma ReadOn(argv: seq<Argument>, rest: seq<Byte>, n: nat)
    ensures argv == [] ==> Continue(argv, rest, n) == ReadArguments(rest, n)
    ensures n > 0 ==> Continue(argv, rest, n) == match ReadArgument(rest)
                                                  case Got(a, more) => Continue(argv + [a], more, n - 1)
                                                  case Short => Short
                                                  case Bad => Bad
  {
    hide ReadArgument;
    if n > 0 && ReadArgument(rest).Got? {
      var a := ReadArgument(rest);
      var r := ReadArguments(a.rest, n - 1);
      if r.Got? { assert argv + ([a.value] + r.value) == argv + [a.value] + r.value; }
    }
    var r := ReadArguments(rest, n);
    if r.Got? { assert [] + r.value == r.value; }
  }

  /** One pass of the loop: the header line, then the arguments. */
  method LoadNext(file: seq<Byte>, p: nat) returns (next: Next)
    requires p <= |file|
    ensures next == ReadNext(file[p..])
  {
    hide ReadArguments, Int;
    var line := Fgets(file[p..]);
    match line {
      case NoLine => return End;
      case Line(text, rest, eof) =>
        if text[0] == HASH { return Skip(rest); }
        if text[0] != STAR { return Malformed; }
        if |text| == 1 || text[1] == 0 { return if eof then TooShort else Malformed; }
        var argc := Int(text[1..]);
        if argc < 1 { return Malformed; }
        var q := |file| - |rest|;
        assert file[q..] == rest;
        var args := LoadArguments(file, q, argc);
        match args {
          case Got(argv, end) => return Run(argv, end);
          case Short => return TooShort;
          case Bad => return Malformed;
        }
    }
  }

  /** The outcome when `ran` was run already. */
  function Resume(ran: seq<Command>, s: seq<Byte>, pos: nat, valid: nat, st: Client): Loaded {
    var r := LoadFrom(s, pos, valid, st);
    r.(ran := ran + r.ran)
  }

  /** One more command of the file. */
  lemma ResumeAfter(ran: seq<Command>, s: seq<Byte>, pos: nat, valid: nat, st: Client)
    ensures match ReadNext(s)
            case Run(cmd, rest) =>
              |rest| < |s| && Resume(ran, s, pos, valid, st)
                              == Resume(ran + Runs(st, cmd), rest, pos + |s| - |rest|, pos + |s| - |rest|, After(st, cmd, valid))
            case Skip(rest) => |rest| < |s| && Resume(ran, s, pos, valid, st) == Resume(ran, rest, pos + |s| - |rest|, valid, st)
            case End => Resume(ran, s, pos, valid, st) == Loaded(ran, if st.Inside? then Truncated else Ok, if st.Inside? then st.before else pos + |s|)
            case TooShort => Resume(ran, s, pos, valid, st) == Loaded(ran, Truncated, valid)
            case Malformed => Resume(ran, s, pos, valid, st) == Loaded(ran, Rejected, pos + |s|)
  {
    hide ReadNext, After, Runs;
    NextIsShorter(s);
    assert ran + [] == ran;
    match ReadNext(s) {
      case Run(cmd, rest) =>
        var next := pos + |s| - |rest|;
        var r := LoadFrom(rest, next, next, After(st, cmd, valid));
        assert ran + (Runs(st, cmd) + r.ran) == ran + Runs(st, cmd) + r.ran;
      case _ =>
    }
  }

  /** Loads one file that is not in RDB format, cutting a truncated tail off. */
  method Load(file: seq<Byte>) returns (ran: seq<Command>, status: Status, size: nat)
    requires !StartsLikeRdb(file)
    ensures Loaded(ran, status, size) == LoadFile(file)
  {
    hide ReadNext, LoadFrom, Resume, IsMulti, IsExec;
    ran := [];
    if |file| == 0 { return ran, Empty, 0; }
    var p: nat, validUpTo: nat, validBeforeMulti: nat := 0, 0, 0;
    var multi, queue: seq<Command> := false, [];
    assert file[0..] == file;
    ghost var st := Outside;
    assert LoadFile(file) == Resume([], file, 0, 0, Outside) by { ResumeNone(file); }
    while true
      invariant p <= |file|
      invariant st == if multi then Inside(queue, validBeforeMulti) else Outside
      invariant LoadFile(file) == Resume(ran, file[p..], p, validUpTo, st)
      decreases |file| - p
    {
      ResumeAfter(ran, file[p..], p, validUpTo, st);
      RestIsSuffix(file[p..]);
      var next := LoadNext(file, p);
      match next {
        case End =>
          if multi {
            validUpTo := validBeforeMulti;
            return ran, Truncated, validUpTo;
          }
          return ran, Ok, |file|;
        case TooShort => return ran, Truncated, validUpTo;
        case Malformed => return ran, Rejected, |file|;
        case Skip(rest) =>
          p := |file| - |rest|;
        case Run(cmd, rest) =>
          st := After(st, cmd, validUpTo);
          if IsMulti(cmd) { validBeforeMulti := validUpTo; }
          if multi && !IsExec(cmd) {
            queue := queue + [cmd];
          } else if multi {
            ran, multi, queue := ran + queue, false, [];
          } else if IsMulti(cmd) {
            multi, queue := true, [];
          } else {
            ran := ran + [cmd];
          }
          assert multi ==> ran + [] == ran;
          p := |file| - |rest|;
          validUpTo := p;
      }
      assert file[p..] == next.rest;
    }
  }

  lemma ResumeNone(file: seq<Byte>)
    requires |file| > 0
    ensures LoadFile(file) == Resume([], file, 0, 0, Outside)
  {
    var r := LoadFrom(file, 0, 0, Outside);
    assert [] + r.ran == r.ran;
  }

  /** What is left to read is the end of the file. */
  lemma RestIsSuffix(s: seq<Byte>)
    ensures ReadNext(s).Run? || ReadNext(s).Skip? ==> IsSuffix(ReadNext(s).rest, s)
  {
    hide Int, ReadArguments;
    if |s| > 0 {
      var line := Fgets(s);
      assert IsSuffix(line.rest, s);
      var argc := Int(line.text[1..]);
      if argc >= 1 && ReadNext(s).Run? {
        ArgumentsSuffix(line.rest, argc);
        SuffixOfSuffix(ReadNext(s).rest, line.rest, s);
      }
    }
  }

  ghost predicate IsSuffix(rest: seq<Byte>, s: seq<Byte>) {
    |rest| <= |s| && rest == s[|s| - |rest|..]
  }

  lemma SuffixOfSuffix(a: seq<Byte>, b: seq<Byte>, c: seq<Byte>)
    requires IsSuffix(a, b) && IsSuffix(b, c)
    ensures IsSuffix(a, c)
  {
    assert c[|c| - |a|..] == c[|c| - |b|..][|b| - |a|..];
  }

  lemma ArgumentSuffix(s: seq<Byte>)
    ensures ReadArgument(s).Got? ==> IsSuffix(ReadArgument(s).rest, s)
  {
    hide Int;
    var r := ReadArgument(s);
    if r.Got? {
      var line := Fgets(s);
      assert IsSuffix(line.rest, s);
      var len := Int(line.text[1..]);
      assert IsSuffix(line.rest[len + 2..], line.rest);
      SuffixOfSuffix(r.rest, line.rest, s);
    }
  }

  lemma {:induction false} ArgumentsSuffix(s: seq<Byte>, n: nat)
    ensures ReadArguments(s, n).Got? ==> IsSuffix(ReadArguments(s, n).rest, s)
    decreases n
  {
    hide ReadArgument;
    if n > 0 && ReadArgument(s).Got? {
      ArgumentSuffix(s);
      ArgumentsSuffix(ReadArgument(s).rest, n - 1);
      if ReadArguments(s, n).Got? { SuffixOfSuffix(ReadArguments(s, n).rest, ReadArgument(s).rest, s); }
    }
  }
}

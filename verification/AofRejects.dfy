/**
 * What the loader makes of bytes that no feed wrote (src/aof.c:1488-1540, 1629-1640):
 * bad format is refused with the file untouched, and annotation lines change nothing.
 */
module AofRejects {
  import opened AofBuffer
  import opened AofLoader
  import opened AofTransactions

  // ---- Bytes after a good log -----------------------------------------------------------------

  /** Loading good commands and then anything. */
  lemma {:induction false} LoadsThen(cmds: seq<Command>, s: seq<Byte>, pos: nat, st: Client)
    requires AllFit(cmds)
    ensures var next := pos + |Encode(cmds)|;
            var r := LoadFrom(s, next, next, AfterAll(st, cmds, pos));
            LoadFrom(Encode(cmds) + s, pos, pos, st) == r.(ran := RunsAll(st, cmds) + r.ran)
    decreases |cmds|
  {
    hide LoadFrom, EncodeCommand, After, Runs, Fits;
    if |cmds| == 0 {
      assert Encode(cmds) + s == s;
      var r := LoadFrom(s, pos, pos, st);
      assert [] + r.ran == r.ran;
    } else {
      var first, more := EncodeCommand(cmds[0]), cmds[1..];
      assert Encode(cmds) + s == first + (Encode(more) + s);
      var after := After(st, cmds[0], pos);
      LoadOne(cmds[0], Encode(more) + s, pos, st);
      LoadsThen(more, s, pos + |first|, after);
      OneAlike(st, cmds[0], pos, 0);
      RunsIgnoreOffsets(after, After(st, cmds[0], 0), more);
      var r := LoadFrom(s, pos + |first| + |Encode(more)|, pos + |first| + |Encode(more)|, AfterAll(after, more, pos + |first|));
      assert Runs(st, cmds[0]) + (RunsAll(after, more) + r.ran) == RunsAll(st, cmds) + r.ran;
    }
  }

  /** Wherever the next piece is malformed: what came before has run, loading fails, and the file is left alone. */
  lemma MalformedIsRejected(cmds: seq<Command>, s: seq<Byte>)
    requires AllFit(cmds) && |s| > 0 && ReadNext(s) == Malformed
    ensures LoadFile(Encode(cmds) + s) == Loaded(RunsAll(Outside, cmds), Rejected, |Encode(cmds) + s|)
  {
    hide ReadNext, Encode, RunsAll, AfterAll;
    LoadsThen(cmds, s, 0, Outside);
    assert RunsAll(Outside, cmds) + [] == RunsAll(Outside, cmds);
  }

  lemma FirstOfLine(s: seq<Byte>)
    requires |s| > 0
    ensures Fgets(s).Line? && |Fgets(s).text| > 0 && Fgets(s).text[0] == s[0] && Fgets(s).text <= s
  {
  }

  /** A line that starts with neither a star nor a hash, after any good commands. */
  lemma BadLineIsRejected(cmds: seq<Command>, s: seq<Byte>)
    requires AllFit(cmds) && |s| > 0 && s[0] != 42 && s[0] != 35
    ensures LoadFile(Encode(cmds) + s) == Loaded(RunsAll(Outside, cmds), Rejected, |Encode(cmds) + s|)
    ensures AllPlain(cmds) ==> LoadFile(Encode(cmds) + s).ran == cmds
  {
    hide LoadFile, RunsAll, Encode;
    FirstOfLine(s);
    MalformedIsRejected(cmds, s);
    if AllPlain(cmds) { PlainRuns(cmds, 0); }
  }

  /** A count that is no number is taken as zero, which no command has. */
  lemma BadCountIsRejected(cmds: seq<Command>, x: Byte, rest: seq<Byte>)
    requires AllFit(cmds) && !IsDigit(x) && !IsSpace(x) && x != MINUS && x != PLUS && x != 0
    ensures LoadFile(Encode(cmds) + ([42, x] + rest)) == Loaded(RunsAll(Outside, cmds), Rejected, |Encode(cmds) + ([42, x] + rest)|)
  {
    hide LoadFile, RunsAll, Encode;
    var s := [42, x] + rest;
    TwoOfLine(s);
    FirstOfLine(s);
    assert s[0] == 42;
    var text := Fgets(s).text;
    assert text[1] == x && text[1..][0] == x;
    NotANumber(text[1..]);
    MalformedIsRejected(cmds, s);
  }

  lemma TwoOfLine(s: seq<Byte>)
    requires |s| >= 2 && s[0] == 42
    ensures Fgets(s).Line? && |Fgets(s).text| >= 2 && Fgets(s).text <= s
  {
    assert s[1..] != [];
  }

  lemma NotANumber(s: seq<Byte>)
    requires |s| > 0 && !IsDigit(s[0]) && !IsSpace(s[0]) && s[0] != MINUS && s[0] != PLUS
    ensures Int(s) == 0
  {
    assert s[..0] == [];
  }

  lemma BadArgument(s: seq<Byte>)
    requires |s| > 0 && s[0] != DOLLAR
    ensures ReadArgument(s) == Bad
  {
    hide Int, LineLength;
    FirstOfLine(s);
  }

  /** A command some of whose arguments are there, followed by a line that is no argument. */
  lemma {:induction false} ReadBadArguments(args: seq<Argument>, n: nat, s: seq<Byte>)
    requires (forall i: nat | i < |args| :: Sized(|args[i]|)) && |args| < n && |s| > 0 && s[0] != DOLLAR
    ensures ReadArguments(EncodeArguments(args) + s, n) == Bad
    decreases |args|
  {
    hide EncodeArgument, ReadArgument;
    if |args| == 0 {
      assert EncodeArguments(args) + s == s;
      BadArgument(s);
    } else {
      var rest := EncodeArguments(args[1..]) + s;
      assert EncodeArguments(args) + s == EncodeArgument(args[0]) + rest;
      ReadWholeArgument(args[0], rest);
      ReadBadArguments(args[1..], n - 1, s);
    }
  }

  lemma BadArgumentIsRejected(cmds: seq<Command>, args: seq<Argument>, n: nat, s: seq<Byte>)
    requires AllFit(cmds) && Sized(n) && (forall i: nat | i < |args| :: Sized(|args[i]|)) && |args| < n && |s| > 0 && s[0] != 36
    ensures var bad := Header(42, n) + (EncodeArguments(args) + s);
            LoadFile(Encode(cmds) + bad) == Loaded(RunsAll(Outside, cmds), Rejected, |Encode(cmds) + bad|)
  {
    hide LoadFile, RunsAll, Encode, Header, Int, Fgets, ReadArguments, EncodeArguments;
    var rest := EncodeArguments(args) + s;
    ReadHeader(42, n, rest);
    ReadBadArguments(args, n, s);
    MalformedIsRejected(cmds, Header(42, n) + rest);
  }

  // ---- Annotations -----------------------------------------------------------------------------------

  /** What a log may hold: commands, and annotation lines between them. */
  datatype Entry = Fed(cmd: Command) | Note(text: seq<Byte>)

  function EntryBytes(e: Entry): seq<Byte> {
    match e
    case Fed(cmd) => EncodeCommand(cmd)
    case Note(text) => [HASH] + text + [LF]
  }

  function Bytes(l: seq<Entry>): seq<Byte> {
    if |l| == 0 then [] else EntryBytes(l[0]) + Bytes(l[1..])
  }

  function CommandsOf(l: seq<Entry>): seq<Command> {
    if |l| == 0 then [] else (if l[0].Fed? then [l[0].cmd] else []) + CommandsOf(l[1..])
  }

  /** Plain commands, and annotations of one line that fits the loader's buffer. */
  ghost predicate Ordinary(l: seq<Entry>) {
    forall i: nat | i < |l| :: OrdinaryEntry(l[i])
  }

  ghost predicate OrdinaryEntry(e: Entry) {
    if e.Fed? then Fits(e.cmd) && Plain(e.cmd) else NoNewline(e.text) && |e.text| < 1022
  }

  lemma NoteIsSkipped(text: seq<Byte>, rest: seq<Byte>)
    requires NoNewline(text) && |text| < 1022
    ensures ReadNext([HASH] + text + [LF] + rest) == Skip(rest)
  {
    WholeLine([HASH] + text, rest);
  }

  lemma LoadPlain(cmd: Command, rest: seq<Byte>, pos: nat, valid: nat)
    requires Fits(cmd) && Plain(cmd)
    ensures var next := pos + |EncodeCommand(cmd)|;
            var r := LoadFrom(rest, next, next, Outside);
            LoadFrom(EncodeCommand(cmd) + rest, pos, valid, Outside) == r.(ran := [cmd] + r.ran)
  {
    hide ReadNext, EncodeCommand, IsMulti, IsExec;
    ReadWholeCommand(cmd, rest);
  }

  lemma LoadNote(text: seq<Byte>, rest: seq<Byte>, pos: nat, valid: nat)
    requires NoNewline(text) && |text| < 1022
    ensures var line := [HASH] + text + [LF];
            LoadFrom(line + rest, pos, valid, Outside) == LoadFrom(rest, pos + |line|, valid, Outside)
  {
    hide ReadNext;
    NoteIsSkipped(text, rest);
  }

  lemma LoadNothing(pos: nat, valid: nat)
    ensures LoadFrom([], pos, valid, Outside) == Loaded([], Ok, pos)
  {
    hide ReadNext;
    NothingNext([]);
  }

  /** One entry of a log. */
  lemma LoadEntry(e: Entry, rest: seq<Byte>, pos: nat, valid: nat) returns (kept: nat)
    requires OrdinaryEntry(e)
    ensures var r := LoadFrom(rest, pos + |EntryBytes(e)|, kept, Outside);
            LoadFrom(EntryBytes(e) + rest, pos, valid, Outside) == r.(ran := (if e.Fed? then [e.cmd] else []) + r.ran)
  {
    hide LoadFrom, EncodeCommand;
    if e.Fed? {
      kept := pos + |EntryBytes(e)|;
      LoadPlain(e.cmd, rest, pos, valid);
    } else {
      kept := valid;
      LoadNote(e.text, rest, pos, valid);
      var r := LoadFrom(rest, pos + |EntryBytes(e)|, kept, Outside);
      assert [] + r.ran == r.ran;
    }
  }

  lemma {:induction false} NotedLoads(l: seq<Entry>, pos: nat, valid: nat)
    requires Ordinary(l)
    ensures LoadFrom(Bytes(l), pos, valid, Outside) == Loaded(CommandsOf(l), Ok, pos + |Bytes(l)|)
    decreases |l|
  {
    hide LoadFrom, EntryBytes, OrdinaryEntry;
    if |l| == 0 {
      LoadNothing(pos, valid);
    } else {
      var kept := LoadEntry(l[0], Bytes(l[1..]), pos, valid);
      NotedLoads(l[1..], pos + |EntryBytes(l[0])|, kept);
    }
  }

  /** Annotation lines put between commands change nothing that runs. */
  lemma AnnotationsChangeNothing(l: seq<Entry>)
    requires Ordinary(l)
    ensures LoadFile(Bytes(l)) == Loaded(CommandsOf(l), if |l| == 0 then Empty else Ok, |Bytes(l)|)
  {
    hide LoadFrom, EncodeCommand;
    NotedLoads(l, 0, 0);
    if |l| > 0 && l[0].Fed? { LongEnough(l[0].cmd); }
  }
}

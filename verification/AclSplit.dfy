/**
 * Splitting text into arguments (src/sds.c:1044-1185), with quotes and escapes. The
 * retained rules are printed joined by spaces and split again before they are
 * replayed; proves exactly when that gives them back.
 */
module AclSplit {
  import opened Common
  import opened Acl
  import opened AclText
  import opened AclRules
  import opened AclSelector

  // ---- One argument ----------------------------------------------------------------------------

  /** Outside quotes, in double quotes, in single quotes. */
  datatype Mode = Bare | Double | Single

  /** The next step: the argument ends (at a blank or with the text), a quote is never closed, or some characters are used up. */
  datatype Piece = Stop(blank: bool) | Unterminated | Piece(out: string, used: nat, next: Mode)

  predicate IsHex(c: char) {
    '0' <= c <= '9' || 'a' <= c <= 'f' || 'A' <= c <= 'F'
  }

  function HexValue(c: char): (v: nat)
    ensures v < 16
  {
    if '0' <= c <= '9' then c as int - '0' as int
    else if 'a' <= c <= 'f' then c as int - 'a' as int + 10
    else if 'A' <= c <= 'F' then c as int - 'A' as int + 10
    else 0
  }

  function Escaped(c: char): char {
    if c == 'n' then '\n' else if c == 'r' then '\r' else if c == 't' then '\t'
    else if c == 'b' then 8 as char else if c == 'a' then 7 as char else c
  }

  function NextPiece(s: string, mode: Mode): (p: Piece)
    ensures p.Piece? ==> |p.out| <= 1 <= p.used <= |s|
  {
    match mode
    case Double =>
      if |s| == 0 || s[0] == '\0' then Unterminated
      else if |s| >= 4 && s[0] == '\\' && s[1] == 'x' && IsHex(s[2]) && IsHex(s[3]) then
        Piece([(16 * HexValue(s[2]) + HexValue(s[3])) as char], 4, Double)
      else if |s| >= 2 && s[0] == '\\' && s[1] != '\0' then Piece([Escaped(s[1])], 2, Double)
      else if s[0] == '"' then Piece("", 1, Bare)
      else Piece([s[0]], 1, Double)
    case Single =>
      if |s| == 0 || s[0] == '\0' then Unterminated
      else if |s| >= 2 && s[0] == '\\' && s[1] == '\'' then Piece("'", 2, Single)
      else if s[0] == '\'' then Piece("", 1, Bare)
      else Piece([s[0]], 1, Single)
    case Bare =>
      if |s| == 0 || s[0] == '\0' then Stop(false)
      else if Blank(s[0]) then Stop(true)
      else if s[0] == '"' then Piece("", 1, Double)
      else if s[0] == '\'' then Piece("", 1, Single)
      else Piece([s[0]], 1, Bare)
  }

  /** An argument, how much text it took, and whether a blank ended it. */
  datatype Arg = Arg(text: string, used: nat, blank: bool)

  function Before(out: string, used: nat, rest: Option<Arg>): Option<Arg> {
    match rest
    case None => None
    case Some(a) => Some(Arg(out + a.text, used + a.used, a.blank))
  }

  function ParseArg(s: string, mode: Mode): Option<Arg>
    decreases |s|
  {
    match NextPiece(s, mode)
    case Stop(blank) => Some(Arg("", if blank then 1 else 0, blank))
    case Unterminated => None
    case Piece(out, used, next) => Before(out, used, ParseArg(s[used..], next))
  }

  // ---- All arguments ------------------------------------------------------------------------------

  /** isspace. */
  predicate IsSpace(c: char) {
    c == ' ' || 9 as char <= c <= 13 as char
  }

  function Spaces(s: string): (n: nat)
    ensures n <= |s| && (n < |s| ==> !IsSpace(s[n]))
  {
    if |s| > 0 && IsSpace(s[0]) then 1 + Spaces(s[1..]) else 0
  }

  lemma {:induction false} ArgIsBounded(s: string, mode: Mode)
    ensures var a := ParseArg(s, mode);
            a.Some? ==> |a.value.text| + (if a.value.blank then 1 else 0) <= a.value.used <= |s|
    decreases |s|
  {
    var p := NextPiece(s, mode);
    if p.Piece? { ArgIsBounded(s[p.used..], p.next); }
  }

  lemma ArgIsSome(s: string)
    requires |s| > 0 && s[0] != '\0'
    ensures var a := ParseArg(s, Bare); a.Some? ==> 0 < a.value.used <= |s|
  {
    ArgIsBounded(s, Bare);
  }

  /** The arguments of a text, or None if a quote is not closed. */
  function Split(s: string): Option<seq<string>>
    decreases |s|
  {
    var rest := s[Spaces(s)..];
    if |rest| == 0 || rest[0] == '\0' then Some([])
    else
      ArgIsSome(rest);
      match ParseArg(rest, Bare)
      case None => None
      case Some(a) =>
        (match Split(rest[a.used..])
         case None => None
         case Some(more) => Some([a.text] + more))
  }

  // ---- As it runs -----------------------------------------------------------------------------------

  method ParseNext(buf: array<char>, from: nat, len: nat) returns (a: Option<Arg>)
    requires from <= len <= buf.Length
    ensures a == ParseArg(buf[from..len], Bare)
  {
    hide NextPiece;
    var p, mode, text := from, Bare, "";
    assert ParseArg(buf[from..len], Bare) == Before("", 0, ParseArg(buf[from..len], Bare)) by { BeforeNothing(ParseArg(buf[from..len], Bare)); }
    while true
      invariant from <= p <= len
      invariant ParseArg(buf[from..len], Bare) == Before(text, p - from, ParseArg(buf[p..len], mode))
      decreases len - p
    {
      var piece := NextPiece(buf[p..len], mode);
      match piece {
        case Unterminated => return None;
        case Stop(blank) =>
          assert text + "" == text;
          return Some(Arg(text, p - from + if blank then 1 else 0, blank));
        case Piece(out, used, next) =>
          BeforeTwice(text, p - from, out, used, ParseArg(buf[p..len][used..], next));
          assert buf[p..len][used..] == buf[p + used..len];
          text, p, mode := text + out, p + used, next;
      }
    }
  }

  lemma BeforeNothing(a: Option<Arg>)
    ensures Before("", 0, a) == a
  {
    if a.Some? { assert "" + a.value.text == a.value.text; }
  }

  lemma BeforeTwice(a: string, m: nat, b: string, n: nat, rest: Option<Arg>)
    ensures Before(a, m, Before(b, n, rest)) == Before(a + b, m + n, rest)
  {
    if rest.Some? { assert a + (b + rest.value.text) == a + b + rest.value.text; }
  }

  function Prepend(argv: seq<string>, rest: Option<seq<string>>): Option<seq<string>> {
    if rest.None? then None else Some(argv + rest.value)
  }

  lemma PrependMore(argv: seq<string>, a: string, rest: Option<seq<string>>)
    ensures Prepend(argv, Prepend([a], rest)) == Prepend(argv + [a], rest) && Prepend([], rest) == rest
  {
    if rest.Some? { assert argv + ([a] + rest.value) == argv + [a] + rest.value && [] + rest.value == rest.value; }
  }

  /** One more argument, or the end. */
  lemma SplitNext(s: string)
    ensures var rest := s[Spaces(s)..];
            if |rest| == 0 || rest[0] == '\0' then Split(s) == Some([])
            else match ParseArg(rest, Bare)
                 case None => Split(s) == None
                 case Some(a) => 0 < a.used <= |rest| && Split(s) == Prepend([a.text], Split(rest[a.used..]))
  {
    hide ParseArg;
    var rest := s[Spaces(s)..];
    if |rest| > 0 && rest[0] != '\0' { ArgIsSome(rest); }
  }

  /** The arguments of the text in the buffer. */
  method SplitArgs(buf: array<char>, ghost text: string) returns (argv: Option<seq<string>>)
    requires Holds(buf[..], text)
    ensures argv == Split(text)
  {
    hide Split, ParseArg, Spaces, Lacks;
    var len := Find(buf, 0, '\0', text);
    assert len == |text| by { NoZero(text); }
    var args: seq<string> := [];
    var p := 0;
    assert text[0..] == text;
    PrependMore([], "", Split(text));
    while true
      invariant p <= len && Split(text) == Prepend(args, Split(text[p..]))
      decreases len - p
    {
      HoldsSlice(buf[..], text, p, len);
      assert buf[p..len] == buf[..][p..len] == text[p..];
      SplitNext(text[p..]);
      var q := p + Spaces(buf[p..len]);
      assert text[p..][q - p..] == text[q..];
      HoldsAt(buf[..], text, q);
      if buf[q] == '\0' {
        assert args + [] == args;
        return Some(args);
      }
      HoldsSlice(buf[..], text, q, len);
      assert buf[q..len] == buf[..][q..len] == text[q..];
      var a := ParseNext(buf, q, len);
      match a {
        case None => return None;
        case Some(arg) =>
          PrependMore(args, arg.text, Split(text[q..][arg.used..]));
          assert text[q..][arg.used..] == text[q + arg.used..];
          args, p := args + [arg.text], q + arg.used;
      }
    }
  }

  // ---- Plain text comes apart as it was joined --------------------------------------------------------

  lemma PlainStep(s: string)
    requires |s| > 0 && PlainChar(s[0])
    ensures ParseArg(s, Bare) == Before([s[0]], 1, ParseArg(s[1..], Bare))
  {
  }

  lemma {:induction false} PlainThen(text: string, tail: string)
    requires Plain(text)
    ensures ParseArg(text + tail, Bare) == Before(text, |text|, ParseArg(tail, Bare))
  {
    hide ParseArg, Before;
    if |text| == 0 {
      assert text + tail == tail && text == "";
      BeforeNothing(ParseArg(tail, Bare));
    } else {
      PlainThen(text[1..], tail);
      PlainStep(text + tail);
      assert (text + tail)[1..] == text[1..] + tail && (text + tail)[0] == text[0];
      BeforeTwice([text[0]], 1, text[1..], |text| - 1, ParseArg(tail, Bare));
      assert [text[0]] + text[1..] == text;
    }
  }

  /** A rule starts with its sign and holds no zero. */
  ghost predicate IsRule(s: string) {
    |s| > 0 && (s[0] == '+' || s[0] == '-') && Lacks(s, '\0')
  }

  ghost predicate AreRules(tokens: seq<string>) {
    forall i: nat | i < |tokens| :: IsRule(tokens[i])
  }

  ghost predicate AllPlain(tokens: seq<string>) {
    forall i: nat | i < |tokens| :: Plain(tokens[i])
  }

  lemma NothingLeft()
    ensures Split("") == Some([]) && ParseArg("", Bare) == Some(Arg("", 0, false))
  {
  }

  lemma BlankEnds(rest: string)
    ensures ParseArg(" " + rest, Bare) == Some(Arg("", 1, true))
  {
  }

  /** Text that starts with a sign: one argument, then the rest. */
  lemma SplitFirst(s: string)
    requires |s| > 0 && (s[0] == '+' || s[0] == '-')
    ensures match ParseArg(s, Bare)
            case None => Split(s) == None
            case Some(a) => 0 < a.used <= |s| && Split(s) == Prepend([a.text], Split(s[a.used..]))
  {
    hide ParseArg, Split;
    SplitNext(s);
    assert Spaces(s) == 0 && s[0..] == s;
  }

  lemma {:induction false} PlainSplits(tokens: seq<string>)
    requires AreRules(tokens) && AllPlain(tokens)
    ensures Split(Join(tokens)) == Some(tokens)
  {
    hide Split, ParseArg, Plain, Lacks;
    NothingLeft();
    if |tokens| > 0 {
      var first, more := tokens[0], tokens[1..];
      var tail := if |tokens| == 1 then "" else " " + Join(more);
      PlainSplits(more);
      PlainThen(first, tail);
      SplitFirst(first + tail);
      assert first + "" == first && [first] + more == tokens;
      if |tokens| > 1 {
        BlankEnds(Join(more));
        assert (first + tail)[|first| + 1..] == Join(more);
      } else {
        assert (first + tail)[|first|..] == "";
      }
    }
  }

  // ---- And nothing else does ---------------------------------------------------------------------------

  /** An argument that lost no character is plain. */
  lemma {:induction false} LosslessIsPlain(s: string)
    ensures var a := ParseArg(s, Bare);
            a.Some? && |a.value.text| + (if a.value.blank then 1 else 0) == a.value.used ==> Plain(a.value.text)
    decreases |s|
  {
    var p := NextPiece(s, Bare);
    if p.Piece? {
      ArgIsBounded(s[p.used..], p.next);
      if p.next == Bare { LosslessIsPlain(s[p.used..]); }
    }
  }

  lemma {:induction false} EndsWithText(s: string, mode: Mode)
    requires Lacks(s, '\0')
    ensures var a := ParseArg(s, mode); a.Some? && !a.value.blank ==> a.value.used == |s|
    decreases |s|
  {
    var p := NextPiece(s, mode);
    if p.Piece? {
      assert forall i: nat | i < |s[p.used..]| :: s[p.used..][i] == s[p.used + i];
      EndsWithText(s[p.used..], p.next);
    }
  }

  function Total(argv: seq<string>): nat {
    if |argv| == 0 then 0 else |argv[0]| + Total(argv[1..])
  }

  lemma {:induction false} JoinLength(tokens: seq<string>)
    requires |tokens| > 0
    ensures |Join(tokens)| == Total(tokens) + |tokens| - 1
  {
    if |tokens| > 1 { JoinLength(tokens[1..]); }
  }

  /** Splitting never gains characters, and gives back plain arguments if it loses none but single blanks. */
  lemma {:induction false} SplitLoses(s: string, argv: seq<string>)
    requires Lacks(s, '\0') && Split(s) == Some(argv) && |argv| > 0
    ensures Total(argv) + |argv| - 1 <= |s| && (Total(argv) + |argv| - 1 == |s| ==> AllPlain(argv))
    decreases |s|
  {
    hide Split, ParseArg, Plain, Lacks;
    SplitNext(s);
    var rest := s[Spaces(s)..];
    var a := ParseArg(rest, Bare).value;
    var tail, more := rest[a.used..], argv[1..];
    assert argv[0] == a.text && Split(tail) == Some(more) by { OneMore(argv, a.text, Split(tail)); }
    assert Lacks(rest, '\0') && Lacks(tail, '\0') by { LacksSuffix(s, Spaces(s)); LacksSuffix(rest, a.used); }
    ArgIsBounded(rest, Bare);
    LosslessIsPlain(rest);
    EndsWithText(rest, Bare);
    NothingLeft();
    assert !a.blank ==> tail == "";
    if |more| > 0 { SplitLoses(tail, more); }
    assert AllPlain(more) && Plain(a.text) ==> AllPlain(argv) by { assert forall i: nat | 0 < i < |argv| :: argv[i] == more[i - 1]; }
  }

  lemma OneMore(argv: seq<string>, a: string, rest: Option<seq<string>>)
    requires |argv| > 0 && Some(argv) == Prepend([a], rest)
    ensures argv[0] == a && rest == Some(argv[1..])
  {
    assert ([a] + rest.value)[1..] == rest.value;
  }

  lemma LacksSuffix(s: string, n: nat)
    requires Lacks(s, '\0') && n <= |s|
    ensures Lacks(s[n..], '\0')
  {
    assert forall i: nat | i < |s| - n :: s[n..][i] == s[n + i];
  }

  lemma {:induction false} JoinLacks(tokens: seq<string>)
    requires AreRules(tokens)
    ensures Lacks(Join(tokens), '\0')
  {
    hide Lacks;
    assert Lacks("", '\0') && Lacks(" ", '\0') by { BlanksLack(); }
    if |tokens| > 0 {
      JoinLacks(tokens[1..]);
      LacksConcat(" ", Join(tokens[1..]), '\0');
      LacksConcat(tokens[0], if |tokens| == 1 then "" else " " + Join(tokens[1..]), '\0');
    }
  }

  lemma BlanksLack()
    ensures Lacks("", '\0') && Lacks(" ", '\0')
  {
  }

  /** Joined rules split into themselves exactly if they hold no blanks and no quotes. */
  lemma JoinSplitsExactly(tokens: seq<string>)
    requires AreRules(tokens)
    ensures Split(Join(tokens)) == Some(tokens) <==> AllPlain(tokens)
  {
    hide Split, Join, AreRules, Plain;
    if AllPlain(tokens) {
      PlainSplits(tokens);
    } else {
      JoinLacks(tokens);
      JoinLength(tokens);
      if Split(Join(tokens)) == Some(tokens) { SplitLoses(Join(tokens), tokens); }
    }
  }

  // ---- Retained rules -----------------------------------------------------------------------------------

  /** A rule that may have been accepted: its first argument is in lower case and free of bars and zeros, nothing more. */
  ghost predicate Acceptable(t: Table, r: Rule) {
    ValidRule(t, r) && (r.FirstArg? ==> IsLower(r.arg) && '|' !in r.arg && Lacks(r.arg, '\0'))
  }

  ghost predicate AllAcceptable(t: Table, rules: seq<Rule>) {
    forall r | r in rules :: ValidRule(t, r) && Acceptable(t, r)
  }

  lemma BodyChars(t: Table, r: Rule)
    requires ValidNames(t) && Acceptable(t, r)
    ensures Lacks(Body(t, r), '\0') && (Plain(Body(t, r)) <==> r.FirstArg? ==> Plain(r.arg))
  {
    if r.FirstArg? {
      var name, body := t.commands[r.i].name, Body(t, r);
      assert forall i: nat | i < |r.arg| :: body[|name| + 1 + i] == r.arg[i];
      assert forall i: nat | i < |body| :: body[i] == if i < |name| then name[i] else if i == |name| then '|' else r.arg[i - |name| - 1];
    } else {
      BodyIsLower(t, r);
    }
  }

  lemma TokenChars(t: Table, r: Rule)
    requires ValidNames(t) && Acceptable(t, r)
    ensures IsRule(Token(t, r)) && (Plain(Token(t, r)) <==> r.FirstArg? ==> Plain(r.arg))
  {
    hide ValidNames, Clean, Body;
    BodyChars(t, r);
    var token, body := Token(t, r), Body(t, r);
    assert forall i: nat | i < |token| :: token[i] == if i == 0 then token[0] else body[i - 1];
    assert forall i: nat | i < |body| :: body[i] == token[i + 1];
  }

  /**
   * The text of retained rules splits back into them exactly if no first argument
   * holds a blank or a quote. Otherwise what is replayed is something else.
   */
  lemma RulesSplitExactly(t: Table, rules: seq<Rule>)
    requires ValidNames(t) && AllAcceptable(t, rules)
    ensures Split(Join(Tokens(t, rules))) == Some(Tokens(t, rules)) <==> forall r | r in rules && r.FirstArg? :: Plain(r.arg)
  {
    hide Split, Join, Plain, Token, ValidNames, IsRule;
    var tokens := Tokens(t, rules);
    forall i: nat | i < |rules| ensures IsRule(tokens[i]) && (Plain(tokens[i]) <==> rules[i].FirstArg? ==> Plain(rules[i].arg)) {
      assert rules[i] in rules;
      TokenChars(t, rules[i]);
    }
    JoinSplitsExactly(tokens);
  }

  /** Such a rule is accepted whatever its first argument holds. */
  lemma FirstArgIsAccepted(t: Table, i: nat, arg: string)
    requires ValidNames(t) && i < |t.commands| && t.commands[i].subs == [] && IsLower(arg) && arg != "" && '|' !in arg
    ensures Parse(t, "+" + t.commands[i].name + "|" + arg) == Some(One(FirstArg(i, arg)))
  {
    hide ParseBody;
    var name := t.commands[i].name;
    var op := "+" + name + "|" + arg;
    assert op[1..] == name + "|" + arg && op[0] == '+' && op[1] == name[0] != '@';
    ParseFirstArg(t, i, arg);
    assert Lower(op)[0] == '+' && Lower(op)[1] == LowerChar(name[0]) != '@';
    assert Lower(op) != "+@all" && Lower(op) != "-@all" && Lower(op) != "allcommands" && Lower(op) != "nocommands";
  }

  /** With a blank in it, the replay meets a rule that is refused: the server's assertion fails. */
  lemma BlankArgIsRefused(t: Table, i: nat)
    requires ValidNames(t) && i < |t.commands| && t.commands[i].subs == []
    ensures var op := "+" + t.commands[i].name + "|" + "a b";
            && Parse(t, op) == Some(One(FirstArg(i, "a b")))
            && Split(op) == Some(["+" + t.commands[i].name + "|" + "a", "b"]) && Parse(t, "b") == None
  {
    hide Split, ParseArg, Parse;
    var first := "+" + t.commands[i].name + "|" + "a";
    assert IsLower("a b");
    FirstArgIsAccepted(t, i, "a b");
    assert Plain(first);
    assert "+" + t.commands[i].name + "|" + "a b" == first + " b";
    PlainThen(first, " b");
    BlankEnds("b");
    assert " " + "b" == " b";
    SplitFirst(first + " b");
    assert (first + " b")[|first| + 1..] == "b" && first + "" == first;
    LoneLetter(t);
    assert [first] + ["b"] == [first, "b"];
  }

  lemma LoneLetter(t: Table)
    ensures Split("b") == Some(["b"]) && Parse(t, "b") == None
  {
    assert |Lower("b")| == 1;
    hide ParseArg, Split, Lower;
    PlainThen("b", "");
    NothingLeft();
    SplitNext("b");
    assert Spaces("b") == 0 && "b" + "" == "b" && "b"[0..] == "b" && "b"[1..] == "" && ["b"] + [] == ["b"];
  }

  lemma LoneQuote()
    ensures ParseArg("'", Bare) == None
  {
    assert "'"[1..] == "";
    assert ParseArg("", Single) == None;
  }

  /** With a quote that is not closed, the text does not split at all. */
  lemma OpenQuoteDoesNotSplit(t: Table, i: nat)
    requires ValidNames(t) && i < |t.commands| && t.commands[i].subs == []
    ensures var op := "+" + t.commands[i].name + "|" + "'"; Parse(t, op) == Some(One(FirstArg(i, "'"))) && Split(op) == None
  {
    hide Split, Parse, ParseArg;
    var first := "+" + t.commands[i].name + "|";
    assert IsLower("'");
    FirstArgIsAccepted(t, i, "'");
    assert Plain(first);
    PlainThen(first, "'");
    LoneQuote();
    SplitFirst(first + "'");
  }
}

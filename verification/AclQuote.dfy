/**
 * Quoting for the splitter (src/sds.c:940-972): any byte string, written with quotes
 * and escapes, comes back from the splitter as it was.
 */
module AclQuote {
  import opened Common
  import opened AclRules
  import opened AclSplit

  // ---- Quoting ------------------------------------------------------------------------------------

  ghost predicate Bytes(s: string) {
    forall i: nat | i < |s| :: s[i] < 256 as char
  }

  /** Printable in ASCII, and neither a backslash nor a double quote. */
  predicate Verbatim(c: char) {
    ' ' <= c <= '~' && c != '\\' && c != '"'
  }

  function Digit(n: nat): char
    requires n < 16
  {
    "0123456789abcdef"[n]
  }

  function Quote(c: char): string
    requires c < 256 as char
  {
    if Verbatim(c) then [c]
    else if c == '\\' then "\\\\"
    else if c == '"' then "\\\""
    else if c == '\n' then "\\n"
    else if c == '\r' then "\\r"
    else if c == '\t' then "\\t"
    else if c == 7 as char then "\\a"
    else if c == 8 as char then "\\b"
    else "\\x" + [Digit(c as int / 16), Digit(c as int % 16)]
  }

  function Quotes(s: string): string
    requires Bytes(s)
  {
    if |s| == 0 then "" else Quote(s[0]) + Quotes(s[1..])
  }

  function Repr(s: string): string
    requires Bytes(s)
  {
    "\"" + Quotes(s) + "\""
  }

  lemma {:induction false} QuotesConcat(a: string, b: string)
    requires Bytes(a) && Bytes(b)
    ensures Bytes(a + b) && Quotes(a + b) == Quotes(a) + Quotes(b)
  {
    hide Quote;
    if |a| == 0 {
      assert a + b == b;
    } else {
      QuotesConcat(a[1..], b);
      assert (a + b)[1..] == a[1..] + b && (a + b)[0] == a[0];
    }
  }

  lemma {:induction false} QuotesVerbatim(s: string)
    requires Bytes(s) && forall i: nat | i < |s| :: Verbatim(s[i])
    ensures Quotes(s) == s
  {
    if |s| > 0 {
      QuotesVerbatim(s[1..]);
      assert [s[0]] + s[1..] == s;
    }
  }

  lemma QuotesOne(c: char)
    requires c < 256 as char
    ensures Bytes([c]) && Quotes([c]) == Quote(c)
  {
    hide Quote;
    assert [c][1..] == "" && Quote(c) + "" == Quote(c);
  }

  /** Runs of characters that need no escape are appended in one go. */
  method CatRepr(s: string, p: string) returns (r: string)
    requires Bytes(p)
    ensures r == s + Repr(p)
  {
    hide Quote, Quotes, Verbatim;
    ghost var done := "";
    NoQuotes();
    r := s + "\"";
    var i := 0;
    while i < |p|
      invariant i <= |p| && p[..i] == done && Bytes(done) && r == s + "\"" + Quotes(done)
      decreases |p| - i
    {
      ghost var more;
      if Verbatim(p[i]) {
        var start := i;
        while i < |p| && Verbatim(p[i])
          invariant start <= i <= |p| && (start == i ==> Verbatim(p[i])) && forall k: nat | start <= k < i :: Verbatim(p[k])
        {
          i := i + 1;
        }
        more := p[start..i];
        QuotesVerbatim(more);
        r := r + p[start..i];
      } else {
        more := [p[i]];
        QuotesOne(p[i]);
        r := r + Quote(p[i]);
        i := i + 1;
      }
      QuotesConcat(done, more);
      assert p[..i] == done + more;
      done := done + more;
    }
    assert p[..i] == p;
    r := r + "\"";
  }

  lemma NoQuotes()
    ensures Quotes("") == ""
  {
  }

  // ---- And back -----------------------------------------------------------------------------------

  lemma HexBack(n: nat)
    requires n < 16
    ensures IsHex(Digit(n)) && HexValue(Digit(n)) == n
  {
  }

  lemma EscapePiece(x: char, tail: string)
    requires x != 'x' && x != '\0'
    ensures NextPiece(['\\', x] + tail, Double) == Piece([Escaped(x)], 2, Double)
  {
    hide IsHex, HexValue, Escaped;
    var s := ['\\', x] + tail;
    assert s[0] == '\\' && s[1] == x;
  }

  lemma HexPiece(h: nat, l: nat, tail: string)
    requires h < 16 && l < 16
    ensures NextPiece("\\x" + [Digit(h), Digit(l)] + tail, Double) == Piece([(16 * h + l) as char], 4, Double)
  {
    hide IsHex, HexValue, Escaped, Digit;
    HexBack(h);
    HexBack(l);
    var s := "\\x" + [Digit(h), Digit(l)] + tail;
    assert s[0] == '\\' && s[1] == 'x' && s[2] == Digit(h) && s[3] == Digit(l);
  }

  lemma PieceOf(c: char, tail: string)
    requires c < 256 as char
    ensures NextPiece(Quote(c) + tail, Double) == Piece([c], |Quote(c)|, Double)
  {
    hide NextPiece, IsHex, HexValue, Digit;
    if Verbatim(c) {
      VerbatimPiece(c, tail);
    } else if |Quote(c)| == 2 {
      assert Quote(c) == ['\\', Quote(c)[1]];
      EscapePiece(Quote(c)[1], tail);
    } else {
      HexPiece(c as int / 16, c as int % 16, tail);
    }
  }

  lemma VerbatimPiece(c: char, tail: string)
    requires Verbatim(c)
    ensures NextPiece([c] + tail, Double) == Piece([c], 1, Double)
  {
    assert ([c] + tail)[0] == c;
  }

  lemma PieceStep(c: char, tail: string)
    requires c < 256 as char
    ensures ParseArg(Quote(c) + tail, Double) == Before([c], |Quote(c)|, ParseArg(tail, Double))
  {
    hide NextPiece, Quote;
    PieceOf(c, tail);
    assert (Quote(c) + tail)[|Quote(c)|..] == tail;
  }

  lemma {:induction false} QuotesThen(s: string, tail: string)
    requires Bytes(s)
    ensures ParseArg(Quotes(s) + tail, Double) == Before(s, |Quotes(s)|, ParseArg(tail, Double))
  {
    hide ParseArg, Before, Quote;
    if |s| == 0 {
      assert Quotes(s) + tail == tail && s == "";
      BeforeNothing(ParseArg(tail, Double));
    } else {
      var rest := Quotes(s[1..]) + tail;
      QuotesThen(s[1..], tail);
      PieceStep(s[0], rest);
      assert Quotes(s) + tail == Quote(s[0]) + rest;
      BeforeTwice([s[0]], |Quote(s[0])|, s[1..], |Quotes(s[1..])|, ParseArg(tail, Double));
      assert [s[0]] + s[1..] == s;
    }
  }

  lemma QuoteMarks(s: string, mark: char)
    requires mark == '"' || mark == '\''
    ensures var mode := if mark == '"' then Double else Single;
            ParseArg([mark] + s, Bare) == Before("", 1, ParseArg(s, mode)) && ParseArg([mark] + s, mode) == Before("", 1, ParseArg(s, Bare))
  {
    assert ([mark] + s)[1..] == s;
  }

  /** What is quoted is one argument, whatever follows. */
  lemma ReprThen(s: string, tail: string)
    requires Bytes(s)
    ensures ParseArg(Repr(s) + tail, Bare) == Before(s, |Repr(s)|, ParseArg(tail, Bare))
  {
    hide ParseArg, Before, Quotes;
    var q := Quotes(s);
    assert Repr(s) + tail == "\"" + (q + ("\"" + tail));
    QuoteMarks(q + ("\"" + tail), '"');
    QuotesThen(s, "\"" + tail);
    QuoteMarks(tail, '"');
    BeforeTwice(s, |q|, "", 1, ParseArg(tail, Bare));
    BeforeTwice("", 1, s + "", |q| + 1, ParseArg(tail, Bare));
    assert "" + (s + "") == s;
  }

  function Reprs(args: seq<string>): seq<string>
    requires forall i: nat | i < |args| :: Bytes(args[i])
  {
    seq(|args|, i requires 0 <= i < |args| => Repr(args[i]))
  }

  lemma ReprFirst(s: string, tail: string)
    requires Bytes(s)
    ensures match ParseArg(tail, Bare)
            case None => true
            case Some(a) => a.text == "" && a.used <= |tail| ==>
                Split(Repr(s) + tail) == Prepend([s], Split(tail[a.used..]))
  {
    hide ParseArg, Split, Quotes;
    var all := Repr(s) + tail;
    assert all[0] == '"';
    SplitNext(all);
    assert Spaces(all) == 0 && all[0..] == all;
    ReprThen(s, tail);
    var a := ParseArg(tail, Bare);
    if a.Some? && a.value.text == "" && a.value.used <= |tail| {
      assert s + "" == s;
      assert all[|Repr(s)| + a.value.used..] == tail[a.value.used..];
    }
  }

  /** Any byte strings, quoted and joined by spaces, split into themselves. */
  lemma {:induction false} ReprSplits(args: seq<string>)
    requires forall i: nat | i < |args| :: Bytes(args[i])
    ensures Split(Join(Reprs(args))) == Some(args)
  {
    hide Split, ParseArg, Repr, Bytes;
    NothingLeft();
    if |args| > 0 {
      var first, more := args[0], args[1..];
      var tail := if |args| == 1 then "" else " " + Join(Reprs(more));
      ReprSplits(more);
      assert Reprs(args)[1..] == Reprs(more);
      assert Join(Reprs(args)) == Repr(first) + tail by { assert Repr(first) + "" == Repr(first); }
      ReprFirst(first, tail);
      assert [first] + more == args;
      if |args| > 1 {
        BlankEnds(Join(Reprs(more)));
        assert tail[1..] == Join(Reprs(more));
      } else {
        assert tail[0..] == "" && more == [];
      }
    }
  }

  // ---- Single quotes ------------------------------------------------------------------------------

  /** In single quotes only the quote itself needs a backslash. */
  function SingleQuotes(s: string): string {
    if |s| == 0 then "" else (if s[0] == '\'' then "\\'" else [s[0]]) + SingleQuotes(s[1..])
  }

  lemma SingleStep(c: char, tail: string)
    requires c != '\0' && (c == '\\' ==> |tail| == 0 || tail[0] != '\'')
    ensures var q := if c == '\'' then "\\'" else [c];
            ParseArg(q + tail, Single) == Before([c], |q|, ParseArg(tail, Single))
  {
    var q := if c == '\'' then "\\'" else [c];
    var s := q + tail;
    assert s[0] == q[0] && s[|q|..] == tail && (|tail| > 0 ==> s[|q|] == tail[0]);
  }

  lemma SingleFirst(s: string, tail: string)
    ensures |s| > 0 ==> |SingleQuotes(s)| > 0 && SingleQuotes(s)[0] != '\'' && (SingleQuotes(s) + tail)[0] == SingleQuotes(s)[0]
  {
  }

  predicate EndsInBackslash(s: string) {
    |s| > 0 && s[|s| - 1] == '\\'
  }

  lemma {:induction false} SingleThen(s: string, tail: string)
    requires Lacks(s, '\0') && (EndsInBackslash(s) && |tail| > 0 ==> tail[0] != '\'')
    ensures ParseArg(SingleQuotes(s) + tail, Single) == Before(s, |SingleQuotes(s)|, ParseArg(tail, Single))
  {
    hide ParseArg, Before;
    if |s| == 0 {
      assert SingleQuotes(s) + tail == tail && s == "";
      BeforeNothing(ParseArg(tail, Single));
    } else {
      var q, rest := if s[0] == '\'' then "\\'" else [s[0]], SingleQuotes(s[1..]) + tail;
      LacksSuffix(s, 1);
      SingleThen(s[1..], tail);
      SingleFirst(s[1..], tail);
      SingleStep(s[0], rest);
      assert SingleQuotes(s) + tail == q + rest;
      BeforeTwice([s[0]], |q|, s[1..], |SingleQuotes(s[1..])|, ParseArg(tail, Single));
      assert [s[0]] + s[1..] == s;
    }
  }

  lemma LastBackslash()
    ensures ParseArg("\\'", Single) == None
  {
    assert "\\'"[2..] == "";
  }

  lemma {:induction false} SingleConcat(a: string, b: string)
    ensures SingleQuotes(a + b) == SingleQuotes(a) + SingleQuotes(b)
  {
    if |a| == 0 {
      assert a + b == b;
    } else {
      SingleConcat(a[1..], b);
      assert (a + b)[1..] == a[1..] + b && (a + b)[0] == a[0];
    }
  }

  lemma SingleParses(s: string)
    requires Lacks(s, '\0')
    ensures ParseArg(SingleQuotes(s) + "'", Single)
            == if EndsInBackslash(s) then None else Some(Arg(s, |SingleQuotes(s)| + 1, false))
  {
    hide ParseArg;
    if EndsInBackslash(s) {
      var t := s[..|s| - 1];
      assert s == t + "\\";
      SingleConcat(t, "\\");
      assert SingleQuotes("\\") == "\\" by { assert "\\"[1..] == ""; }
      assert SingleQuotes(s) + "'" == SingleQuotes(t) + "\\'";
      SingleThen(t, "\\'");
      LastBackslash();
    } else {
      SingleThen(s, "'");
      QuoteMarks("", '\'');
      assert ['\''] + "" == "'" && s + ("" + "") == s;
      NothingLeft();
    }
  }

  /** A text in single quotes splits into itself, unless a backslash at its end hides the closing quote. */
  lemma SingleQuotesSplit(s: string)
    requires Lacks(s, '\0')
    ensures Split("'" + (SingleQuotes(s) + "'")) == if EndsInBackslash(s) then None else Some([s])
  {
    hide ParseArg, Split, SingleQuotes, Lacks;
    var inner := SingleQuotes(s) + "'";
    var all := "'" + inner;
    SplitNext(all);
    assert all[0] == '\'' && Spaces(all) == 0 && all[0..] == all;
    QuoteMarks(inner, '\'');
    SingleParses(s);
    if !EndsInBackslash(s) {
      assert "" + s == s && all[|all|..] == "" && [s] + [] == [s];
      NothingLeft();
    }
  }
}

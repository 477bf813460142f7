/**
 * How command rules are spelled (src/acl.c:1195-1274), and the removal of replaced
 * rules inside the text buffer (src/acl.c:591-645).
 */
module AclText {
  import opened Common
  import opened Acl

  // ---- Letters ------------------------------------------------------------------------

  function LowerChar(c: char): char {
    if 'A' <= c <= 'Z' then ((c as int) + 32) as char else c
  }

  function Lower(s: string): (l: string)
    ensures |l| == |s| && forall i: nat | i < |s| :: l[i] == LowerChar(s[i])
  {
    seq(|s|, i requires 0 <= i < |s| => LowerChar(s[i]))
  }

  predicate IsLower(s: string) {
    Lower(s) == s
  }

  /** What ends an argument when text is split. */
  predicate Blank(c: char) {
    c == ' ' || c == '\n' || c == '\r' || c == '\t' || c == '\0'
  }

  predicate PlainChar(c: char) {
    !Blank(c) && c != '"' && c != '\''
  }

  /** No blanks and no quotes. */
  ghost predicate Plain(s: string) {
    forall i: nat | i < |s| :: PlainChar(s[i])
  }

  /** A name as it may stand in a rule: in lower case, without blanks, quotes or bars. */
  predicate CleanChar(c: char) {
    LowerChar(c) == c && PlainChar(c) && c != '|'
  }

  ghost predicate Clean(s: string) {
    s != "" && forall i: nat | i < |s| :: CleanChar(s[i])
  }

  /** Names are clean and different; no command looks like a category; "all" is not a category. */
  ghost predicate ValidNames(t: Table) {
    && (forall i: nat | i < |t.commands| :: Clean(t.commands[i].name) && t.commands[i].name[0] != '@')
    && (forall i: nat, j: nat | i < |t.commands| && j < |t.commands[i].subs| :: Clean(t.commands[i].subs[j].name))
    && (forall i: nat, k: nat | i < k < |t.commands| :: t.commands[i].name != t.commands[k].name)
    && (forall i: nat, j: nat, l: nat | i < |t.commands| && j < l < |t.commands[i].subs| ::
          t.commands[i].subs[j].name != t.commands[i].subs[l].name)
    && (forall c | c in t.categories :: Clean(c) && c != "all")
  }

  ghost predicate ValidSpelling(t: Table, r: Rule) {
    ValidRule(t, r) && (r.FirstArg? ==> Clean(r.arg))
  }

  // ---- Printing -------------------------------------------------------------------------

  function Body(t: Table, r: Rule): string
    requires ValidRule(t, r)
  {
    match r
    case Category(_, name) => "@" + name
    case Top(_, i) => t.commands[i].name
    case Child(_, i, j) => t.commands[i].name + "|" + t.commands[i].subs[j].name
    case FirstArg(i, arg) => t.commands[i].name + "|" + arg
  }

  predicate On(r: Rule) {
    r.FirstArg? || r.on
  }

  function Token(t: Table, r: Rule): string
    requires ValidRule(t, r)
  {
    (if On(r) then "+" else "-") + Body(t, r)
  }

  // ---- Reading -------------------------------------------------------------------------------

  function FindTop(t: Table, name: string, i: nat): Option<nat>
    decreases |t.commands| - i
  {
    if i >= |t.commands| then None else if t.commands[i].name == name then Some(i) else FindTop(t, name, i + 1)
  }

  function FindSub(subs: seq<Sub>, name: string, j: nat): Option<nat>
    decreases |subs| - j
  {
    if j >= |subs| then None else if subs[j].name == name then Some(j) else FindSub(subs, name, j + 1)
  }

  /** The position of the last bar, or the length. */
  function LastBar(s: string): (k: nat)
    ensures k <= |s| && (k < |s| ==> s[k] == '|') && (forall i: nat | k < i < |s| :: s[i] != '|')
    ensures k == |s| <==> '|' !in s
  {
    if |s| == 0 then 0
    else if s[|s| - 1] == '|' then |s| - 1
    else
      var k := LastBar(s[..|s| - 1]);
      assert s == s[..|s| - 1] + [s[|s| - 1]];
      if k == |s| - 1 then |s| else k
  }

  /** A command or subcommand by its name in any case: one bar at most. */
  function Lookup(t: Table, s: string): Owner {
    var k := LastBar(s);
    if k == |s| then
      (match FindTop(t, Lower(s), 0) case None => NoCommand case Some(i) => IsTop(i))
    else if '|' in s[..k] then NoCommand
    else
      match FindTop(t, Lower(s[..k]), 0)
      case None => NoCommand
      case Some(i) =>
        if i >= |t.commands| || t.commands[i].subs == [] then NoCommand
        else (match FindSub(t.commands[i].subs, Lower(s[k + 1..]), 0) case None => NoCommand case Some(j) => IsSub(i, j))
  }

  function Permit(o: Owner, on: bool): Option<Op> {
    match o
    case NoCommand => None
    case IsTop(i) => Some(One(Top(on, i)))
    case IsSub(i, j) => Some(One(Child(on, i, j)))
  }

  /** `+name`, `+name|sub` and `+name|first-arg`. */
  function ParseAllow(t: Table, body: string): Option<Op> {
    var k := LastBar(body);
    if k == |body| then Permit(Lookup(t, body), true)
    else
      match Lookup(t, body[..k])
      case NoCommand => None
      case IsSub(_, _) => None
      case IsTop(i) =>
        if k + 1 == |body| then None
        else if i < |t.commands| && t.commands[i].subs != [] then Permit(Lookup(t, body), true)
        else Some(One(FirstArg(i, Lower(body[k + 1..]))))
  }

  /** A command rule as given by the user, in any case; None if it is refused. */
  function Parse(t: Table, op: string): Option<Op> {
    if Lower(op) == "allcommands" || Lower(op) == "+@all" then Some(All(true))
    else if Lower(op) == "nocommands" || Lower(op) == "-@all" then Some(All(false))
    else if |op| == 0 || (op[0] != '+' && op[0] != '-') then None
    else ParseBody(t, op[0] == '+', op[1..])
  }

  function ParseBody(t: Table, on: bool, body: string): Option<Op> {
    if |body| > 0 && body[0] == '@' then
      (if Lower(body[1..]) in t.categories then Some(One(Category(on, Lower(body[1..])))) else None)
    else if on then ParseAllow(t, body)
    else Permit(Lookup(t, body), false)
  }

  // ---- Reading what was printed -----------------------------------------------------------------

  lemma CleanIsLower(s: string)
    requires Clean(s)
    ensures IsLower(s) && '|' !in s && ' ' !in s
  {
  }

  lemma {:induction false} FindTopFinds(t: Table, i: nat, from: nat)
    requires ValidNames(t) && from <= i < |t.commands|
    ensures FindTop(t, t.commands[i].name, from) == Some(i)
    decreases i - from
  {
    if from < i { FindTopFinds(t, i, from + 1); }
  }

  lemma {:induction false} FindSubFinds(t: Table, i: nat, j: nat, from: nat)
    requires ValidNames(t) && i < |t.commands| && from <= j < |t.commands[i].subs|
    ensures FindSub(t.commands[i].subs, t.commands[i].subs[j].name, from) == Some(j)
    decreases j - from
  {
    if from < j { FindSubFinds(t, i, j, from + 1); }
  }

  /** The last bar of two clean names joined by one. */
  lemma JoinedBar(a: string, b: string)
    requires '|' !in a && '|' !in b
    ensures var s := a + "|" + b; LastBar(s) == |a| && s[..|a|] == a && s[|a| + 1..] == b
  {
    var s := a + "|" + b;
    assert s[|a|] == '|';
    assert forall i: nat | |a| < i < |s| :: s[i] == b[i - |a| - 1];
  }

  lemma LookupTop(t: Table, i: nat)
    requires ValidNames(t) && i < |t.commands|
    ensures Lookup(t, t.commands[i].name) == IsTop(i)
  {
    CleanIsLower(t.commands[i].name);
    FindTopFinds(t, i, 0);
  }

  lemma LookupSub(t: Table, i: nat, j: nat)
    requires ValidNames(t) && i < |t.commands| && j < |t.commands[i].subs|
    ensures Lookup(t, t.commands[i].name + "|" + t.commands[i].subs[j].name) == IsSub(i, j)
  {
    var a, b := t.commands[i].name, t.commands[i].subs[j].name;
    CleanIsLower(a);
    CleanIsLower(b);
    JoinedBar(a, b);
    FindTopFinds(t, i, 0);
    FindSubFinds(t, i, j, 0);
  }

  lemma ParseTop(t: Table, on: bool, i: nat)
    requires ValidNames(t) && i < |t.commands|
    ensures ParseBody(t, on, t.commands[i].name) == Some(One(Top(on, i)))
  {
    hide Lookup;
    CleanIsLower(t.commands[i].name);
    LookupTop(t, i);
  }

  lemma ParseChild(t: Table, on: bool, i: nat, j: nat)
    requires ValidNames(t) && i < |t.commands| && j < |t.commands[i].subs|
    ensures ParseBody(t, on, t.commands[i].name + "|" + t.commands[i].subs[j].name) == Some(One(Child(on, i, j)))
  {
    hide Lookup;
    CleanIsLower(t.commands[i].name);
    CleanIsLower(t.commands[i].subs[j].name);
    JoinedBar(t.commands[i].name, t.commands[i].subs[j].name);
    LookupTop(t, i);
    LookupSub(t, i, j);
  }

  lemma ParseFirstArg(t: Table, i: nat, arg: string)
    requires ValidNames(t) && i < |t.commands| && t.commands[i].subs == [] && IsLower(arg) && arg != "" && '|' !in arg
    ensures ParseBody(t, true, t.commands[i].name + "|" + arg) == Some(One(FirstArg(i, arg)))
  {
    hide Lookup;
    CleanIsLower(t.commands[i].name);
    JoinedBar(t.commands[i].name, arg);
    LookupTop(t, i);
  }

  lemma ParseCategory(t: Table, on: bool, name: string)
    requires ValidNames(t) && name in t.categories
    ensures ParseBody(t, on, "@" + name) == Some(One(Category(on, name)))
  {
    CleanIsLower(name);
    assert ("@" + name)[1..] == name;
  }

  /** The body of a retained rule is not one of the rules that start over. */
  lemma NotAll(t: Table, r: Rule)
    requires ValidNames(t) && ValidSpelling(t, r)
    ensures Parse(t, Token(t, r)) == ParseBody(t, On(r), Body(t, r))
  {
    hide ParseBody, Clean;
    var op, body := Token(t, r), Body(t, r);
    assert op[1..] == body;
    BodyIsLower(t, r);
    assert Lower(op)[0] == op[0];
    assert Lower(op)[1..] == body;
    assert "+@all"[1..] == "@all" && "-@all"[1..] == "@all" && "@all"[1..] == "all";
    assert body != "@all" by { if r.Category? { assert body[1..] == r.name; } }
  }

  lemma BodyIsLower(t: Table, r: Rule)
    requires ValidNames(t) && ValidSpelling(t, r)
    ensures Lower(Body(t, r)) == Body(t, r) && Body(t, r) != "" && (Body(t, r)[0] == '@' <==> r.Category?)
    ensures Plain(Body(t, r))
  {
  }

  /** A retained rule reads back as itself. */
  lemma ParseToken(t: Table, r: Rule)
    requires ValidNames(t) && ValidSpelling(t, r)
    ensures Parse(t, Token(t, r)) == Some(One(r))
  {
    hide Parse, ParseBody, Token;
    NotAll(t, r);
    match r {
      case Category(on, name) => ParseCategory(t, on, name);
      case Top(on, i) => ParseTop(t, on, i);
      case Child(on, i, j) => ParseChild(t, on, i, j);
      case FirstArg(i, arg) =>
        CleanIsLower(arg);
        ParseFirstArg(t, i, arg);
    }
  }

  // ---- Printing what was read --------------------------------------------------------------------

  lemma {:induction false} FindTopIs(t: Table, name: string, from: nat)
    ensures var f := FindTop(t, name, from); f.Some? ==> f.value < |t.commands| && t.commands[f.value].name == name
    decreases |t.commands| - from
  {
    if from < |t.commands| { FindTopIs(t, name, from + 1); }
  }

  lemma {:induction false} FindSubIs(subs: seq<Sub>, name: string, from: nat)
    ensures var f := FindSub(subs, name, from); f.Some? ==> f.value < |subs| && subs[f.value].name == name
    decreases |subs| - from
  {
    if from < |subs| { FindSubIs(subs, name, from + 1); }
  }

  lemma LowerBar(s: string, k: nat)
    requires k < |s| && s[k] == '|'
    ensures Lower(s) == Lower(s[..k]) + "|" + Lower(s[k + 1..])
  {
  }

  /** A name that is found is, in lower case, the full name of what was found. */
  lemma LookupIs(t: Table, s: string)
    ensures match Lookup(t, s)
            case NoCommand => true
            case IsTop(i) => i < |t.commands| && Lower(s) == t.commands[i].name && '|' !in s
            case IsSub(i, j) => i < |t.commands| && j < |t.commands[i].subs|
                                && Lower(s) == t.commands[i].name + "|" + t.commands[i].subs[j].name
  {
    hide Lower;
    var k := LastBar(s);
    FindTopIs(t, Lower(s), 0);
    if k < |s| {
      FindTopIs(t, Lower(s[..k]), 0);
      LowerBar(s, k);
      if Lookup(t, s).IsSub? {
        FindSubIs(t.commands[Lookup(t, s).i].subs, Lower(s[k + 1..]), 0);
      }
    }
  }

  lemma PlainIsClean(s: string)
    requires Plain(s) && s != "" && '|' !in s
    ensures Clean(Lower(s))
  {
  }

  lemma AllowIsSpelled(t: Table, body: string)
    requires Plain(body) && ParseAllow(t, body).Some?
    ensures var p := ParseAllow(t, body).value;
            p.One? && ValidSpelling(t, p.rule) && Body(t, p.rule) == Lower(body) && On(p.rule)
  {
    hide Lookup, Lower, Clean;
    LookupIs(t, body);
    var k := LastBar(body);
    if k < |body| {
      LookupIs(t, body[..k]);
      LowerBar(body, k);
      if k + 1 < |body| { PlainIsClean(body[k + 1..]); }
      if ParseAllow(t, body).value.rule.FirstArg? { assert |Lower(body[k + 1..])| > 0 by { LowerLength(body[k + 1..]); } }
    }
  }

  lemma LowerLength(s: string)
    ensures |Lower(s)| == |s|
  {
  }

  /** An accepted rule is spelled, in lower case, as it was given. */
  lemma ParseIsSpelled(t: Table, op: string)
    requires Plain(op) && Parse(t, op).Some? && Parse(t, op).value.One?
    ensures var r := Parse(t, op).value.rule;
            |op| > 0 && ValidSpelling(t, r) && Body(t, r) == Lower(op[1..]) && On(r) == (op[0] == '+')
  {
    hide Lookup, ParseAllow, Clean;
    var body := op[1..];
    LookupIs(t, body);
    if |body| > 0 && body[0] == '@' {
      assert Lower(body) == "@" + Lower(body[1..]);
    } else if op[0] == '+' {
      AllowIsSpelled(t, body);
    }
  }

  // ---- What replaces what -------------------------------------------------------------------

  /** A retained body that a new body replaces: the same, or the new one followed by a bar. */
  predicate Replaces(body: string, earlier: string) {
    earlier == body || (|earlier| > |body| && earlier[..|body|] == body && earlier[|body|] == '|')
  }

  /** Names without bars, and pairs of them joined by one. */
  lemma ReplacesByBars(a: string, b: string, c: string, d: string)
    requires '|' !in a && '|' !in b && '|' !in c && '|' !in d
    ensures Replaces(a, c) <==> a == c
    ensures Replaces(a, c + "|" + d) <==> a == c
    ensures !Replaces(a + "|" + b, c)
    ensures Replaces(a + "|" + b, c + "|" + d) <==> a == c && b == d
  {
    JoinedBar(a, b);
    JoinedBar(c, d);
    var x, y := a + "|" + b, c + "|" + d;
    assert x[|a|] == '|' && y[|c|] == '|';
    assert forall i: nat | i < |c| :: y[i] == c[i];
    assert forall i: nat | |c| < i < |y| :: y[i] == d[i - |c| - 1];
  }

  /** The text comparison decides what `Covers` says about rules. */
  lemma ReplacesMeansCovers(t: Table, r: Rule, earlier: Rule)
    requires ValidNames(t) && ValidSpelling(t, r) && ValidSpelling(t, earlier)
    ensures Replaces(Body(t, r), Body(t, earlier)) <==> Covers(r, earlier)
  {
    hide Replaces;
    var a, b := Halves(t, r);
    var c, d := Halves(t, earlier);
    ReplacesByBars(a, b, c, d);
    assert a == c ==> (r.Category? <==> earlier.Category?) && (!r.Category? ==> r.i == earlier.i);
    assert r.Child? && earlier.Child? && r.i == earlier.i && b == d ==> r.j == earlier.j;
    assert (r.Category? ==> a[1..] == r.name) && (earlier.Category? ==> c[1..] == earlier.name);
  }

  /** The part of a body before the bar and the part after it, if there is one. */
  lemma Halves(t: Table, r: Rule) returns (a: string, b: string)
    requires ValidNames(t) && ValidSpelling(t, r)
    ensures '|' !in a && '|' !in b && a != "" && (a[0] == '@' <==> r.Category?)
    ensures Body(t, r) == if r.Category? || r.Top? then a else a + "|" + b
    ensures r.Category? ==> a == "@" + r.name
    ensures !r.Category? ==> a == t.commands[r.i].name
    ensures r.Child? ==> b == t.commands[r.i].subs[r.j].name
    ensures r.FirstArg? ==> b == r.arg
  {
    a := if r.Category? then "@" + r.name else t.commands[r.i].name;
    b := if r.Child? then t.commands[r.i].subs[r.j].name else if r.FirstArg? then r.arg else "";
  }
}

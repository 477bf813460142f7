/**
 * What a command rule says, in terms of its text and of the names in the command table
 * (src/acl.c:1060-1090, 1124-1274): which texts are accepted, and what each does to the
 * bit and the first arguments of every command.
 */
module AclMeaning {
  import opened Common
  import opened Acl
  import opened AclText
  import opened AclSelector

  // ---- Statements, on lower-case text --------------------------------------------------------------

  function Sign(on: bool): string {
    if on then "+" else "-"
  }

  predicate AllowsAll(w: string) {
    w == "allcommands" || w == "+@all"
  }

  predicate BlocksAll(w: string) {
    w == "nocommands" || w == "-@all"
  }

  ghost predicate NamesCategory(t: Table, w: string, on: bool, c: string) {
    c in t.categories && w == Sign(on) + "@" + c
  }

  /** By its name or by a category it is in. */
  ghost predicate NamesCommand(t: Table, w: string, on: bool, i: nat)
    requires i < |t.commands|
  {
    || w == Sign(on) + t.commands[i].name
    || exists c | c in t.commands[i].categories :: NamesCategory(t, w, on, c)
  }

  ghost predicate NamesSub(t: Table, w: string, on: bool, i: nat, j: nat)
    requires i < |t.commands| && j < |t.commands[i].subs|
  {
    || w == Sign(on) + (t.commands[i].name + "|" + t.commands[i].subs[j].name)
    || exists c | c in t.commands[i].subs[j].categories :: NamesCategory(t, w, on, c)
  }

  ghost predicate NamesArg(t: Table, w: string, i: nat, arg: string)
    requires i < |t.commands|
  {
    t.commands[i].subs == [] && Clean(arg) && w == "+" + (t.commands[i].name + "|" + arg)
  }

  /** The rule is about the command or subcommand with this id itself. */
  ghost predicate Names(t: Table, w: string, on: bool, id: Id) {
    || (exists i: nat | i < |t.commands| :: t.commands[i].id == id && NamesCommand(t, w, on, i))
    || (exists i: nat, j: nat | i < |t.commands| && j < |t.commands[i].subs| ::
          t.commands[i].subs[j].id == id && NamesSub(t, w, on, i, j))
  }

  /** Or about the command that it is a subcommand of. */
  ghost predicate Reaches(t: Table, w: string, on: bool, id: Id) {
    || Names(t, w, on, id)
    || exists i: nat, j: nat | i < |t.commands| && j < |t.commands[i].subs| ::
         t.commands[i].subs[j].id == id && NamesCommand(t, w, on, i)
  }

  ghost predicate Adds(t: Table, w: string, id: Id, arg: string) {
    exists i: nat | i < |t.commands| :: t.commands[i].id == id && NamesArg(t, w, i, arg)
  }

  /** The texts that are accepted. */
  ghost predicate Accepted(t: Table, w: string) {
    || AllowsAll(w) || BlocksAll(w)
    || (exists on: bool, c: string :: NamesCategory(t, w, on, c))
    || (exists on: bool, i: nat | i < |t.commands| :: w == Sign(on) + t.commands[i].name)
    || (exists on: bool, i: nat, j: nat | i < |t.commands| && j < |t.commands[i].subs| ::
          w == Sign(on) + (t.commands[i].name + "|" + t.commands[i].subs[j].name))
    || (exists i: nat, arg: string | i < |t.commands| :: NamesArg(t, w, i, arg))
  }

  /**
   * The bit of an id after a rule other than the ones for all commands: what the rule
   * says if it reaches the id, and what it was before otherwise.
   */
  ghost predicate BitMeans(t: Table, w: string, id: Id, before: bool, after: bool) {
    && (forall on: bool | Reaches(t, w, on, id) :: after == on)
    && (after != before ==> Reaches(t, w, after, id))
  }

  /** The first arguments: none are left of an id that is named, and one may be added. */
  ghost predicate ArgsMean(t: Table, w: string, id: Id, before: set<string>, after: set<string>) {
    forall a: string :: a in after <==> Adds(t, w, id, a) || (a in before && !Names(t, w, true, id) && !Names(t, w, false, id))
  }

  // ---- A spelled rule is one text ---------------------------------------------------------------

  lemma TokensDiffer(t: Table, r: Rule, q: Rule)
    requires ValidNames(t) && ValidSpelling(t, r) && ValidSpelling(t, q)
    ensures Token(t, r) == Token(t, q) <==> r == q
  {
    hide Parse, Token, ValidNames, Clean;
    ParseToken(t, r);
    ParseToken(t, q);
  }

  lemma CategoryIs(t: Table, r: Rule, on: bool, c: string)
    requires ValidNames(t) && ValidSpelling(t, r)
    ensures NamesCategory(t, Token(t, r), on, c) <==> c in t.categories && r == Category(on, c)
  {
    hide ValidNames, Clean;
    if c in t.categories {
      TokensDiffer(t, r, Category(on, c));
      assert Sign(on) + "@" + c == Sign(on) + ("@" + c);
    }
  }

  lemma CommandIs(t: Table, r: Rule, on: bool, i: nat)
    requires ValidNames(t) && ValidSpelling(t, r) && i < |t.commands|
    ensures Token(t, r) == Sign(on) + t.commands[i].name <==> r == Top(on, i)
    ensures NamesCommand(t, Token(t, r), on, i)
            <==> r == Top(on, i) || (r.Category? && r.on == on && r.name in t.commands[i].categories)
  {
    hide ValidNames, Clean, NamesCategory;
    TokensDiffer(t, r, Top(on, i));
    forall c: string { CategoryIs(t, r, on, c); }
  }

  lemma SubIs(t: Table, r: Rule, on: bool, i: nat, j: nat)
    requires ValidNames(t) && ValidSpelling(t, r) && i < |t.commands| && j < |t.commands[i].subs|
    ensures Token(t, r) == Sign(on) + (t.commands[i].name + "|" + t.commands[i].subs[j].name) <==> r == Child(on, i, j)
    ensures NamesSub(t, Token(t, r), on, i, j)
            <==> r == Child(on, i, j) || (r.Category? && r.on == on && r.name in t.commands[i].subs[j].categories)
  {
    hide ValidNames, Clean, NamesCategory;
    TokensDiffer(t, r, Child(on, i, j));
    forall c: string { CategoryIs(t, r, on, c); }
  }

  lemma ArgIs(t: Table, r: Rule, i: nat, arg: string)
    requires ValidNames(t) && ValidSpelling(t, r) && i < |t.commands|
    ensures NamesArg(t, Token(t, r), i, arg) <==> r == FirstArg(i, arg)
  {
    hide ValidNames;
    if t.commands[i].subs == [] && Clean(arg) {
      TokensDiffer(t, r, FirstArg(i, arg));
    }
  }

  // ---- What a rule does to one id ---------------------------------------------------------------

  /** The action of a rule on an id, told from the text. */
  lemma ActionMeans(t: Table, r: Rule, id: Id, on: bool)
    requires ValidTable(t) && ValidNames(t) && ValidSpelling(t, r)
    ensures Names(t, Token(t, r), on, id) <==> ActionOn(t, r, OwnerOf(t, id)) == Set(on)
    ensures Reaches(t, Token(t, r), on, id) <==> ActionOn(t, r, OwnerOf(t, id)) in {Set(on), Bit(on)}
  {
    hide ValidNames, ValidTable, OwnerOf, NamesCommand, NamesSub, Token, ValidSpelling;
    IdsAre(t, id);
    assert ValidRule(t, r) by { Spelled(t, r); }
    forall i: nat | i < |t.commands| { CommandIs(t, r, on, i); }
    forall i: nat, j: nat | i < |t.commands| && j < |t.commands[i].subs| { SubIs(t, r, on, i, j); }
  }

  lemma Spelled(t: Table, r: Rule)
    requires ValidSpelling(t, r)
    ensures ValidRule(t, r)
  {
  }

  lemma ArgMeans(t: Table, r: Rule, id: Id, arg: string)
    requires ValidTable(t) && ValidNames(t) && ValidSpelling(t, r)
    ensures Adds(t, Token(t, r), id, arg) <==> ActionOn(t, r, OwnerOf(t, id)) == Add(arg)
  {
    hide ValidNames, ValidTable, OwnerOf, NamesArg, Token, Clean;
    IdsAre(t, id);
    forall i: nat | i < |t.commands| { ArgIs(t, r, i, arg); }
  }

  /** Every rule does to every command exactly what its text says. */
  lemma RuleMeans(t: Table, r: Rule, id: Id, c: Cell)
    requires ValidTable(t) && ValidNames(t) && ValidSpelling(t, r)
    ensures var d := Do(ActionOn(t, r, OwnerOf(t, id)), c);
            BitMeans(t, Token(t, r), id, c.bit, d.bit) && ArgsMean(t, Token(t, r), id, c.args, d.args)
  {
    hide ValidNames, ValidTable, OwnerOf, ActionOn, Names, Reaches, Adds, Token, ValidSpelling;
    ActionMeans(t, r, id, true);
    ActionMeans(t, r, id, false);
    forall a: string { ArgMeans(t, r, id, a); }
  }

  /** A rule ends "all commands" exactly when it blocks some command. */
  lemma ClearsMeans(t: Table, r: Rule)
    requires ValidTable(t) && ValidNames(t) && ValidSpelling(t, r)
    ensures ClearsABit(t, r) <==> exists id: Id :: Reaches(t, Token(t, r), false, id)
  {
    hide ValidNames, ValidTable, OwnerOf, ActionOn, Reaches, Token, ValidSpelling;
    forall id: Id { ActionMeans(t, r, id, false); }
  }

  // ---- Which texts are accepted -----------------------------------------------------------------

  lemma LowerTwice(s: string)
    ensures Lower(Lower(s)) == Lower(s)
  {
  }

  lemma LowerSlice(s: string, i: nat, j: nat)
    requires i <= j <= |s|
    ensures Lower(s[i..j]) == Lower(s)[i..j]
    ensures '|' in s[i..j] <==> '|' in Lower(s)[i..j]
  {
    if k: nat :| k < |s[i..j]| && s[i..j][k] == '|' { assert Lower(s)[i..j][k] == '|'; }
    if k: nat :| k < |s[i..j]| && Lower(s)[i..j][k] == '|' { assert s[i..j][k] == '|'; }
  }

  lemma LowerBars(s: string)
    ensures LastBar(Lower(s)) == LastBar(s)
  {
    var k, l := LastBar(s), LastBar(Lower(s));
    LowerSlice(s, 0, |s|);
    assert s[0..|s|] == s && Lower(s)[0..|s|] == Lower(s);
    if k < |s| { assert Lower(s)[k] == '|'; }
    if l < |s| { assert s[l] == '|'; }
  }

  lemma LowerParts(s: string, k: nat)
    requires k < |s|
    ensures Lower(Lower(s)[..k]) == Lower(s[..k]) && Lower(Lower(s)[k + 1..]) == Lower(s[k + 1..])
    ensures '|' in s[..k] <==> '|' in Lower(s)[..k]
  {
    LowerSlice(s, 0, k);
    LowerSlice(s, k + 1, |s|);
    LowerTwice(s[..k]);
    LowerTwice(s[k + 1..]);
    assert s[0..k] == s[..k] && Lower(s)[0..k] == Lower(s)[..k];
    assert s[k + 1..|s|] == s[k + 1..] && Lower(s)[k + 1..|s|] == Lower(s)[k + 1..];
  }

  lemma LookupLower(t: Table, s: string)
    ensures Lookup(t, Lower(s)) == Lookup(t, s)
  {
    hide Lower, FindTop, FindSub;
    LowerLength(s);
    LowerTwice(s);
    LowerBars(s);
    if LastBar(s) < |s| { LowerParts(s, LastBar(s)); }
  }

  lemma AllowLower(t: Table, s: string)
    ensures ParseAllow(t, Lower(s)) == ParseAllow(t, s)
  {
    hide Lower, Lookup;
    LowerLength(s);
    LowerBars(s);
    LookupLower(t, s);
    var k := LastBar(s);
    if k < |s| {
      LowerParts(s, k);
      LookupLower(t, s[..k]);
      LookupLower(t, Lower(s)[..k]);
    }
  }

  lemma BodyLower(t: Table, on: bool, s: string)
    ensures ParseBody(t, on, Lower(s)) == ParseBody(t, on, s)
  {
    hide Lookup, ParseAllow;
    AllowLower(t, s);
    LookupLower(t, s);
    if |s| > 0 {
      assert Lower(s)[0] == '@' <==> s[0] == '@';
      LowerSlice(s, 1, |s|);
      LowerTwice(s[1..]);
      assert s[1..|s|] == s[1..] && Lower(s)[1..|s|] == Lower(s)[1..];
    }
  }

  /** Case does not matter. */
  lemma ParseLower(t: Table, op: string)
    ensures Parse(t, Lower(op)) == Parse(t, op)
  {
    hide ParseBody;
    LowerTwice(op);
    if |op| > 0 {
      LowerSlice(op, 1, |op|);
      assert op[1..|op|] == op[1..] && Lower(op)[1..|op|] == Lower(op)[1..];
      BodyLower(t, op[0] == '+', op[1..]);
    }
  }

  /** A text that names something is that rule, in any case. */
  lemma SpelledIsParsed(t: Table, op: string, r: Rule)
    requires ValidNames(t) && ValidSpelling(t, r) && Lower(op) == Token(t, r)
    ensures Parse(t, op) == Some(One(r))
  {
    hide Parse, Token, ValidNames, Clean;
    ParseLower(t, op);
    ParseToken(t, r);
  }

  lemma ParsedIsSpelled(t: Table, op: string)
    requires Plain(op) && Parse(t, op).Some? && Parse(t, op).value.One?
    ensures var r := Parse(t, op).value.rule; ValidSpelling(t, r) && Lower(op) == Token(t, r)
  {
    hide ParseBody, Body, Clean;
    ParseIsSpelled(t, op);
    LowerSlice(op, 1, |op|);
    assert op[1..|op|] == op[1..] && Lower(op)[1..|op|] == Lower(op)[1..];
    assert Lower(op) == [Lower(op)[0]] + Lower(op)[1..];
  }

  lemma AllIsParsed(t: Table, op: string)
    ensures Parse(t, op) == Some(All(true)) <==> AllowsAll(Lower(op))
    ensures Parse(t, op) == Some(All(false)) <==> BlocksAll(Lower(op))
  {
    hide Lookup;
  }

  lemma SpelledIsAccepted(t: Table, r: Rule)
    requires ValidNames(t) && ValidSpelling(t, r)
    ensures Accepted(t, Token(t, r))
  {
    match r {
      case Category(on, c) =>
        CategoryIs(t, r, on, c);
        assert NamesCategory(t, Token(t, r), on, c);
      case Top(on, i) => CommandIs(t, r, on, i);
      case Child(on, i, j) => SubIs(t, r, on, i, j);
      case FirstArg(i, arg) =>
        ArgIs(t, r, i, arg);
        assert NamesArg(t, Token(t, r), i, arg);
    }
  }

  /** The rule behind an accepted text that is not about all commands. */
  lemma AcceptedIsSpelled(t: Table, w: string) returns (r: Rule)
    requires Accepted(t, w) && !AllowsAll(w) && !BlocksAll(w)
    ensures ValidSpelling(t, r) && w == Token(t, r)
  {
    if on: bool, c: string :| NamesCategory(t, w, on, c) {
      r := Category(on, c);
      assert w == Sign(on) + ("@" + c);
    } else if on: bool, i: nat :| i < |t.commands| && w == Sign(on) + t.commands[i].name {
      r := Top(on, i);
    } else if on: bool, i: nat, j: nat :| i < |t.commands| && j < |t.commands[i].subs|
                                          && w == Sign(on) + (t.commands[i].name + "|" + t.commands[i].subs[j].name) {
      r := Child(on, i, j);
    } else {
      var i: nat, arg: string :| i < |t.commands| && NamesArg(t, w, i, arg);
      r := FirstArg(i, arg);
    }
  }

  /** Exactly the texts that name a category, a command, a subcommand or a first argument are accepted. */
  lemma AcceptedExactly(t: Table, op: string)
    requires ValidNames(t) && Plain(op)
    ensures Parse(t, op).Some? <==> Accepted(t, Lower(op))
  {
    hide Parse, Token, Accepted, ValidNames, Plain, ValidSpelling, Lower;
    AllIsParsed(t, op);
    if Parse(t, op).Some? && Parse(t, op).value.One? {
      ParsedIsSpelled(t, op);
      SpelledIsAccepted(t, Parse(t, op).value.rule);
    }
    AllAccepted(t, Lower(op));
    if Accepted(t, Lower(op)) && !AllowsAll(Lower(op)) && !BlocksAll(Lower(op)) {
      var r := AcceptedIsSpelled(t, Lower(op));
      SpelledIsParsed(t, op, r);
    }
  }

  lemma AllAccepted(t: Table, w: string)
    ensures AllowsAll(w) || BlocksAll(w) ==> Accepted(t, w)
  {
  }

  // ---- What a text does to a selector ------------------------------------------------------------

  /** What an accepted text makes of a selector, told from the text alone. */
  lemma AcceptedMeans(t: Table, s: Selector, op: string)
    requires ValidTable(t) && ValidNames(t) && Plain(op) && Parse(t, op).Some?
    ensures var w, after := Lower(op), SetRule(t, s, Parse(t, op).value);
            AllowsAll(w) || BlocksAll(w) ==>
              && after.allCommands == AllowsAll(w) && after.rules == []
              && forall id: Id :: after.cells[id] == Cell(AllowsAll(w), {})
    ensures var w, after := Lower(op), SetRule(t, s, Parse(t, op).value);
            !AllowsAll(w) && !BlocksAll(w) ==>
              && after.allCommands == (s.allCommands && !exists id: Id :: Reaches(t, w, false, id))
              && forall id: Id :: BitMeans(t, w, id, s.cells[id].bit, after.cells[id].bit)
                                  && ArgsMean(t, w, id, s.cells[id].args, after.cells[id].args)
  {
    hide ValidTable, ValidNames, Plain, Lower, Parse, Reaches, ActionOn, OwnerOf, Retain, ClearsABit, Token, BitMeans, ArgsMean;
    AllIsParsed(t, op);
    if Parse(t, op).value.One? {
      var r := Parse(t, op).value.rule;
      ParsedIsSpelled(t, op);
      ClearsMeans(t, r);
      forall id: Id { RuleMeans(t, r, id, s.cells[id]); }
    }
  }

  // ---- Any sequence of rules --------------------------------------------------------------------

  /** An accepted text that speaks of an id. */
  ghost predicate Speaks(t: Table, w: string, on: bool, id: Id) {
    && Accepted(t, w)
    && if AllowsAll(w) then on else if BlocksAll(w) then !on else Reaches(t, w, on, id)
  }

  /** Some text allows the id and no later one blocks it. */
  ghost predicate Allowed(t: Table, texts: seq<string>, id: Id) {
    exists k: nat | k < |texts| ::
      Speaks(t, Lower(texts[k]), true, id) && forall l: nat | k < l < |texts| :: !Speaks(t, Lower(texts[l]), false, id)
  }

  /** A selector on which a text is set; a refused one changes nothing. */
  function Given(t: Table, s: Selector, op: string): Selector {
    match Parse(t, op)
    case None => s
    case Some(rule) => SetRule(t, s, rule)
  }

  function GivenAll(t: Table, texts: seq<string>): Selector {
    if |texts| == 0 then NewSelector() else Given(t, GivenAll(t, texts[..|texts| - 1]), texts[|texts| - 1])
  }

  lemma OneMoreText(t: Table, s: Selector, op: string, id: Id)
    requires ValidTable(t) && ValidNames(t) && Plain(op)
    ensures var bit := Given(t, s, op).cells[id].bit;
            && (forall on: bool | Speaks(t, Lower(op), on, id) :: bit == on)
            && (bit != s.cells[id].bit ==> Speaks(t, Lower(op), bit, id))
  {
    hide ValidTable, ValidNames, Plain, Accepted, Lower, Parse, Reaches, ActionOn, OwnerOf, Retain, ClearsABit, Token;
    AcceptedExactly(t, op);
    AllIsParsed(t, op);
    if Parse(t, op).Some? && Parse(t, op).value.One? {
      ParsedIsSpelled(t, op);
      RuleMeans(t, Parse(t, op).value.rule, id, s.cells[id]);
    }
  }

  lemma AllowedNext(t: Table, texts: seq<string>, w: string, id: Id)
    ensures Allowed(t, texts + [w], id)
            <==> Speaks(t, Lower(w), true, id) || (Allowed(t, texts, id) && !Speaks(t, Lower(w), false, id))
  {
    hide Speaks, Lower;
    var all, n := texts + [w], |texts|;
    assert all[n] == w && forall i: nat | i < n :: all[i] == texts[i];
    if Allowed(t, texts, id) && !Speaks(t, Lower(w), false, id) {
      var k: nat :| k < n && Speaks(t, Lower(texts[k]), true, id)
                    && forall l: nat | k < l < n :: !Speaks(t, Lower(texts[l]), false, id);
      assert Speaks(t, Lower(all[k]), true, id);
    }
    if k: nat :| k < |all| && Speaks(t, Lower(all[k]), true, id)
                 && forall l: nat | k < l < |all| :: !Speaks(t, Lower(all[l]), false, id) {
      if k < n {
        assert Speaks(t, Lower(texts[k]), true, id) && !Speaks(t, Lower(all[n]), false, id);
        assert forall l: nat | k < l < n :: !Speaks(t, Lower(all[l]), false, id);
      }
    }
  }

  /** After any texts, a command may be run exactly if one allows it and no later one blocks it. */
  lemma {:induction false} LastTextDecides(t: Table, texts: seq<string>, id: Id)
    requires ValidTable(t) && ValidNames(t) && forall i: nat | i < |texts| :: Plain(texts[i])
    ensures GivenAll(t, texts).cells[id].bit <==> Allowed(t, texts, id)
  {
    hide ValidTable, ValidNames, Plain, Given, Speaks;
    if |texts| > 0 {
      var front, w := texts[..|texts| - 1], texts[|texts| - 1];
      LastTextDecides(t, front, id);
      OneMoreText(t, GivenAll(t, front), w, id);
      assert texts == front + [w];
      AllowedNext(t, front, w, id);
    }
  }
}

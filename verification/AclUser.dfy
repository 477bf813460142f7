/**
 * Setting rules on a selector and describing it again (src/acl.c:650-790,
 * 1124-1274). The description replays the retained rules on a fresh selector; the
 * server panics if that does not rebuild the bitmap. The panic is unreachable.
 */
module AclUser {
  import opened Common
  import opened Acl
  import opened AclText
  import opened AclRules
  import opened AclSelector
  import opened AclMeaning
  import opened AclSplit

  /** A selector that only +@all or -@all was set on. */
  ghost predicate Cleared(s: Selector, on: bool) {
    s.cells == Base(on) && s.rules == []
  }

  /** The rule that an accepted body, in any case, stands for. */
  ghost predicate Spells(t: Table, body: string, on: bool, r: Rule) {
    && ValidSpelling(t, r) && Body(t, r) == Lower(body) && On(r) == on
    && (r.FirstArg? ==> LastBar(body) < |body| && Lower(body[LastBar(body) + 1..]) == r.arg)
  }

  lemma NoArgs(args: seq<string>)
    ensures ArgSet(args) == {} ==> args == []
  {
    if args != [] { assert Lower(args[0]) in ArgSet(args); }
  }

  class CommandSelector {
    const bitmap: Bitmap
    var commandRules: array<char>
    ghost var rules: seq<Rule>

    ghost function View(): Selector
      requires bitmap.bits.Length == bitmap.firstArgs.Length == BITS
      reads this, bitmap, bitmap.bits, bitmap.firstArgs
    {
      Selector(bitmap.Cells(), bitmap.allCommands, rules)
    }

    /** The text is the retained rules joined by spaces. */
    ghost predicate TextValid()
      reads this, commandRules
    {
      && bitmap.Valid() && ValidNames(bitmap.table) && AllValid(bitmap.table, rules) && Settled(rules)
      && Holds(commandRules[..], Join(Tokens(bitmap.table, rules)))
    }

    /** And the retained rules rebuild the permissions. */
    ghost predicate Valid()
      reads this, bitmap, bitmap.bits, bitmap.firstArgs, commandRules
    {
      TextValid() && Exact(bitmap.table, View())
    }

    constructor (t: Table)
      requires ValidTable(t) && ValidNames(t)
      ensures Valid() && bitmap.table == t && View() == NewSelector()
      ensures fresh(bitmap) && fresh(bitmap.bits) && fresh(bitmap.firstArgs) && fresh(commandRules)
    {
      bitmap := new Bitmap(t);
      commandRules := new char[1](_ => '\0');
      rules := [];
      new;
      NoTokens(t);
      Empty();
      assert View() == NewSelector();
      ReplayNone(t, Base(false));
    }

    /** Drops the rules that the new one replaces and appends it. */
    method UpdateCommandRules(body: string, on: bool, ghost r: Rule)
      requires TextValid() && Spells(bitmap.table, body, on, r)
      modifies this, commandRules
      ensures rules == Retain(old(rules), r) && TextValid() && fresh(commandRules)
    {
      hide Join, Tokens, Kept, Uncovered, Clean, Body, Token, Holds, Covers, ValidRule;
      TokensAreTokens(bitmap.table, rules);
      var rule := Lower(body);
      RemoveCommandRule(commandRules, rule, Tokens(bitmap.table, rules));
      KeptAreUncovered(bitmap.table, rules, r);
      AppendToken(bitmap.table, Uncovered(rules, r), r);
      RetainSettles(rules, r);
      ghost var text := Join(Tokens(bitmap.table, Uncovered(rules, r)));
      TokenOf(bitmap.table, r);
      commandRules := Append(commandRules, (if on then "+" else "-") + rule, text);
      rules := Retain(rules, r);
    }

    /** The bits and first arguments a rule changes. */
    method ApplyRule(r: Rule, body: string, ghost on: bool)
      requires bitmap.Valid() && Spells(bitmap.table, body, on, r)
      modifies bitmap, bitmap.bits, bitmap.firstArgs
      ensures bitmap.Cells() == Effect(bitmap.table, r, old(bitmap.Cells()))
      ensures bitmap.allCommands == (old(bitmap.allCommands) && !ClearsABit(bitmap.table, r))
    {
      match r {
        case Category(on, name) => bitmap.ChangeCategory(name, on);
        case Top(on, i) =>
          bitmap.ChangeCommand(i, on);
          TopClears(bitmap.table, i, on);
        case Child(on, i, j) =>
          bitmap.ChangeSubcommand(i, j, on);
          ChildClears(bitmap.table, i, j, on);
        case FirstArg(i, arg) =>
          bitmap.AddFirstArg(i, body[LastBar(body) + 1..]);
          FirstArgClears(bitmap.table, i, arg);
      }
    }

    method SetAll(on: bool)
      requires Valid()
      modifies this, bitmap, bitmap.bits, bitmap.firstArgs
      ensures Valid() && fresh(commandRules) && View() == Acl.SetRule(bitmap.table, old(View()), All(on))
    {
      StepKeepsExact(bitmap.table, View(), All(on));
      hide Exact, ValidNames, ValidTable;
      bitmap.ChangeAll(on);
      commandRules := new char[1](_ => '\0');
      rules := [];
      NoTokens(bitmap.table);
      Empty();
      assert View().cells == Base(on);
    }

    method SetOne(r: Rule, body: string, on: bool)
      requires Valid() && Spells(bitmap.table, body, on, r)
      modifies this, bitmap, bitmap.bits, bitmap.firstArgs, commandRules
      ensures Valid() && fresh(commandRules) && View() == Acl.SetRule(bitmap.table, old(View()), One(r))
    {
      hide *;
      Parts();
      StepKeepsExact(bitmap.table, View(), One(r));
      ghost var next := Acl.SetRule(bitmap.table, View(), One(r));
      Next(bitmap.table, View(), r);
      ApplyRule(r, body, on);
      UpdateCommandRules(body, on, r);
      IsView(next);
      Whole();
    }

    lemma Parts()
      requires Valid()
      ensures TextValid() && bitmap.Valid() && ValidTable(bitmap.table) && Exact(bitmap.table, View())
      ensures View().cells == bitmap.Cells() && View().allCommands == bitmap.allCommands && View().rules == rules
    {
    }

    lemma IsView(s: Selector)
      requires bitmap.Valid() && s.cells == bitmap.Cells() && s.allCommands == bitmap.allCommands && s.rules == rules
      ensures View() == s
    {
    }

    lemma Whole()
      requires TextValid() && Exact(bitmap.table, View())
      ensures Valid()
    {
    }

    /** ACLSetSelector for command rules: refused rules change nothing. */
    method SetRule(op: string) returns (ok: bool)
      requires Valid() && Plain(op)
      modifies this, bitmap, bitmap.bits, bitmap.firstArgs, commandRules
      ensures Valid() && (commandRules == old(commandRules) || fresh(commandRules))
      ensures ok == Parse(bitmap.table, op).Some?
      ensures View() == if ok then Acl.SetRule(bitmap.table, old(View()), Parse(bitmap.table, op).value) else old(View())
      ensures ok <==> Accepted(bitmap.table, Lower(op))
      ensures AllowsAll(Lower(op)) || BlocksAll(Lower(op)) ==>
                && bitmap.allCommands == AllowsAll(Lower(op)) && rules == []
                && forall id: Id :: bitmap.bits[id] == AllowsAll(Lower(op)) && bitmap.firstArgs[id] == []
      ensures ok && !AllowsAll(Lower(op)) && !BlocksAll(Lower(op)) ==>
                && bitmap.allCommands == (old(bitmap.allCommands) && !exists id: Id :: Reaches(bitmap.table, Lower(op), false, id))
                && forall id: Id :: BitMeans(bitmap.table, Lower(op), id, old(bitmap.bits[id]), bitmap.bits[id])
                                    && ArgsMean(bitmap.table, Lower(op), id, old(ArgSet(bitmap.firstArgs[id])), ArgSet(bitmap.firstArgs[id]))
    {
      hide *;
      Parts();
      Names();
      AcceptedExactly(bitmap.table, op);
      AllAccepted(bitmap.table, Lower(op));
      ghost var before := View();
      forall id: Id { CellIs(id); }
      ok := SetParsed(op);
      if ok {
        AcceptedMeans(bitmap.table, before, op);
        Parts();
        forall id: Id { CellIs(id); }
        forall id: Id { NoArgs(bitmap.firstArgs[id]); }
      }
    }

    method SetParsed(op: string) returns (ok: bool)
      requires Valid() && Plain(op)
      modifies this, bitmap, bitmap.bits, bitmap.firstArgs, commandRules
      ensures Valid() && (commandRules == old(commandRules) || fresh(commandRules))
      ensures ok == Parse(bitmap.table, op).Some?
      ensures View() == if ok then Acl.SetRule(bitmap.table, old(View()), Parse(bitmap.table, op).value) else old(View())
    {
      hide Valid, Parse, Acl.SetRule, Spells, Plain, Bitmap.Cells;
      var parsed := Parse(bitmap.table, op);
      match parsed {
        case None => return false;
        case Some(All(on)) =>
          SetAll(on);
        case Some(One(r)) =>
          ParseSpells(bitmap.table, op);
          SetOne(r, op[1..], op[0] == '+');
      }
      ok := true;
    }

    lemma CellIs(id: Id)
      requires bitmap.Valid()
      ensures View().cells[id] == Cell(bitmap.bits[id], ArgSet(bitmap.firstArgs[id]))
    {
    }

    /** Runs retained rules, already split, on a cleared selector. */
    method ReplayRules(argv: seq<string>, on: bool, ghost target: seq<Rule>)
      requires Valid() && Cleared(View(), on)
      requires AllValid(bitmap.table, target) && Settled(target) && argv == Tokens(bitmap.table, target)
      modifies this, bitmap, bitmap.bits, bitmap.firstArgs, commandRules
      ensures Valid() && (commandRules == old(commandRules) || fresh(commandRules))
      ensures View().cells == Replay(bitmap.table, target, Base(on)) && View().rules == target
    {
      Parts();
      hide Valid, Replay, Bitmap.Cells, Acl.SetRule, Parse, Token, Clean, Settled;
      ReplayNone(bitmap.table, Base(on));
      for i := 0 to |argv|
        invariant Valid() && (commandRules == old(commandRules) || fresh(commandRules))
        invariant View().rules == target[..i]
        invariant View().cells == Replay(bitmap.table, target[..i], Base(on))
      {
        ghost var r := target[i];
        assert r in target && argv[i] == Token(bitmap.table, r);
        Names();
        ParseToken(bitmap.table, r);
        assert Plain(argv[i]) by { TokenIsPlain(bitmap.table, r); }
        Next(bitmap.table, View(), r);
        ReplayRetains(target, i);
        ReplayLast(bitmap.table, target[..i], r, Base(on));
        assert target[..i] + [r] == target[..i + 1];
        var ok := SetRule(argv[i]);
        assert ok;
      }
      assert target[..|argv|] == target;
    }

    lemma Names()
      requires Valid()
      ensures ValidNames(bitmap.table)
    {
    }

    /** The retained rules one by one: the text always splits, as the server asserts. */
    method SplitRules() returns (argv: seq<string>)
      requires Valid()
      ensures AllValid(bitmap.table, rules) && argv == Tokens(bitmap.table, rules)
    {
      hide Valid, Split, Join, Clean, ValidNames, Token;
      Names();
      Retained();
      SpelledIsAcceptable(bitmap.table, rules);
      RulesSplitExactly(bitmap.table, rules);
      var args := SplitArgs(commandRules, Join(Tokens(bitmap.table, rules)));
      match args {
        case Some(found) => argv := found;
      }
    }

    /** A fresh selector with the same retained rules. */
    method Rebuild() returns (fake: CommandSelector)
      requires Valid()
      ensures fresh(fake) && fake.Valid() && fake.bitmap.table == bitmap.table
      ensures fake.View().cells == View().cells && fake.View().rules == View().rules
    {
      hide Valid, TextValid, Exact, Replay, Bitmap.Cells, Acl.SetRule, Parse, Token, Clean, Settled, Holds, Join, ValidNames, ValidTable, Base;
      Parts();
      Names();
      Retained();
      fake := new CommandSelector(bitmap.table);
      fake.Parts();
      var on := bitmap.bits[RESERVED];
      StartsOver(bitmap.table, on);
      ClearedBy(bitmap.table, fake.View(), on);
      var ok := fake.SetRule(if on then "+@all" else "-@all");
      var argv := SplitRules();
      fake.ReplayRules(argv, on, rules);
      RebuiltIs(on);
    }

    /** Rebuilds the selector from its own text, as after a change of the command table's categories. */
    method Recompute()
      requires Valid()
      modifies this, bitmap, bitmap.bits, bitmap.firstArgs, commandRules
      ensures Valid() && View().cells == old(View()).cells && rules == old(rules)
    {
      hide Valid, TextValid, Exact, Replay, Bitmap.Cells, Acl.SetRule, Parse, Token, Clean, Settled, Holds, Join, ValidNames, ValidTable, Base;
      Parts();
      Names();
      Retained();
      var on := bitmap.bits[RESERVED];
      var argv := SplitRules();
      RebuiltIs(on);
      StartsOver(bitmap.table, on);
      ClearedBy(bitmap.table, View(), on);
      ghost var target := rules;
      var ok := SetRule(if on then "+@all" else "-@all");
      ReplayRules(argv, on, target);
      Parts();
    }

    lemma Retained()
      requires Valid()
      ensures AllValid(bitmap.table, rules) && Settled(rules) && Holds(commandRules[..], Join(Tokens(bitmap.table, rules)))
      ensures bitmap.bits.Length == bitmap.firstArgs.Length == BITS
    {
    }

    lemma RebuiltIs(on: bool)
      requires Valid() && on == bitmap.bits[RESERVED]
      ensures View().cells == Replay(bitmap.table, rules, Base(on))
    {
      assert View().cells[RESERVED].bit == on;
    }

    lemma BitsOf()
      requires Valid()
      ensures bitmap.Valid() && forall id: Id :: View().cells[id].bit == bitmap.bits[id]
    {
    }

    method SameBits(other: Bitmap) returns (same: bool)
      requires Valid() && other.Valid()
      ensures same <==> forall id: Id :: other.bits[id] == bitmap.bits[id]
    {
      for id := 0 to BITS
        invariant forall k: Id | k < id :: other.bits[k] == bitmap.bits[k]
      {
        if other.bits[id] != bitmap.bits[id] { return false; }
      }
      return true;
    }

    /** Describes the command rules. `matched` is false where the server would panic. */
    method Describe() returns (text: string, matched: bool)
      requires Valid()
      ensures matched
      ensures text == (if FutureCommands(View()) then "+@all" else "-@all")
                      + if rules == [] then "" else " " + Join(Tokens(bitmap.table, rules))
    {
      var fake := Rebuild();
      BitsOf();
      fake.BitsOf();
      matched := SameBits(fake.bitmap);
      text := Print();
    }

    /** The reserved bit's rule, then the retained text. */
    method Print() returns (text: string)
      requires Valid()
      ensures text == (if FutureCommands(View()) then "+@all" else "-@all")
                      + if rules == [] then "" else " " + Join(Tokens(bitmap.table, rules))
    {
      Parts();
      Retained();
      assert View().cells[RESERVED].bit == bitmap.bits[RESERVED];
      text := if bitmap.bits[RESERVED] then "+@all" else "-@all";
      ghost var joined := Join(Tokens(bitmap.table, rules));
      assert |joined| == 0 <==> rules == [] by { Names(); NoText(bitmap.table, rules); }
      hide Join, Tokens, Exact;
      var len := Find(commandRules, 0, '\0', joined);
      assert len == |joined| by { NoZero(joined); }
      if len > 0 { text := text + (" " + commandRules[..len]); } else { text := text + ""; }
    }
  }

  lemma NoText(t: Table, rules: seq<Rule>)
    requires ValidNames(t) && AllValid(t, rules)
    ensures |Join(Tokens(t, rules))| == 0 <==> rules == []
  {
    TokensAreTokens(t, rules);
    AtEnd([], Tokens(t, rules));
    assert [] + Tokens(t, rules) == Tokens(t, rules);
    Empty();
  }

  lemma ClearedBy(t: Table, s: Selector, on: bool)
    ensures Cleared(Acl.SetRule(t, s, All(on)), on)
  {
  }

  lemma TokenIsPlain(t: Table, r: Rule)
    requires ValidNames(t) && ValidSpelling(t, r)
    ensures Plain(Token(t, r))
  {
    hide Clean;
    BodyIsLower(t, r);
    assert forall i: nat | 0 < i < |Token(t, r)| :: Token(t, r)[i] == Body(t, r)[i - 1];
  }

  lemma SpelledIsAcceptable(t: Table, rules: seq<Rule>)
    requires AllValid(t, rules)
    ensures AllAcceptable(t, rules) && forall r | r in rules && r.FirstArg? :: Plain(r.arg)
  {
    forall r | r in rules && r.FirstArg? ensures IsLower(r.arg) && '|' !in r.arg && Lacks(r.arg, '\0') && Plain(r.arg) {
      CleanIsLower(r.arg);
    }
  }

  lemma StartsOver(t: Table, on: bool)
    ensures var op := if on then "+@all" else "-@all"; Plain(op) && Parse(t, op) == Some(All(on))
  {
    hide Lookup, ParseBody;
    assert Lower("+@all") == "+@all" && Lower("-@all") == "-@all";
    assert |"allcommands"| != |"-@all"| && "+@all"[0] != "-@all"[0];
  }

  lemma ParseSpells(t: Table, op: string)
    requires Plain(op) && Parse(t, op).Some? && Parse(t, op).value.One?
    ensures |op| > 0 && Spells(t, op[1..], op[0] == '+', Parse(t, op).value.rule)
  {
    hide Lookup, Lower, ValidSpelling, Body, Plain;
    ParseIsSpelled(t, op);
  }

  lemma Next(t: Table, s: Selector, r: Rule)
    ensures var next := Acl.SetRule(t, s, One(r));
            next.cells == Effect(t, r, s.cells) && next.allCommands == (s.allCommands && !ClearsABit(t, r))
            && next.rules == Retain(s.rules, r)
  {
  }

  lemma TopClears(t: Table, i: nat, on: bool)
    requires ValidTable(t) && i < |t.commands|
    ensures ClearsABit(t, Top(on, i)) <==> !on
  {
    IdsAre(t, t.commands[i].id);
    assert ActionOn(t, Top(on, i), OwnerOf(t, t.commands[i].id)) == Set(on);
  }

  lemma ChildClears(t: Table, i: nat, j: nat, on: bool)
    requires ValidTable(t) && i < |t.commands| && j < |t.commands[i].subs|
    ensures ClearsABit(t, Child(on, i, j)) <==> !on
  {
    IdsAre(t, t.commands[i].subs[j].id);
    assert ActionOn(t, Child(on, i, j), OwnerOf(t, t.commands[i].subs[j].id)) == Set(on);
  }

  lemma FirstArgClears(t: Table, i: nat, arg: string)
    ensures !ClearsABit(t, FirstArg(i, arg))
  {
  }

  lemma TokenOf(t: Table, r: Rule)
    requires ValidNames(t) && ValidSpelling(t, r)
    ensures Token(t, r) == (if On(r) then "+" else "-") + Body(t, r) && IsToken(Token(t, r))
  {
    hide Clean;
    TokenIsToken(t, r);
  }

  /** A longer C string: the old text, a space if there was any, and a token. */
  method Append(buf: array<char>, token: string, ghost text: string) returns (next: array<char>)
    requires Holds(buf[..], text) && Lacks(token, '\0')
    ensures fresh(next) && Holds(next[..], text + (if |text| > 0 then " " else "") + token)
  {
    var len := Find(buf, 0, '\0', text);
    assert len == |text| by { NoZero(text); }
    var all := buf[..len] + (if len > 0 then " " else "") + token;
    next := new char[|all| + 1](i requires 0 <= i <= |all| => if i < |all| then all[i] else '\0');
    assert next[..|all|] == all;
    assert buf[..len] == text;
  }

  lemma AppendToken(t: Table, left: seq<Rule>, r: Rule)
    requires ValidNames(t) && AllValid(t, left) && ValidSpelling(t, r)
    ensures AllValid(t, left + [r]) && AreTokens(Tokens(t, left + [r]))
    ensures var text := Join(Tokens(t, left));
            Join(Tokens(t, left + [r])) == text + (if |text| > 0 then " " else "") + Token(t, r)
  {
    hide Clean, Token;
    var all := left + [r];
    assert forall i: nat | i < |all| :: all[i] == if i < |left| then left[i] else r;
    assert Tokens(t, all) == Tokens(t, left) + [Token(t, r)];
    TokensAreTokens(t, all);
    TokensAreTokens(t, left);
    hide Join, Spaced, Tokens;
    JoinAll(Tokens(t, left), [Token(t, r)]);
    JoinFirst([Token(t, r)]);
    Empty();
    if |left| > 0 {
      SpacedIsJoin(Tokens(t, left));
      AtEnd([], Tokens(t, left));
    }
  }

  // ---- Command ids -----------------------------------------------------------------------------

  /** The ids given out so far, by name in lower case. */
  class CommandIds {
    var ids: map<string, nat>
    var next: nat

    ghost predicate Valid()
      reads this
    {
      && next != RESERVED
      && (forall n | n in ids :: ids[n] < next && ids[n] != RESERVED)
      && (forall n, m | n in ids && m in ids && ids[n] == ids[m] :: n == m)
    }

    constructor ()
      ensures Valid() && ids == map[]
    {
      ids, next := map[], 0;
    }

    /** The id of a name: kept once given, different for different names, never the reserved one. */
    method GetCommandID(name: string) returns (id: nat)
      requires Valid()
      modifies this
      ensures Valid() && id != RESERVED
      ensures ids == if Lower(name) in old(ids) then old(ids) else old(ids)[Lower(name) := id]
      ensures ids[Lower(name)] == id
    {
      var lower := Lower(name);
      if lower in ids { return ids[lower]; }
      ids := ids[lower := next];
      id := next;
      next := next + 1;
      if next == RESERVED { next := next + 1; }
    }
  }
}

/**
 * A selector as the server keeps it (src/acl.c:577-790, 912-964, 1124-1274): the
 * bitmap, the first-argument lists, the ALLCOMMANDS flag and the text of the
 * retained rules, all edited in place.
 */
module AclSelector {
  import opened Acl
  import opened AclText
  import opened AclRules

  /** First arguments are compared without regard to case. */
  ghost function ArgSet(args: seq<string>): set<string> {
    set a | a in args :: Lower(a)
  }

  function Tokens(t: Table, rules: seq<Rule>): seq<string>
    requires forall r | r in rules :: ValidRule(t, r)
  {
    seq(|rules|, i requires 0 <= i < |rules| => Token(t, rules[i]))
  }

  /** What an id stands for, both ways. */
  lemma IdsAre(t: Table, id: Id)
    requires ValidTable(t)
    ensures forall i: nat :: OwnerOf(t, id) == IsTop(i) <==> i < |t.commands| && t.commands[i].id == id
    ensures forall i: nat, j: nat ::
              OwnerOf(t, id) == IsSub(i, j) <==> i < |t.commands| && j < |t.commands[i].subs| && t.commands[i].subs[j].id == id
  {
    OwnerFound(t, id, 0);
    forall i: nat | i < |t.commands| && t.commands[i].id == id ensures OwnerOf(t, id) == IsTop(i) {
      OwnerIs(t, id, IsTop(i));
    }
    forall i: nat, j: nat | i < |t.commands| && j < |t.commands[i].subs| && t.commands[i].subs[j].id == id
      ensures OwnerOf(t, id) == IsSub(i, j)
    {
      OwnerIs(t, id, IsSub(i, j));
    }
  }

  class Bitmap {
    const table: Table
    const bits: array<bool>
    const firstArgs: array<seq<string>>
    var allCommands: bool

    ghost predicate Valid() {
      ValidTable(table) && bits.Length == firstArgs.Length == BITS
    }

    ghost function CellAt(id: Id): Cell
      requires bits.Length == firstArgs.Length == BITS
      reads this, bits, firstArgs
    {
      Cell(bits[id], ArgSet(firstArgs[id]))
    }

    ghost function Cells(): Permissions
      requires bits.Length == firstArgs.Length == BITS
      reads this, bits, firstArgs
    {
      seq(BITS, id requires 0 <= id < BITS && bits.Length == firstArgs.Length == BITS reads this, bits, firstArgs => CellAt(id))
    }

    constructor (t: Table)
      requires ValidTable(t)
      ensures Valid() && table == t && fresh(bits) && fresh(firstArgs)
      ensures !allCommands && forall id: Id :: CellAt(id) == Cell(false, {})
    {
      table := t;
      bits := new bool[BITS](_ => false);
      firstArgs := new seq<string>[BITS](_ => []);
      allCommands := false;
    }

    method SetCommandBit(id: Id, on: bool)
      requires Valid()
      modifies this, bits
      ensures forall k: Id :: bits[k] == if k == id then on else old(bits[k])
      ensures allCommands == (old(allCommands) && on)
    {
      if on {
        bits[id] := true;
      } else {
        bits[id] := false;
        allCommands := false;
      }
    }

    /** Allows or blocks a command with all its subcommands. */
    method ChangeCommand(i: nat, on: bool)
      requires Valid() && i < |table.commands|
      modifies this, bits, firstArgs
      ensures forall id: Id :: CellAt(id) == Do(ActionOn(table, Top(on, i), OwnerOf(table, id)), old(CellAt(id)))
      ensures allCommands == (old(allCommands) && on)
    {
      var cmd := table.commands[i];
      forall id: Id { IdsAre(table, id); }
      SetCommandBit(cmd.id, on);
      firstArgs[cmd.id] := [];
      for j := 0 to |cmd.subs|
        invariant forall id: Id :: CellAt(id) == match OwnerOf(table, id) {
            case IsTop(k) => if k == i then Cell(on, {}) else old(CellAt(id))
            case IsSub(k, l) => if k == i && l < j then old(CellAt(id)).(bit := on) else old(CellAt(id))
            case NoCommand => old(CellAt(id)) }
        invariant allCommands == (old(allCommands) && on)
      {
        SetCommandBit(cmd.subs[j].id, on);
      }
    }

    method ChangeSubcommand(i: nat, j: nat, on: bool)
      requires Valid() && i < |table.commands| && j < |table.commands[i].subs|
      modifies this, bits, firstArgs
      ensures forall id: Id :: CellAt(id) == Do(ActionOn(table, Child(on, i, j), OwnerOf(table, id)), old(CellAt(id)))
      ensures allCommands == (old(allCommands) && on)
    {
      var sub := table.commands[i].subs[j];
      forall id: Id { IdsAre(table, id); }
      SetCommandBit(sub.id, on);
      firstArgs[sub.id] := [];
    }

    /** The walk over the command table for one category. */
    method ChangeCategory(name: string, on: bool)
      requires Valid()
      modifies this, bits, firstArgs
      ensures forall id: Id :: CellAt(id) == Do(ActionOn(table, Category(on, name), OwnerOf(table, id)), old(CellAt(id)))
      ensures allCommands == (old(allCommands) && !ClearsABit(table, Category(on, name)))
    {
      for i := 0 to |table.commands|
        invariant forall id: Id :: CellAt(id) == if Index(OwnerOf(table, id)) < i
                                                 then Do(ActionOn(table, Category(on, name), OwnerOf(table, id)), old(CellAt(id)))
                                                 else old(CellAt(id))
        invariant allCommands == (old(allCommands) && (on || forall k: nat | k < i :: !Touched(table, name, k)))
      {
        ChangeCategoryAt(name, on, i);
      }
      forall id: Id { IndexBound(table, id); }
      CategoryClears(table, name, on);
    }

    /** One command of the walk, then its subcommands. */
    method ChangeCategoryAt(name: string, on: bool, i: nat)
      requires Valid() && i < |table.commands|
      modifies this, bits, firstArgs
      ensures forall id: Id :: CellAt(id) == if Index(OwnerOf(table, id)) == i
                                             then Do(ActionOn(table, Category(on, name), OwnerOf(table, id)), old(CellAt(id)))
                                             else old(CellAt(id))
      ensures allCommands == (old(allCommands) && (on || !Touched(table, name, i)))
    {
      var cmd := table.commands[i];
      if name in cmd.categories { ChangeCommand(i, on); }
      for j := 0 to |cmd.subs|
        invariant forall id: Id :: CellAt(id) == match OwnerOf(table, id) {
            case IsTop(k) => if k == i && name in cmd.categories then Cell(on, {}) else old(CellAt(id))
            case IsSub(k, l) =>
              if k != i || l >= |cmd.subs| then old(CellAt(id))
              else if l < j && name in cmd.subs[l].categories then Cell(on, {})
              else if name in cmd.categories then old(CellAt(id)).(bit := on)
              else old(CellAt(id))
            case NoCommand => old(CellAt(id)) }
        invariant allCommands == (old(allCommands) && (on || (name !in cmd.categories
                                                              && forall l: nat | l < j :: name !in cmd.subs[l].categories)))
      {
        if name in cmd.subs[j].categories { ChangeSubcommand(i, j, on); }
      }
      forall id: Id { IdsAre(table, id); }
    }

    /** Adds a first argument unless it is there in some case already. */
    method AddFirstArg(i: nat, arg: string)
      requires Valid() && i < |table.commands|
      modifies firstArgs
      ensures forall id: Id :: CellAt(id) == Do(ActionOn(table, FirstArg(i, Lower(arg)), OwnerOf(table, id)), old(CellAt(id)))
    {
      var id := table.commands[i].id;
      forall k: Id { IdsAre(table, k); }
      var args := firstArgs[id];
      for k := 0 to |args|
        invariant forall l: nat | l < k :: Lower(args[l]) != Lower(arg)
      {
        if Lower(args[k]) == Lower(arg) {
          assert Lower(arg) in ArgSet(args);
          assert ArgSet(args) + {Lower(arg)} == ArgSet(args);
          return;
        }
      }
      firstArgs[id] := args + [arg];
      assert ArgSet(args + [arg]) == ArgSet(args) + {Lower(arg)};
    }

    /** +@all or -@all. */
    method ChangeAll(on: bool)
      requires Valid()
      modifies this, bits, firstArgs
      ensures allCommands == on && forall id: Id :: CellAt(id) == Cell(on, {})
    {
      for id := 0 to BITS
        invariant forall k: Id | k < id :: bits[k] == on && firstArgs[k] == []
      {
        bits[id], firstArgs[id] := on, [];
      }
      assert ArgSet([]) == {};
      allCommands := on;
    }
  }

  /** The table position an id belongs to. */
  function Index(o: Owner): int {
    match o
    case NoCommand => -1
    case IsTop(i) => i
    case IsSub(i, _) => i
  }

  lemma IndexBound(t: Table, id: Id)
    requires ValidTable(t)
    ensures Index(OwnerOf(t, id)) < |t.commands|
  {
    OwnerFound(t, id, 0);
  }

  /** A category holds the command or one of its subcommands. */
  predicate Touched(t: Table, name: string, i: nat)
    requires i < |t.commands|
  {
    name in t.commands[i].categories || exists j: nat | j < |t.commands[i].subs| :: name in t.commands[i].subs[j].categories
  }

  lemma CategoryClears(t: Table, name: string, on: bool)
    requires ValidTable(t)
    ensures ClearsABit(t, Category(on, name)) <==> !on && exists k: nat | k < |t.commands| :: Touched(t, name, k)
  {
    if k: nat :| k < |t.commands| && Touched(t, name, k) {
      if name in t.commands[k].categories {
        IdsAre(t, t.commands[k].id);
        assert ActionOn(t, Category(on, name), OwnerOf(t, t.commands[k].id)) == Set(on);
      } else {
        var j: nat :| j < |t.commands[k].subs| && name in t.commands[k].subs[j].categories;
        IdsAre(t, t.commands[k].subs[j].id);
        assert ActionOn(t, Category(on, name), OwnerOf(t, t.commands[k].subs[j].id)) == Set(on);
      }
    }
    if id: Id :| ActionOn(t, Category(on, name), OwnerOf(t, id)) in {Set(false), Bit(false)} {
      assert Touched(t, name, Index(OwnerOf(t, id)));
    }
  }

  // ---- The retained rules ----------------------------------------------------------------------

  ghost predicate AllValid(t: Table, rules: seq<Rule>) {
    forall r | r in rules :: ValidSpelling(t, r)
  }

  lemma TokenIsToken(t: Table, r: Rule)
    requires ValidNames(t) && ValidSpelling(t, r)
    ensures IsToken(Token(t, r)) && Unsigned(Token(t, r)) == Body(t, r)
    ensures Plain(Token(t, r))
  {
    hide Clean;
    BodyIsLower(t, r);
    assert Token(t, r)[1..] == Body(t, r);
    assert forall i: nat | 0 < i < |Token(t, r)| :: Token(t, r)[i] == Body(t, r)[i - 1];
  }

  lemma TokensAreTokens(t: Table, rules: seq<Rule>)
    requires ValidNames(t) && AllValid(t, rules)
    ensures AreTokens(Tokens(t, rules))
  {
    hide IsToken, Token;
    forall i: nat | i < |rules| ensures IsToken(Tokens(t, rules)[i]) {
      assert rules[i] in rules;
      TokenIsToken(t, rules[i]);
    }
  }

  lemma {:induction false} UncoveredFirst(rules: seq<Rule>, r: Rule)
    requires |rules| > 0
    ensures Uncovered(rules, r) == (if Covers(r, rules[0]) then [] else [rules[0]]) + Uncovered(rules[1..], r)
  {
    if |rules| > 1 {
      UncoveredFirst(rules[..|rules| - 1], r);
      assert rules[1..][..|rules| - 2] == rules[..|rules| - 1][1..];
    } else {
      assert rules[1..] == [];
    }
  }

  lemma {:induction false} UncoveredValid(t: Table, rules: seq<Rule>, r: Rule)
    requires AllValid(t, rules)
    ensures AllValid(t, Uncovered(rules, r))
  {
    if |rules| > 0 { UncoveredValid(t, rules[..|rules| - 1], r); }
  }

  lemma TokensFirst(t: Table, first: Rule, rest: seq<Rule>)
    requires ValidSpelling(t, first) && AllValid(t, rest)
    ensures AllValid(t, [first] + rest) && Tokens(t, [first] + rest) == [Token(t, first)] + Tokens(t, rest)
  {
    hide Token, Clean;
    var all := [first] + rest;
    assert forall i: nat | i < |all| :: all[i] == if i == 0 then first else rest[i - 1];
  }

  /** Filtering the text by bodies is filtering the rules by what they cover. */
  lemma {:induction false} KeptAreUncovered(t: Table, rules: seq<Rule>, r: Rule)
    requires ValidNames(t) && ValidSpelling(t, r) && AllValid(t, rules)
    ensures AllValid(t, Uncovered(rules, r))
    ensures Kept(Tokens(t, rules), Body(t, r)) == Tokens(t, Uncovered(rules, r))
  {
    hide Replaces, Token, Body, Covers, Clean, Tokens;
    UncoveredValid(t, rules, r);
    if |rules| == 0 {
      NoTokens(t);
    } else {
      var first, rest := rules[0], rules[1..];
      assert first in rules && AllValid(t, rest) && rules == [first] + rest;
      KeptAreUncovered(t, rest, r);
      UncoveredFirst(rules, r);
      TokensFirst(t, first, rest);
      KeptFirst(Token(t, first), Tokens(t, rest), Body(t, r));
      TokenIsToken(t, first);
      ReplacesMeansCovers(t, r, first);
      if Covers(r, first) {
        assert Uncovered(rules, r) == Uncovered(rest, r);
      } else {
        TokensFirst(t, first, Uncovered(rest, r));
      }
    }
  }

  lemma KeptFirst(first: string, rest: seq<string>, body: string)
    ensures Kept([first] + rest, body) == (if Replaces(body, Unsigned(first)) then [] else [first]) + Kept(rest, body)
  {
    assert ([first] + rest)[1..] == rest;
  }

  lemma NoTokens(t: Table)
    ensures Tokens(t, []) == []
  {
  }

  // ---- Order of the retained rules -----------------------------------------------------------------

  /** No retained rule is covered by a later one. */
  ghost predicate Settled(rules: seq<Rule>) {
    forall i: nat, j: nat | i < j < |rules| :: !Covers(rules[j], rules[i])
  }

  lemma {:induction false} UncoveredKeepsOrder(rules: seq<Rule>, r: Rule)
    requires Settled(rules)
    ensures Settled(Uncovered(rules, r))
    ensures forall x | x in Uncovered(rules, r) :: x in rules && !Covers(r, x)
  {
    if |rules| > 0 {
      var front, last := rules[..|rules| - 1], rules[|rules| - 1];
      UncoveredKeepsOrder(front, r);
      assert forall i: nat | i < |front| :: front[i] == rules[i];
      assert forall x | x in front :: x in rules && !Covers(last, x);
      var left := Uncovered(front, r);
      assert forall i: nat | i < |left| :: left[i] in front;
    }
  }

  lemma RetainSettles(rules: seq<Rule>, r: Rule)
    requires Settled(rules)
    ensures Settled(Retain(rules, r))
  {
    UncoveredKeepsOrder(rules, r);
  }

  /** Replaying a settled list retains it unchanged. */
  lemma {:induction false} NothingCovered(rules: seq<Rule>, r: Rule)
    requires forall i: nat | i < |rules| :: !Covers(r, rules[i])
    ensures Uncovered(rules, r) == rules
  {
    if |rules| > 0 {
      NothingCovered(rules[..|rules| - 1], r);
      assert rules == rules[..|rules| - 1] + [rules[|rules| - 1]];
    }
  }

  lemma ReplayRetains(rules: seq<Rule>, i: nat)
    requires Settled(rules) && i < |rules|
    ensures Retain(rules[..i], rules[i]) == rules[..i + 1]
  {
    NothingCovered(rules[..i], rules[i]);
  }
}

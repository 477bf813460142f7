/**
 * The command permissions of an ACL selector (src/acl.c): a bitmap with one bit
 * per command, the first arguments allowed for single commands, and the retained
 * rules from which both can be rebuilt. Here rules are values; `AclText` gives
 * them their spelling and `AclSelector` the selector that is edited in place.
 */
module Acl {
  /** USER_COMMAND_BITS_COUNT; the last bit is never a command's. */
  const BITS := 1024
  const RESERVED := BITS - 1

  type Id = i: int | 0 <= i < BITS witness 0

  datatype Sub = Sub(name: string, id: Id, categories: set<string>)
  datatype Command = Command(name: string, id: Id, categories: set<string>, subs: seq<Sub>)
  datatype Table = Table(commands: seq<Command>, categories: set<string>)

  /** A command rule that names something in the table. `i` and `j` are table positions. */
  datatype Rule =
    | Category(on: bool, name: string)
    | Top(on: bool, i: nat)
    | Child(on: bool, i: nat, j: nat)
    | FirstArg(i: nat, arg: string)

  predicate ValidRule(t: Table, r: Rule) {
    match r
    case Category(_, name) => name in t.categories
    case Top(_, i) => i < |t.commands|
    case Child(_, i, j) => i < |t.commands| && j < |t.commands[i].subs|
    case FirstArg(i, arg) => i < |t.commands| && t.commands[i].subs == [] && arg != ""
  }

  // ---- What a rule does to one command -------------------------------------------------------

  /** The permission of one command: its bit and the first arguments allowed besides. */
  datatype Cell = Cell(bit: bool, args: set<string>)

  datatype Action = Keep | Set(on: bool) | Bit(on: bool) | Add(arg: string)

  function Do(a: Action, c: Cell): Cell {
    match a
    case Keep => c
    case Set(on) => Cell(on, {})
    case Bit(on) => c.(bit := on)
    case Add(arg) => c.(args := c.args + {arg})
  }

  /** What an id stands for. */
  datatype Owner = NoCommand | IsTop(i: nat) | IsSub(i: nat, j: nat)

  ghost predicate Owns(t: Table, id: Id, o: Owner) {
    match o
    case NoCommand => (forall i: nat | i < |t.commands| :: t.commands[i].id != id)
                      && (forall i: nat, j: nat | i < |t.commands| && j < |t.commands[i].subs| :: t.commands[i].subs[j].id != id)
    case IsTop(i) => i < |t.commands| && t.commands[i].id == id
    case IsSub(i, j) => i < |t.commands| && j < |t.commands[i].subs| && t.commands[i].subs[j].id == id
  }

  /** Every id is one command's at most, and none uses the reserved bit. */
  ghost predicate ValidTable(t: Table) {
    && (forall id: Id, o: Owner, p: Owner | Owns(t, id, o) && Owns(t, id, p) :: o == p)
    && Owns(t, RESERVED, NoCommand)
  }

  /**
   * The action of a rule on the command behind an id. A rule on a command also
   * sets the bits of its subcommands; a category acts on commands and subcommands
   * that are in it.
   */
  function ActionOn(t: Table, r: Rule, o: Owner): Action {
    match o
    case NoCommand => Keep
    case IsTop(i) =>
      if i >= |t.commands| then Keep
      else (match r
            case Category(on, name) => if name in t.commands[i].categories then Set(on) else Keep
            case Top(on, k) => if k == i then Set(on) else Keep
            case FirstArg(k, arg) => if k == i then Add(arg) else Keep
            case Child(_, _, _) => Keep)
    case IsSub(i, j) =>
      if i >= |t.commands| || j >= |t.commands[i].subs| then Keep
      else (match r
            case Category(on, name) =>
              if name in t.commands[i].subs[j].categories then Set(on)
              else if name in t.commands[i].categories then Bit(on) else Keep
            case Top(on, k) => if k == i then Bit(on) else Keep
            case Child(on, k, l) => if k == i && l == j then Set(on) else Keep
            case FirstArg(_, _) => Keep)
  }

  type Permissions = p: seq<Cell> | |p| == BITS witness seq(BITS, _ => Cell(false, {}))

  function OwnerOf(t: Table, id: Id): Owner {
    OwnerFrom(t, id, 0)
  }

  function OwnerFrom(t: Table, id: Id, i: nat): Owner
    decreases |t.commands| - i
  {
    if i >= |t.commands| then NoCommand
    else if t.commands[i].id == id then IsTop(i)
    else
      var j := SubFrom(t.commands[i].subs, id, 0);
      if j < |t.commands[i].subs| then IsSub(i, j) else OwnerFrom(t, id, i + 1)
  }

  function SubFrom(subs: seq<Sub>, id: Id, j: nat): (k: nat)
    requires j <= |subs|
    ensures j <= k <= |subs| && (k < |subs| ==> subs[k].id == id) && forall l: nat | j <= l < k :: subs[l].id != id
    decreases |subs| - j
  {
    if j == |subs| || subs[j].id == id then j else SubFrom(subs, id, j + 1)
  }

  lemma {:induction false} OwnerFound(t: Table, id: Id, i: nat)
    requires i <= |t.commands|
    requires forall k: nat | k < i :: t.commands[k].id != id
    requires forall k: nat, l: nat | k < i && l < |t.commands[k].subs| :: t.commands[k].subs[l].id != id
    ensures Owns(t, id, OwnerFrom(t, id, i))
    decreases |t.commands| - i
  {
    if i < |t.commands| && t.commands[i].id != id && SubFrom(t.commands[i].subs, id, 0) == |t.commands[i].subs| {
      OwnerFound(t, id, i + 1);
    }
  }

  /** The owner of an id in a valid table. */
  lemma OwnerIs(t: Table, id: Id, o: Owner)
    requires ValidTable(t) && Owns(t, id, o)
    ensures OwnerOf(t, id) == o
  {
    OwnerFound(t, id, 0);
  }

  /** What a rule does to all permissions at once. */
  function Effect(t: Table, r: Rule, p: Permissions): Permissions {
    seq(BITS, id requires 0 <= id < BITS => Do(ActionOn(t, r, OwnerOf(t, id)), p[id]))
  }

  function Replay(t: Table, rules: seq<Rule>, p: Permissions): Permissions {
    if |rules| == 0 then p else Effect(t, rules[|rules| - 1], Replay(t, rules[..|rules| - 1], p))
  }

  /** +@all or -@all. */
  function Base(on: bool): Permissions {
    seq(BITS, _ => Cell(on, {}))
  }

  // ---- Which rules a new rule replaces ----------------------------------------------------------

  /** Same target, or a rule on part of the command that the new rule is about. */
  predicate Covers(newer: Rule, earlier: Rule) {
    match newer
    case Category(_, name) => earlier.Category? && earlier.name == name
    case Top(_, i) => !earlier.Category? && earlier.i == i
    case Child(_, i, j) => earlier.Child? && earlier.i == i && earlier.j == j
    case FirstArg(i, arg) => earlier.FirstArg? && earlier == newer
  }

  function Uncovered(rules: seq<Rule>, r: Rule): seq<Rule> {
    if |rules| == 0 then []
    else Uncovered(rules[..|rules| - 1], r) + if Covers(r, rules[|rules| - 1]) then [] else [rules[|rules| - 1]]
  }

  /** The retained rules after a new one. */
  function Retain(rules: seq<Rule>, r: Rule): seq<Rule> {
    Uncovered(rules, r) + [r]
  }

  /** Two cells that an action makes equal. */
  predicate Alike(a: Action, x: Cell, y: Cell) {
    Do(a, x) == Do(a, y)
  }

  lemma AlikeKept(a: Action, b: Action, x: Cell, y: Cell)
    requires Alike(a, x, y)
    ensures Alike(a, Do(b, x), Do(b, y))
  {
    if a.Add? && b.Add? {
      assert x.args + {b.arg} + {a.arg} == x.args + {a.arg} + {b.arg};
      assert y.args + {b.arg} + {a.arg} == y.args + {a.arg} + {b.arg};
    }
  }

  /** Whatever a covered rule did to a command, the new rule does over. */
  lemma CoveredIsUndone(t: Table, r: Rule, earlier: Rule, o: Owner, x: Cell)
    requires Covers(r, earlier) && (o.IsSub? ==> x.args == {})
    ensures Alike(ActionOn(t, r, o), Do(ActionOn(t, earlier, o), x), x)
  {
  }

  /** First arguments are kept for commands without subcommands only. */
  ghost predicate SubsHaveNoArgs(t: Table, p: Permissions) {
    forall id: Id | OwnerOf(t, id).IsSub? :: p[id].args == {}
  }

  lemma {:induction false} ReplayKeepsSubs(t: Table, rules: seq<Rule>, p: Permissions)
    requires SubsHaveNoArgs(t, p)
    ensures SubsHaveNoArgs(t, Replay(t, rules, p))
  {
    if |rules| > 0 { ReplayKeepsSubs(t, rules[..|rules| - 1], p); }
  }

  /** Dropping the covered rules makes no difference once the new rule has run. */
  lemma {:induction false} UncoveredSuffice(t: Table, rules: seq<Rule>, r: Rule, p: Permissions, id: Id)
    requires SubsHaveNoArgs(t, p)
    ensures Alike(ActionOn(t, r, OwnerOf(t, id)), Replay(t, rules, p)[id], Replay(t, Uncovered(rules, r), p)[id])
  {
    hide ActionOn, Do, OwnerOf;
    if |rules| > 0 {
      var front, last, o := rules[..|rules| - 1], rules[|rules| - 1], OwnerOf(t, id);
      var x, y := Replay(t, front, p)[id], Replay(t, Uncovered(front, r), p)[id];
      UncoveredSuffice(t, front, r, p, id);
      if Covers(r, last) {
        assert Uncovered(rules, r) == Uncovered(front, r);
        ReplayKeepsSubs(t, front, p);
        CoveredIsUndone(t, r, last, o, x);
      } else {
        ReplayLast(t, Uncovered(front, r), last, p);
        AlikeKept(ActionOn(t, r, o), ActionOn(t, last, o), x, y);
      }
    }
  }

  lemma ReplayLast(t: Table, rules: seq<Rule>, r: Rule, p: Permissions)
    ensures Replay(t, rules + [r], p) == Effect(t, r, Replay(t, rules, p))
  {
    assert (rules + [r])[..|rules|] == rules;
  }

  /** Replaying the retained rules has the effect of all rules ever given. */
  lemma RetainedRulesSuffice(t: Table, rules: seq<Rule>, r: Rule, p: Permissions)
    requires SubsHaveNoArgs(t, p)
    ensures Replay(t, Retain(rules, r), p) == Effect(t, r, Replay(t, rules, p))
  {
    hide ActionOn, Replay, OwnerOf, Uncovered;
    ReplayLast(t, Uncovered(rules, r), r, p);
    forall id: Id ensures Replay(t, Retain(rules, r), p)[id] == Effect(t, r, Replay(t, rules, p))[id] {
      UncoveredSuffice(t, rules, r, p, id);
    }
  }

  // ---- A selector over any sequence of rules ------------------------------------------------------

  /** The command part of a selector. */
  datatype Selector = Selector(cells: Permissions, allCommands: bool, rules: seq<Rule>)

  /** An accepted rule: +@all and -@all start over, any other is applied and retained. */
  datatype Op = All(on: bool) | One(rule: Rule)

  function NewSelector(): Selector {
    Selector(Base(false), false, [])
  }

  /** A rule that takes some bit away ends "all commands". */
  predicate ClearsABit(t: Table, r: Rule) {
    exists id: Id :: ActionOn(t, r, OwnerOf(t, id)) in {Set(false), Bit(false)}
  }

  function SetRule(t: Table, s: Selector, op: Op): Selector {
    match op
    case All(on) => Selector(Base(on), on, [])
    case One(r) => Selector(Effect(t, r, s.cells), s.allCommands && !ClearsABit(t, r), Retain(s.rules, r))
  }

  function SetRules(t: Table, ops: seq<Op>): Selector {
    if |ops| == 0 then NewSelector() else SetRule(t, SetRules(t, ops[..|ops| - 1]), ops[|ops| - 1])
  }

  /** Whether the user may run commands loaded later: the reserved bit. */
  predicate FutureCommands(s: Selector) {
    s.cells[RESERVED].bit
  }

  /** What describing or reloading a selector rebuilds. */
  function Rebuilt(t: Table, s: Selector): Permissions {
    Replay(t, s.rules, Base(FutureCommands(s)))
  }

  ghost predicate Exact(t: Table, s: Selector) {
    && Rebuilt(t, s) == s.cells
    && (s.allCommands ==> forall id: Id :: s.cells[id].bit)
  }

  lemma BaseHasNoArgs(t: Table, on: bool)
    ensures SubsHaveNoArgs(t, Base(on))
  {
  }

  lemma StepKeepsExact(t: Table, s: Selector, op: Op)
    requires ValidTable(t) && Exact(t, s)
    ensures Exact(t, SetRule(t, s, op))
  {
    hide ActionOn, Replay, Uncovered;
    match op {
      case All(on) =>
        assert Replay(t, [], Base(on)) == Base(on) by { ReplayNone(t, Base(on)); }
      case One(r) =>
        var next := SetRule(t, s, op);
        OwnerIs(t, RESERVED, NoCommand);
        assert ActionOn(t, r, NoCommand) == Keep by { KeepsReserved(t, r); }
        BaseHasNoArgs(t, FutureCommands(s));
        RetainedRulesSuffice(t, s.rules, r, Base(FutureCommands(s)));
        forall id: Id | next.allCommands ensures next.cells[id].bit {
          assert ActionOn(t, r, OwnerOf(t, id)) !in {Set(false), Bit(false)};
        }
    }
  }

  lemma ReplayNone(t: Table, p: Permissions)
    ensures Replay(t, [], p) == p
  {
  }

  lemma KeepsReserved(t: Table, r: Rule)
    ensures ActionOn(t, r, NoCommand) == Keep
  {
  }

  /**
   * After any sequence of accepted rules, replaying the retained ones from +@all or
   * -@all rebuilds every bit and every first-argument set, and ALLCOMMANDS means
   * that all bits are set.
   */
  lemma {:induction false} ReplayIsExact(t: Table, ops: seq<Op>)
    requires ValidTable(t)
    ensures Exact(t, SetRules(t, ops))
  {
    hide Replay;
    if |ops| == 0 {
      ReplayNone(t, Base(false));
    } else {
      ReplayIsExact(t, ops[..|ops| - 1]);
      StepKeepsExact(t, SetRules(t, ops[..|ops| - 1]), ops[|ops| - 1]);
    }
  }
}

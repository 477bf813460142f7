/**
 * Transactions in the append-only log (src/aof.c:1551-1620): wherever a log is cut,
 * they load all or nothing, and exactly which cuts leave the start of one behind.
 */
module AofTransactions {
  import opened AofBuffer
  import opened AofLoader

  // ---- Transactions as units -------------------------------------------------------------------------

  /** What a log consists of: single commands, and commands between MULTI and EXEC in any case. */
  datatype Unit = Single(cmd: Command) | Transaction(multi: Command, cmds: seq<Command>, exec: Command)

  function Wrapped(u: Unit): seq<Command> {
    match u
    case Single(cmd) => [cmd]
    case Transaction(multi, cmds, exec) => [multi] + cmds + [exec]
  }

  function Inner(u: Unit): seq<Command> {
    match u
    case Single(cmd) => [cmd]
    case Transaction(_, cmds, _) => cmds
  }

  function LogOf(units: seq<Unit>): seq<Command> {
    if |units| == 0 then [] else Wrapped(units[0]) + LogOf(units[1..])
  }

  function Contents(units: seq<Unit>): seq<Command> {
    if |units| == 0 then [] else Inner(units[0]) + Contents(units[1..])
  }

  /** A transaction starts and ends as it should and holds nothing but plain commands. */
  ghost predicate ProperUnit(u: Unit) {
    AllPlain(Inner(u)) && (u.Transaction? ==> IsMulti(u.multi) && IsExec(u.exec))
  }

  ghost predicate Proper(units: seq<Unit>) {
    forall i: nat | i < |units| :: ProperUnit(units[i])
  }

  /** How many units the first `k` commands complete. */
  function WholeUnits(units: seq<Unit>, k: nat): (n: nat)
    ensures n <= |units|
  {
    if |units| == 0 || |Wrapped(units[0])| > k then 0 else 1 + WholeUnits(units[1..], k - |Wrapped(units[0])|)
  }

  lemma {:induction false} RunsConcat(st: Client, a: seq<Command>, b: seq<Command>)
    ensures RunsAll(st, a + b) == RunsAll(st, a) + RunsAll(AfterAll(st, a, 0), b)
    decreases |a|
  {
    hide EncodeCommand, After, Runs;
    if |a| == 0 {
      assert a + b == b;
    } else {
      var next := After(st, a[0], 0);
      RunsConcat(next, a[1..], b);
      assert (a + b)[1..] == a[1..] + b;
      AfterIgnoresOffsets(next, a[1..], 0, 0 + |EncodeCommand(a[0])|);
      RunsIgnoreOffsets(AfterAll(next, a[1..], 0), AfterAll(st, a, 0), b);
    }
  }

  lemma {:induction false} AfterIgnoresOffsets(st: Client, cmds: seq<Command>, p: nat, q: nat)
    ensures AfterAll(st, cmds, p).Inside? == AfterAll(st, cmds, q).Inside?
    ensures AfterAll(st, cmds, p).Inside? ==> AfterAll(st, cmds, p).queue == AfterAll(st, cmds, q).queue
    decreases |cmds|
  {
    AfterAlike(st, st, cmds, p, q);
  }

  lemma {:induction false} AfterAlike(st: Client, other: Client, cmds: seq<Command>, p: nat, q: nat)
    requires st.Inside? == other.Inside? && (st.Inside? ==> st.queue == other.queue)
    ensures AfterAll(st, cmds, p).Inside? == AfterAll(other, cmds, q).Inside?
    ensures AfterAll(st, cmds, p).Inside? ==> AfterAll(st, cmds, p).queue == AfterAll(other, cmds, q).queue
    decreases |cmds|
  {
    hide EncodeCommand;
    if |cmds| > 0 {
      var n := |EncodeCommand(cmds[0])|;
      AfterAlike(After(st, cmds[0], p), After(other, cmds[0], q), cmds[1..], p + n, q + n);
    }
  }

  /** Inside a transaction nothing runs and everything is queued. */
  lemma {:induction false} Queues(queue: seq<Command>, before: nat, cmds: seq<Command>, pos: nat)
    requires AllPlain(cmds)
    ensures RunsAll(Inside(queue, before), cmds) == []
    ensures AfterAll(Inside(queue, before), cmds, pos) == Inside(queue + cmds, before)
    decreases |cmds|
  {
    hide EncodeCommand;
    if |cmds| > 0 {
      Queues(queue + [cmds[0]], before, cmds[1..], pos + |EncodeCommand(cmds[0])|);
      RunsIgnoreOffsets(After(Inside(queue, before), cmds[0], 0), Inside(queue + [cmds[0]], before), cmds[1..]);
      assert queue + [cmds[0]] + cmds[1..] == queue + cmds;
    } else {
      assert queue + cmds == queue;
    }
  }

  lemma BeginTransaction(multi: Command, body: seq<Command>, pos: nat)
    requires IsMulti(multi)
    ensures RunsAll(Outside, [multi] + body) == RunsAll(Inside([], 0), body)
    ensures AfterAll(Outside, [multi] + body, pos) == AfterAll(Inside([], pos), body, pos + |EncodeCommand(multi)|)
  {
    hide EncodeCommand, IsMulti, IsExec;
    assert ([multi] + body)[1..] == body;
  }

  lemma EndTransaction(queue: seq<Command>, before: nat, exec: Command, pos: nat)
    requires IsExec(exec)
    ensures RunsAll(Inside(queue, before), [exec]) == queue && AfterAll(Inside(queue, before), [exec], pos) == Outside
  {
    hide IsMulti, IsExec;
    assert [exec][1..] == [];
  }

  lemma OneTransaction(multi: Command, cmds: seq<Command>, exec: Command, pos: nat)
    requires AllPlain(cmds) && IsMulti(multi) && IsExec(exec)
    ensures RunsAll(Outside, [multi] + cmds + [exec]) == cmds
    ensures AfterAll(Outside, [multi] + cmds + [exec], pos) == Outside
  {
    hide EncodeCommand, RunsAll, AfterAll, Encode, IsMulti, IsExec, AllPlain;
    assert [multi] + cmds + [exec] == [multi] + (cmds + [exec]);
    var n := pos + |EncodeCommand(multi)|;
    BeginTransaction(multi, cmds + [exec], pos);
    Queues([], 0, cmds, 0);
    Queues([], pos, cmds, n);
    RunsConcat(Inside([], 0), cmds, [exec]);
    AfterConcat(Inside([], pos), cmds, [exec], n);
    EndTransaction(cmds, 0, exec, 0);
    EndTransaction(cmds, pos, exec, n + |Encode(cmds)|);
    assert [] + cmds == cmds;
  }

  lemma OneUnit(u: Unit, pos: nat)
    requires ProperUnit(u)
    ensures RunsAll(Outside, Wrapped(u)) == Inner(u) && AfterAll(Outside, Wrapped(u), pos) == Outside
  {
    hide RunsAll, AfterAll, AllPlain;
    match u {
      case Single(cmd) => PlainRuns(Inner(u), pos);
      case Transaction(multi, cmds, exec) => OneTransaction(multi, cmds, exec, pos);
    }
  }

  lemma {:induction false} AfterConcat(st: Client, a: seq<Command>, b: seq<Command>, pos: nat)
    ensures AfterAll(st, a + b, pos) == AfterAll(AfterAll(st, a, pos), b, pos + |Encode(a)|)
    decreases |a|
  {
    hide EncodeCommand, After;
    if |a| == 0 {
      assert a + b == b;
    } else {
      AfterConcat(After(st, a[0], pos), a[1..], b, pos + |EncodeCommand(a[0])|);
      assert (a + b)[1..] == a[1..] + b;
    }
  }

  /** A transaction that is not complete has run nothing and remembers where it began. */
  lemma PartOfUnit(u: Unit, k: nat, pos: nat)
    requires ProperUnit(u) && 0 < k < |Wrapped(u)|
    ensures RunsAll(Outside, Wrapped(u)[..k]) == []
    ensures AfterAll(Outside, Wrapped(u)[..k], pos) == Inside(Wrapped(u)[1..k], pos)
  {
    hide EncodeCommand, RunsAll, AfterAll;
    assert u.Transaction? && Inner(u) == u.cmds;
    var part := u.cmds[..k - 1];
    assert forall j: nat | j < |part| :: part[j] == Inner(u)[j];
    assert Wrapped(u)[..k] == [u.multi] + part && Wrapped(u)[1..k] == part && [] + part == part;
    BeginTransaction(u.multi, part, pos);
    Queues([], 0, part, 0);
    Queues([], pos, part, pos + |EncodeCommand(u.multi)|);
  }

  lemma LogFirst(units: seq<Unit>, k: nat)
    requires |units| > 0 && |Wrapped(units[0])| <= k <= |LogOf(units)|
    ensures LogOf(units)[..k] == Wrapped(units[0]) + LogOf(units[1..])[..k - |Wrapped(units[0])|]
  {
    hide Wrapped;
  }

  lemma {:induction false} EncodeConcat(a: seq<Command>, b: seq<Command>)
    ensures Encode(a + b) == Encode(a) + Encode(b)
  {
    hide EncodeCommand;
    if |a| == 0 {
      assert a + b == b;
    } else {
      EncodeConcat(a[1..], b);
      assert (a + b)[1..] == a[1..] + b;
    }
  }

  /** The client after the first `k` commands of a log, and what it ran. */
  lemma {:induction false} UnitsSoFar(units: seq<Unit>, k: nat, pos: nat)
    requires Proper(units) && k <= |LogOf(units)|
    ensures var n := WholeUnits(units, k);
            var done := LogOf(units[..n]);
            && |done| <= k && LogOf(units)[..|done|] == done
            && RunsAll(Outside, LogOf(units)[..k]) == Contents(units[..n])
            && var end := AfterAll(Outside, LogOf(units)[..k], pos);
               if |done| == k then end.Outside? else end.Inside? && end.before == pos + |Encode(done)|
    decreases |units|
  {
    hide Wrapped, Inner, EncodeCommand, Encode, ProperUnit;
    var n := WholeUnits(units, k);
    if |units| == 0 || |Wrapped(units[0])| > k {
      assert units[..0] == [] && LogOf(units)[..0] == [];
      NoBytes();
      if k > 0 {
        assert LogOf(units)[..k] == Wrapped(units[0])[..k];
        PartOfUnit(units[0], k, pos);
      }
    } else {
      var w, rest := Wrapped(units[0]), units[1..];
      assert Proper(rest) by { assert forall i: nat | i < |rest| :: rest[i] == units[i + 1]; }
      UnitsSoFar(rest, k - |w|, pos + |Encode(w)|);
      LogFirst(units, k);
      UnitThen(units[0], LogOf(rest)[..k - |w|], pos);
      var done := LogOf(rest[..n - 1]);
      assert units[..n][1..] == rest[..n - 1];
      assert LogOf(units[..n]) == w + done && Contents(units[..n]) == Inner(units[0]) + Contents(rest[..n - 1]);
      EncodeConcat(w, done);
      LogFirst(units, |w| + |done|);
    }
  }

  /** A whole unit runs its contents and leaves the client outside. */
  lemma UnitThen(u: Unit, more: seq<Command>, pos: nat)
    requires ProperUnit(u)
    ensures RunsAll(Outside, Wrapped(u) + more) == Inner(u) + RunsAll(Outside, more)
    ensures AfterAll(Outside, Wrapped(u) + more, pos) == AfterAll(Outside, more, pos + |Encode(Wrapped(u))|)
  {
    hide Wrapped, Inner, Encode, RunsAll, AfterAll, ProperUnit;
    OneUnit(u, 0);
    OneUnit(u, pos);
    RunsConcat(Outside, Wrapped(u), more);
    AfterConcat(Outside, Wrapped(u), more, pos);
  }

  lemma NoBytes()
    ensures Encode([]) == []
  {
  }

  // ---- What a cut log does -----------------------------------------------------------------------------

  /** Transactions load all or nothing, wherever the log is cut. */
  lemma TransactionsAreAllOrNothing(units: seq<Unit>, n: nat)
    requires Proper(units) && AllFit(LogOf(units)) && n <= |Encode(LogOf(units))|
    ensures LoadFile(Encode(LogOf(units))[..n]).ran == Contents(units[..WholeUnits(units, Complete(LogOf(units), n))])
  {
    hide LoadFrom, RunsAll, AfterAll;
    var log, s := LogOf(units), Encode(LogOf(units))[..n];
    LoadsPrefix(log, s, 0, Outside);
    UnitsSoFar(units, Complete(log, n), 0);
    if n == 0 {
      EncodedNotEmpty(log);
      NothingRuns(log);
    }
  }

  /** Commands other than MULTI and EXEC, in order. */
  function PlainOf(cmds: seq<Command>): seq<Command> {
    if |cmds| == 0 then [] else (if Plain(cmds[0]) then [cmds[0]] else []) + PlainOf(cmds[1..])
  }

  lemma {:induction false} PlainOfConcat(a: seq<Command>, b: seq<Command>)
    ensures PlainOf(a + b) == PlainOf(a) + PlainOf(b)
  {
    hide Plain;
    if |a| == 0 {
      assert a + b == b;
    } else {
      PlainOfConcat(a[1..], b);
      assert (a + b)[1..] == a[1..] + b;
    }
  }

  lemma {:induction false} PlainOfPlain(cmds: seq<Command>)
    requires AllPlain(cmds)
    ensures PlainOf(cmds) == cmds
  {
    hide Plain;
    if |cmds| > 0 {
      PlainOfPlain(cmds[1..]);
      assert [cmds[0]] + cmds[1..] == cmds;
    }
  }

  lemma InnerIsPlain(u: Unit)
    requires ProperUnit(u)
    ensures PlainOf(Wrapped(u)) == Inner(u)
  {
    PlainOfPlain(Inner(u));
    if u.Transaction? {
      PlainOfConcat([u.multi], u.cmds);
      PlainOfConcat([u.multi] + u.cmds, [u.exec]);
      assert PlainOf([u.multi]) == [] && PlainOf([u.exec]) == [];
    }
  }

  /** The contents of a log are its commands without the markers. */
  lemma {:induction false} ContentsArePlain(units: seq<Unit>)
    requires Proper(units)
    ensures Contents(units) == PlainOf(LogOf(units))
  {
    hide ProperUnit, Inner, Wrapped, PlainOf;
    if |units| > 0 {
      assert Proper(units[1..]) by { assert forall i: nat | i < |units| - 1 :: units[1..][i] == units[i + 1]; }
      ContentsArePlain(units[1..]);
      InnerIsPlain(units[0]);
      PlainOfConcat(Wrapped(units[0]), LogOf(units[1..]));
    } else {
      NonePlain();
    }
  }

  lemma NonePlain()
    ensures PlainOf([]) == []
  {
  }

  lemma {:induction false} AllUnits(units: seq<Unit>)
    ensures WholeUnits(units, |LogOf(units)|) == |units|
  {
    hide Wrapped;
    if |units| > 0 { AllUnits(units[1..]); }
  }

  /** In terms of the log: what runs is a prefix of it without the markers. */
  lemma RunsPlainPrefix(units: seq<Unit>, n: nat) returns (done: nat)
    requires Proper(units) && AllFit(LogOf(units)) && n <= |Encode(LogOf(units))|
    ensures done == |LogOf(units[..WholeUnits(units, Complete(LogOf(units), n))])| <= |LogOf(units)|
    ensures n == |Encode(LogOf(units))| ==> done == |LogOf(units)|
    ensures LoadFile(Encode(LogOf(units))[..n]).ran == PlainOf(LogOf(units)[..done])
  {
    hide LoadFile, Encode, WholeUnits, RunsAll, AfterAll, Contents, LogOf, PlainOf, Complete, Fits, ProperUnit;
    var log := LogOf(units);
    var whole := units[..WholeUnits(units, Complete(log, n))];
    TransactionsAreAllOrNothing(units, n);
    UnitsSoFar(units, Complete(log, n), 0);
    done := |LogOf(whole)|;
    ContentsArePlain(whole);
    if n == |Encode(log)| {
      CompleteAll(log);
      AllUnits(units);
      assert whole == units;
    }
  }

  lemma NothingRuns(log: seq<Command>)
    ensures RunsAll(Outside, log[..0]) == []
  {
  }

  /**
   * The file is cut where the unfinished unit began exactly when the log ended
   * between two commands or before the unit's first command was complete.
   * Otherwise the cut leaves the start of a transaction behind.
   */
  lemma WhereTheCutGoes(units: seq<Unit>, n: nat)
    requires Proper(units) && AllFit(LogOf(units)) && n <= |Encode(LogOf(units))|
    ensures var log := LogOf(units);
            var k := Complete(log, n);
            var done := LogOf(units[..WholeUnits(units, k)]);
            && |done| <= k
            && (LoadFile(Encode(log)[..n]).size == |Encode(done)| <==> n == |Encode(log[..k])| || k == |done|)
            && (n != |Encode(log[..k])| ==> LoadFile(Encode(log)[..n]).size == |Encode(log[..k])|)
  {
    hide LoadFrom, RunsAll, AfterAll, WholeUnits, Contents, LogOf;
    var log, s := LogOf(units), Encode(LogOf(units))[..n];
    var k := Complete(log, n);
    LoadsPrefix(log, s, 0, Outside);
    UnitsSoFar(units, k, 0);
    var done := LogOf(units[..WholeUnits(units, k)]);
    LongerLog(log, |done|, k);
    assert |done| == k ==> log[..k] == done;
    if n == 0 { EncodedNotEmpty(log); }
  }

  lemma LongerLog(log: seq<Command>, i: nat, k: nat)
    requires i <= k <= |log|
    ensures i < k ==> |Encode(log[..i])| < |Encode(log[..k])|
  {
    hide EncodeCommand;
    var more := log[i..k];
    assert log[..k] == log[..i] + more;
    EncodeConcat(log[..i], more);
    if i < k { StartsWithStar(more); }
  }

  /** The position of the first EXEC, or the length. */
  function FirstExec(cmds: seq<Command>): (k: nat)
    ensures k <= |cmds| && (k < |cmds| ==> IsExec(cmds[k])) && forall i: nat | i < k :: !IsExec(cmds[i])
  {
    if |cmds| == 0 || IsExec(cmds[0]) then 0 else 1 + FirstExec(cmds[1..])
  }

  /** What an open transaction makes of the commands that follow. */
  function RunsInside(queue: seq<Command>, cmds: seq<Command>): seq<Command> {
    var k := FirstExec(cmds);
    if k == |cmds| then [] else queue + cmds[..k] + RunsAll(Outside, cmds[k + 1..])
  }

  /** A command that is no EXEC joins the queue. */
  lemma QueuesFirst(queue: seq<Command>, cmds: seq<Command>)
    requires |cmds| > 0 && !IsExec(cmds[0])
    ensures RunsInside(queue, cmds) == RunsInside(queue + [cmds[0]], cmds[1..])
  {
    hide IsExec, RunsAll;
    var k := FirstExec(cmds[1..]);
    assert FirstExec(cmds) == k + 1;
    if k < |cmds| - 1 {
      assert queue + [cmds[0]] + cmds[1..][..k] == queue + cmds[..k + 1];
      assert cmds[1..][k + 1..] == cmds[k + 2..];
    }
  }

  lemma ExecFirst(queue: seq<Command>, cmds: seq<Command>)
    requires |cmds| > 0 && IsExec(cmds[0])
    ensures RunsInside(queue, cmds) == queue + RunsAll(Outside, cmds[1..])
  {
    hide IsExec, RunsAll;
    assert FirstExec(cmds) == 0 && queue + cmds[..0] == queue;
  }

  lemma {:induction false} InsideRuns(queue: seq<Command>, before: nat, cmds: seq<Command>)
    ensures RunsAll(Inside(queue, before), cmds) == RunsInside(queue, cmds)
    decreases |cmds|
  {
    if |cmds| > 0 {
      hide IsExec, IsMulti, RunsInside;
      if IsExec(cmds[0]) {
        ExecFirst(queue, cmds);
      } else {
        QueuesFirst(queue, cmds);
        InsideRuns(queue + [cmds[0]], After(Inside(queue, before), cmds[0], 0).before, cmds[1..]);
      }
    }
  }

  /**
   * What is appended after such a cut counts as part of the unfinished transaction
   * when the log is loaded again. Without an EXEC none of it runs. With one, the
   * commands left behind by the cut run, then what was appended up to the EXEC.
   */
  lemma AppendedAfterBadCut(kept: seq<Command>, more: seq<Command>)
    requires AllFit(kept + more) && |kept| > 0 && AfterAll(Outside, kept, 0).Inside?
    ensures LoadFile(Encode(kept + more)).ran
            == LoadFile(Encode(kept)).ran + RunsInside(AfterAll(Outside, kept, 0).queue, more)
    ensures LoadFile(Encode(kept + more)).ran == LoadFile(Encode(kept)).ran
            <==> var k := FirstExec(more);
                 k == |more| || (AfterAll(Outside, kept, 0).queue == [] && k == 0 && RunsAll(Outside, more[1..]) == [])
  {
    hide LoadFrom, RunsAll, AfterAll, EncodeCommand, Fits;
    var all := kept + more;
    StartsWithStar(all);
    StartsWithStar(kept);
    assert AllFit(kept) by { assert forall i: nat | i < |kept| :: kept[i] == all[i]; }
    CompleteAll(all);
    CompleteAll(kept);
    LoadsPrefix(all, Encode(all), 0, Outside);
    LoadsPrefix(kept, Encode(kept), 0, Outside);
    assert all[..|all|] == all && kept[..|kept|] == kept;
    RunsConcat(Outside, kept, more);
    var st := AfterAll(Outside, kept, 0);
    InsideRuns(st.queue, st.before, more);
    SameOrMore(RunsAll(Outside, kept), RunsInside(st.queue, more));
  }

  lemma SameOrMore(a: seq<Command>, b: seq<Command>)
    ensures a + b == a <==> b == []
  {
    if b == [] { assert a + b == a; } else { assert |a + b| > |a|; }
  }

  /** The smallest such cut: one byte into the first queued command. */
  lemma BadCutExample(multi: Command, c: Command, exec: Command)
    requires IsMulti(multi) && Plain(c) && IsExec(exec) && Fits(multi) && Fits(c) && Fits(exec)
    ensures var bytes, n := Encode(LogOf([Transaction(multi, [c], exec)])), |Encode([multi])|;
            n + 1 <= |bytes| && LoadFile(bytes[..n + 1]).ran == [] && LoadFile(bytes[..n + 1]).size == n > 0
  {
    hide EncodeCommand, LoadFrom, RunsAll, AfterAll, IsMulti, IsExec, Fits;
    var u, log, n := Transaction(multi, [c], exec), [multi, c, exec], |Encode([multi])| + 1;
    assert LogOf([u]) == log;
    StartsWithStar([multi]);
    assert log == [multi] + [c, exec] && [c, exec] == [c] + [exec];
    EncodeConcat([multi], [c, exec]);
    EncodeConcat([c], [exec]);
    EncodeOne(multi);
    EncodeOne(c);
    assert log[1..] == [c, exec] && log[..1] == [multi];
    LongEnough(c);
    assert Complete([c, exec], 1) == 0;
    assert Complete(log, n) == 1;
    LoadsPrefix(log, Encode(log)[..n], 0, Outside);
    assert RunsAll(Outside, [multi]) == [] by { PartOfUnit(u, 1, 0); assert Wrapped(u)[..1] == [multi]; }
  }

  lemma EncodeOne(c: Command)
    ensures Encode([c]) == EncodeCommand(c)
  {
    assert [c][1..] == [];
  }

  lemma LongEnough(c: Command)
    ensures |EncodeCommand(c)| > 1
  {
    hide Dec, EncodeArguments;
  }
}

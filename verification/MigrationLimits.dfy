/**
 * The limits of the promises in `MigrationRuns`: exactly which snapshots keep the
 * stream in order and the takeover lossless, what a lapsed pause costs, and runs
 * that show the theorems speak of something.
 */
module MigrationLimits {
  import opened Migration
  import opened MigrationRuns
  import opened MigrationEmpty

  // ---- Before the snapshot --------------------------------------------------------------------

  ghost predicate Greetings(l: seq<ToTarget>) {
    forall i: nat | i < |l| :: l[i].Establish? || l[i].Ack?
  }

  ghost predicate HasAck(l: seq<ToTarget>) {
    exists i: nat | i < |l| :: l[i].Ack?
  }

  ghost predicate Replies(l: seq<ToSource>) {
    forall i: nat | i < |l| :: l[i].Established? || l[i].Refused? || l[i].AckBack?
  }

  ghost predicate HasEstablished(l: seq<ToSource>) {
    exists i: nat | i < |l| :: l[i].Established?
  }

  /**
   * Until the fork the nodes exchange greetings only, the source takes writes, and an
   * import that waits for its first ACK will get one.
   */
  ghost predicate Handshake(s: System) {
    Early(s.src.state) ==>
      && s.src.Admits() && Greetings(s.toTarget) && Greetings(s.src.out) && Replies(s.toSource)
      && !s.tgt.state.WaitingForPaused? && !s.tgt.state.FailoverRequested? && !s.tgt.state.ImportGranted?
      && (HasEstablished(s.toSource) || s.src.state.WaitingToSnapshot? ==> !s.tgt.state.NoJob?)
      && (s.src.state.WaitingToSnapshot? && s.tgt.state.WaitAck? ==> HasAck(s.toTarget) || HasAck(s.src.out))
  }

  lemma GreetingsIn(a: seq<ToTarget>, b: seq<ToTarget>)
    ensures Greetings(a + b) <==> Greetings(a) && Greetings(b)
    ensures HasAck(a + b) <==> HasAck(a) || HasAck(b)
  {
    if i: nat :| i < |a| && a[i].Ack? { assert (a + b)[i] == a[i]; }
    if i: nat :| i < |b| && b[i].Ack? { assert (a + b)[|a| + i] == b[i]; }
    if Greetings(a + b) {
      forall i: nat | i < |b| ensures b[i].Establish? || b[i].Ack? { assert (a + b)[|a| + i] == b[i]; }
      forall i: nat | i < |a| ensures a[i].Establish? || a[i].Ack? { assert (a + b)[i] == a[i]; }
    }
  }

  lemma GreetingOf(m: ToTarget)
    ensures Greetings([m]) <==> m.Establish? || m.Ack?
    ensures HasAck([m]) <==> m.Ack?
  {
    assert [m][0] == m;
  }

  lemma RepliesIn(a: seq<ToSource>, b: seq<ToSource>)
    ensures Replies(a + b) <==> Replies(a) && Replies(b)
    ensures HasEstablished(a + b) <==> HasEstablished(a) || HasEstablished(b)
  {
    if i: nat :| i < |a| && a[i].Established? { assert (a + b)[i] == a[i]; }
    if i: nat :| i < |b| && b[i].Established? { assert (a + b)[|a| + i] == b[i]; }
    if Replies(a + b) {
      forall i: nat | i < |b| ensures b[i].Established? || b[i].Refused? || b[i].AckBack? { assert (a + b)[|a| + i] == b[i]; }
      forall i: nat | i < |a| ensures a[i].Established? || a[i].Refused? || a[i].AckBack? { assert (a + b)[i] == a[i]; }
    }
  }

  /** A source step that keeps the job before its snapshot sends at most a greeting. */
  ghost predicate EarlyMove(a: Source, b: Source, established: bool) {
    Early(b.state) ==>
      && Early(a.state) && b.owns == a.owns && b.pause.on == a.pause.on
      && (b.out == a.out || b.out == a.out + [Establish] || b.out == a.out + [Ack])
      && (b.state.WaitingToSnapshot? && !a.state.WaitingToSnapshot? ==> established && b.out == a.out + [Ack])
  }

  lemma EarlyMoveKeeps(s: System, base: System, b: Source, established: bool)
    requires Handshake(s) && EarlyMove(s.src, b, established)
    requires base == s || (s.toSource != [] && base == s.(toSource := s.toSource[1..]))
    requires established ==> s.toSource != [] && s.toSource[0].Established?
    ensures Handshake(Advance(base, b))
  {
    hide Greetings, HasAck, Replies, HasEstablished;
    if Early(b.state) {
      GreetingsIn(s.src.out, [Establish]);
      GreetingsIn(s.src.out, [Ack]);
      GreetingOf(Establish);
      GreetingOf(Ack);
      if s.toSource != [] {
        assert s.toSource == [s.toSource[0]] + s.toSource[1..];
        RepliesIn([s.toSource[0]], s.toSource[1..]);
        if established { assert HasEstablished([s.toSource[0]]) by { First(s.toSource[0]); } }
      }
    }
  }

  lemma First(m: ToSource)
    ensures HasEstablished([m]) <==> m.Established?
    ensures Replies([m]) <==> m.Established? || m.Refused? || m.AckBack?
  {
    assert [m][0] == m;
  }

  lemma EarlyCron(a: Source, e: Event, now: nat)
    requires e.SourceCron? && (Early(a.state) ==> !a.pause.on)
    ensures EarlyMove(a, a.Proceed(now, e.timeout, e.refuse, e.busy, e.forkFails, e.order), false)
  {
  }

  lemma EarlyReceive(a: Source, m: ToSource, now: nat, timeout: nat, refuse: bool)
    ensures EarlyMove(a, a.Receive(m, now, timeout, refuse), m.Established?)
  {
  }

  lemma EarlyOthers(a: Source, now: nat, ok: bool, effect: Effect)
    requires Early(a.state) ==> !a.pause.on
    ensures EarlyMove(a, a.(pause := a.pause.Update(now)), false) && EarlyMove(a, a.CronAck(), false)
    ensures EarlyMove(a, a.ChildDone(ok), false) && EarlyMove(a, a.ClientWrite(effect), false)
  {
  }

  lemma EarlyEnds(a: Source, target: bool)
    ensures EarlyMove(a, a.Finish(ExportCancelled), false) && EarlyMove(a, a.ConnectionLost(), false)
    ensures EarlyMove(a, a.OwnershipChange(target), false)
  {
  }

  lemma FlushHandshake(s: System, n: nat)
    requires Handshake(s)
    ensures Handshake(Step(s, SourceFlush(n)))
  {
    hide Greetings, HasAck, Replies, HasEstablished;
    if n <= |s.src.out| {
      assert s.src.out == s.src.out[..n] + s.src.out[n..];
      GreetingsIn(s.src.out[..n], s.src.out[n..]);
      GreetingsIn(s.toTarget, s.src.out[..n]);
    }
  }

  lemma TargetHandshake(s: System, e: Event)
    requires Handshake(s) && (e.TargetReceive? || e.TargetProceed? || e.TargetAck? || e.TargetFails? || e.TargetConnectionLost? || e.Tick?)
    ensures Handshake(Step(s, e))
  {
    hide Greetings, HasAck, Replies, HasEstablished;
    RepliesIn(s.toSource, [AckBack]);
    RepliesIn(s.toSource, [Established]);
    RepliesIn(s.toSource, [Refused]);
    assert s.toSource + [] == s.toSource;
    First(AckBack);
    First(Established);
    First(Refused);
    if s.toTarget != [] {
      assert s.toTarget == [s.toTarget[0]] + s.toTarget[1..];
      GreetingsIn([s.toTarget[0]], s.toTarget[1..]);
      GreetingOf(s.toTarget[0]);
    }
  }

  /** The handshake is about states, channels and the buffer. */
  lemma SameHandshake(s: System, t: System)
    requires Handshake(s) && t.tgt == s.tgt && t.toTarget == s.toTarget && t.toSource == s.toSource
    requires Early(t.src.state) ==> t.src == s.src
    ensures Handshake(t)
  {
  }

  lemma CronHandshake(s: System, e: Event)
    requires Handshake(s) && e.SourceCron? && (Early(s.src.state) ==> !s.src.pause.on)
    ensures Handshake(Step(s, e))
  {
    hide Handshake, EarlyMove, Advance, Source.Proceed, Walks;
    var b := s.src.Proceed(s.now, e.timeout, e.refuse, e.busy, e.forkFails, e.order);
    EarlyCron(s.src, e, s.now);
    EarlyMoveKeeps(s, s, b, false);
    AdvanceKeeps(s, b);
    if Step(s, e) != s { SameHandshake(Advance(s, b), Step(s, e)); }
  }

  lemma ReceiveHandshake(s: System, e: Event)
    requires Handshake(s) && e.SourceReceive?
    ensures Handshake(Step(s, e))
  {
    hide Handshake, EarlyMove, Advance, Source.Receive;
    if s.src.client && s.toSource != [] {
      var m := s.toSource[0];
      EarlyReceive(s.src, m, s.now, e.timeout, e.refuse);
      EarlyMoveKeeps(s, s.(toSource := s.toSource[1..]), s.src.Receive(m, s.now, e.timeout, e.refuse), m.Established?);
    }
  }

  lemma OtherHandshake(s: System, e: Event)
    requires Handshake(s) && (Early(s.src.state) ==> !s.src.pause.on)
    requires e.UpdatePause? || e.SourceAck? || e.ChildDone? || e.ClientWrite?
    ensures Handshake(Step(s, e))
  {
    hide Handshake, EarlyMove, Advance, Source.CronAck, Source.ChildDone, Source.ClientWrite;
    var a := s.src;
    EarlyOthers(a, s.now, e.ChildDone? && e.ok, if e.ClientWrite? then e.effect else d => d);
    match e {
      case UpdatePause => EarlyMoveKeeps(s, s, a.(pause := a.pause.Update(s.now)), false);
      case SourceAck => EarlyMoveKeeps(s, s, a.CronAck(), false);
      case ChildDone(ok) => EarlyMoveKeeps(s, s, a.ChildDone(ok), false);
      case ClientWrite(effect) =>
        EarlyMoveKeeps(s, s, a.ClientWrite(effect), false);
        SameHandshake(Advance(s, a.ClientWrite(effect)), Step(s, e));
    }
  }

  lemma EndHandshake(s: System, e: Event)
    requires Handshake(s) && (e.SourceCancel? || e.SourceConnectionLost? || e.OwnershipChange?)
    ensures Handshake(Step(s, e))
  {
    hide Handshake, EarlyMove, Advance, Source.Finish, Source.ConnectionLost, Source.OwnershipChange;
    var a := s.src;
    EarlyEnds(a, e.OwnershipChange? && e.target);
    match e {
      case SourceCancel => EarlyMoveKeeps(s, s, a.Finish(ExportCancelled), false);
      case SourceConnectionLost => EarlyMoveKeeps(s, s, a.ConnectionLost(), false);
      case OwnershipChange(target) => EarlyMoveKeeps(s, s, a.OwnershipChange(target), false);
    }
  }

  lemma ChildHandshake(s: System, e: Event)
    requires Handshake(s) && (e.ChildWrites? || e.PipeStalls?) && (Early(s.src.state) ==> s.src.pipe == [])
    ensures Handshake(Step(s, e))
  {
  }

  lemma StepHandshake(s: System, e: Event)
    requires Handshake(s) && Ready(s.src)
    ensures Handshake(Step(s, e))
  {
    assert Early(s.src.state) ==> !s.src.pause.on && s.src.pipe == [];
    hide Handshake, Step;
    match e {
      case SourceCron(_, _, _, _, _) => CronHandshake(s, e);
      case SourceReceive(_, _) => ReceiveHandshake(s, e);
      case SourceFlush(n) => FlushHandshake(s, n);
      case ChildWrites => ChildHandshake(s, e);
      case PipeStalls => ChildHandshake(s, e);
      case UpdatePause => OtherHandshake(s, e);
      case SourceAck => OtherHandshake(s, e);
      case ChildDone(_) => OtherHandshake(s, e);
      case ClientWrite(_) => OtherHandshake(s, e);
      case SourceCancel => EndHandshake(s, e);
      case SourceConnectionLost => EndHandshake(s, e);
      case OwnershipChange(_) => EndHandshake(s, e);
      case _ => TargetHandshake(s, e);
    }
  }

  lemma AdvanceKeeps(s: System, b: Source)
    ensures var t := Advance(s, b); t.src == b && t.tgt == s.tgt && t.toTarget == s.toTarget && t.toSource == s.toSource
  {
  }

  lemma {:induction false} RunHandshake(db: Db, events: seq<Event>)
    requires CleanRun(Start(db), events)
    ensures Handshake(Run(Start(db), events))
  {
    hide Handshake, Step, Inv;
    if |events| > 0 {
      var front := events[..|events| - 1];
      assert forall i: nat | i < |front| :: front[..i] == events[..i];
      RunHandshake(db, front);
      RunKeeps(db, front);
      InvReady(Run(Start(db), front));
      StepHandshake(Run(Start(db), front), events[|events| - 1]);
    } else {
      StartHandshake(db);
    }
  }

  lemma StartHandshake(db: Db)
    ensures Handshake(Start(db))
  {
  }

  lemma InvReady(s: System)
    requires Inv(s)
    ensures Ready(s.src)
  {
  }

  lemma ReachableHandshake(s: System)
    requires Reachable(s)
    ensures Handshake(s)
  {
    hide Handshake, Run, CleanRun;
    var db :| Leads(Start(db), s);
    var events :| CleanRun(Start(db), events) && s == Run(Start(db), events);
    RunHandshake(db, events);
  }

  // ---- The order holds exactly after a clean fork -------------------------------------------------

  /** A fork that leaves output behind, one write, and the write handler's turn. */
  lemma Overtaking(s: System, e: Event, effect: Effect) returns (t: System)
    requires Ready(s.src) && Handshake(s) && Forks(s, e) && s.src.handler
    ensures t == Step(Step(Step(s, e), ClientWrite(effect)), SourceFlush(|s.src.out| + 1))
    ensures t == s.(src := s.src.(pipe := Snapshot(s.src.db, e.order) + [SnapshotEof], state := Snapshotting,
                                  db := effect(s.src.db), out := [], handler := false),
                    toTarget := s.toTarget + (s.src.out + [Write(effect)]), forked := true,
                    sent := t.sent, snapshot := Snapshot(s.src.db, e.order), history := s.history + [Write(effect)])
    ensures Leads(Step(s, e), t)
  {
    hide Walks, Snapshot, Handshake, Ready, Leads;
    assert s.src.Admits() && s.src.client && Early(s.src.state) by { EarlyFacts(s); }
    var a := Step(s, e);
    var b := Step(a, ClientWrite(effect));
    assert a.src.out[|a.src.out|..] == [] && b.src.out == s.src.out + [Write(effect)];
    assert b.history == s.history + [Write(effect)] by {
      assert b.src.out[|a.src.out|..] == [Write(effect)];
      MarksOf(Write(effect));
      assert s.history + [] == s.history;
    }
    t := Step(b, SourceFlush(|s.src.out| + 1));
    assert b.src.out[..|s.src.out| + 1] == b.src.out && b.src.out[|s.src.out| + 1..] == [];
    LeadsNowhere(a);
    LeadsOn(a, a, ClientWrite(effect));
    LeadsOn(a, b, SourceFlush(|s.src.out| + 1));
  }

  lemma EarlyFacts(s: System)
    requires Ready(s.src) && Handshake(s) && s.src.state.WaitingToSnapshot?
    ensures s.src.Admits() && s.src.client && s.src.pipe == []
  {
  }

  /**
   * The order depends on the clean fork: when the write handler still holds back
   * part of the buffer, one write during the snapshot overtakes it on the wire.
   */
  lemma DirtyForkBreaksOrder(s: System, e: Event, effect: Effect)
    requires Reachable(s) && Forks(s, e) && s.src.handler
    ensures var t := Step(Step(Step(s, e), ClientWrite(effect)), SourceFlush(|s.src.out| + 1));
            Leads(Step(s, e), t) && t.forked && !Ordered(t)
  {
    hide Reachable, Leads, Step, Phased, Consistent, Pausing, Replay, Walks, Snapshot, Data, Handshake, Ready;
    ReachableInv(s);
    ReachableHandshake(s);
    EarlyPipe(s);
    var t := Overtaking(s, e, effect);
    var line, w := s.received + s.toTarget, Write(effect);
    Append(line, [], s.src.out, [w]);
    assert t.received + t.toTarget == line + s.src.out + [w];
    assert line + s.src.pipe + s.src.out == line + s.src.out;
    DataConcat(line + s.src.out, [w]);
    AllData([w]);
    assert Data(t.received + t.toTarget) == [w];
    SnapshotIsData(s.src.db, e.order);
    assert Whole(t)[0].Restore? || Whole(t)[0].SnapshotEof?;
  }

  lemma EarlyPipe(s: System)
    requires Phased(s) && s.src.state.WaitingToSnapshot?
    ensures s.src.pipe == [] && s.src.client && !s.forked && Ready(s.src)
  {
  }

  /** After a step the order holds in all that can follow, exactly if the step is no unclean fork. */
  lemma OrderHoldsExactly(s: System, e: Event)
    requires Reachable(s)
    ensures CleanFork(s, e) <==> forall t | Leads(Step(s, e), t) :: Ordered(t)
  {
    hide Reachable, Step, Ordered, Run;
    if CleanFork(s, e) {
      ReachableStep(s, e);
      forall t | Leads(Step(s, e), t) ensures Ordered(t) {
        var events :| CleanRun(Step(s, e), events) && t == Run(Step(s, e), events);
        ReachableRun(Step(s, e), events);
        StreamInOrder(t);
      }
    } else {
      DirtyForkBreaksOrder(s, e, d => d);
    }
  }

  // ---- The takeover is lossless exactly after a clean fork -----------------------------------------

  lemma {:induction false} DrainReplies(s: System, t: System)
    requires Leads(s, t) && t.src.client && !t.src.state.ReadEstablishResponse? && Replies(t.toSource)
    ensures Leads(s, t.(toSource := []))
    decreases |t.toSource|
  {
    hide Leads;
    if t.toSource == [] {
      assert t == t.(toSource := []);
    } else {
      var next := t.(toSource := t.toSource[1..]);
      Ignored(t);
      LeadsOn(s, t, SourceReceive(0, false));
      assert forall i: nat | i < |next.toSource| :: next.toSource[i] == t.toSource[i + 1];
      DrainReplies(s, next);
    }
  }

  lemma Ignored(t: System)
    requires t.src.client && !t.src.state.ReadEstablishResponse? && t.toSource != []
    requires t.toSource[0].Established? || t.toSource[0].Refused? || t.toSource[0].AckBack?
    ensures Step(t, SourceReceive(0, false)) == t.(toSource := t.toSource[1..])
  {
    assert t.src.out[|t.src.out|..] == [] && t.sent + [] == t.sent && t.history + [] == t.history;
  }

  lemma {:induction false} DrainPipe(s: System, t: System)
    requires Leads(s, t) && t.src.client
    ensures Leads(s, t.(src := t.src.(pipe := []), toTarget := t.toTarget + t.src.pipe))
    decreases |t.src.pipe|
  {
    hide Leads;
    var goal := t.(src := t.src.(pipe := []), toTarget := t.toTarget + t.src.pipe);
    if t.src.pipe == [] {
      assert t.toTarget + [] == t.toTarget;
      assert t == goal;
    } else {
      var next := Step(t, ChildWrites);
      LeadsOn(s, t, ChildWrites);
      DrainPipe(s, next);
      assert next.toTarget + next.src.pipe == t.toTarget + t.src.pipe;
    }
  }

  /** Greetings ahead of the data bring the import to where it takes the snapshot. */
  lemma {:induction false} DrainGreetings(s: System, t: System, greetings: seq<ToTarget>, rest: seq<ToTarget>) returns (replies: seq<ToSource>)
    requires Leads(s, t) && t.tgt.client && t.toTarget == greetings + rest && Greetings(greetings)
    requires t.tgt.state.ReceiveSnapshot? || (t.tgt.state.WaitAck? && HasAck(greetings))
    ensures Replies(replies)
    ensures Leads(s, t.(tgt := t.tgt.(state := ReceiveSnapshot), toTarget := rest, toSource := t.toSource + replies,
                        received := t.received + greetings))
    decreases |greetings|
  {
    hide Leads;
    if greetings == [] {
      replies := [];
      assert t.toTarget == rest && t.received + greetings == t.received && t.toSource + replies == t.toSource;
      assert t == t.(tgt := t.tgt.(state := ReceiveSnapshot), toTarget := rest);
    } else {
      var m, more := greetings[0], greetings[1..];
      assert greetings == [m] + more;
      GreetingsIn([m], more);
      GreetingOf(m);
      var next := Step(t, TargetReceive(true));
      LeadsOn(s, t, TargetReceive(true));
      assert t.toTarget[1..] == more + rest;
      var first := if m.Establish? then [Refused] else [];
      assert next == t.(tgt := t.tgt.(state := if m.Ack? then ReceiveSnapshot else t.tgt.state), toTarget := more + rest,
                        toSource := t.toSource + first, received := t.received + [m]);
      var others := DrainGreetings(s, next, more, rest);
      replies := first + others;
      RepliesIn(first, others);
      First(Refused);
      assert t.toSource + first + others == t.toSource + replies;
      assert t.received + [m] + more == t.received + greetings;
    }
  }

  lemma {:induction false} DrainData(s: System, t: System, l: seq<ToTarget>, rest: seq<ToTarget>)
    requires Leads(s, t) && t.tgt.client && t.tgt.state.ReceiveSnapshot? && t.toTarget == l + rest
    requires forall i: nat | i < |l| :: l[i].Restore? || l[i].Write?
    ensures Leads(s, t.(tgt := t.tgt.(db := Then(t.tgt.db, l)), toTarget := rest, received := t.received + l))
    decreases |l|
  {
    hide Leads;
    if l == [] {
      assert t.toTarget == rest && t.received + l == t.received;
      assert t == t.(tgt := t.tgt.(db := Then(t.tgt.db, l)), toTarget := rest);
    } else {
      var front, m := l[..|l| - 1], l[|l| - 1];
      assert l == front + [m];
      assert t.toTarget == front + ([m] + rest);
      DrainData(s, t, front, [m] + rest);
      var next := t.(tgt := t.tgt.(db := Then(t.tgt.db, front)), toTarget := [m] + rest, received := t.received + front);
      LeadsOn(s, next, TargetReceive(true));
      assert ([m] + rest)[1..] == rest && next.toSource + [] == next.toSource;
      assert t.received + front + [m] == t.received + l;
    }
  }

  /** The rest of a migration whose snapshot is all on the wire: nothing but markers and pauses. */
  lemma Finale(s: System, t: System) returns (u: System)
    requires Leads(s, t) && t.src.state.Snapshotting? && t.src.client && t.src.out == [] && t.src.pipe == []
    requires !t.src.queued && !t.src.handler
    requires t.tgt.client && t.tgt.state.ReceiveSnapshot? && t.toTarget == [SnapshotEof] && t.toSource == []
    ensures Leads(s, u) && u.tgt.state.ImportGranted? && u.src.pause.on && u.history == t.history + [Paused]
    ensures u.tgt.db == t.tgt.db && u.src.db == t.src.db && u.src.owns == t.src.owns
  {
    hide Leads;
    LeadsOn(s, t, TargetReceive(true));
    var a := Step(t, TargetReceive(true));
    assert a.toSource == [RequestPause] && a.toTarget == [] && a.src == t.src;
    var b := AskedToPause(s, a);
    u := Granting(s, b);
  }

  /** One buffered message is written and delivered. */
  lemma Relay(s: System, c: System, m: ToTarget) returns (d: System)
    requires Leads(s, c) && c.src.out == [m] && c.src.queued && c.tgt.client && c.toTarget == []
    ensures Leads(s, d)
    ensures var (tgt, replies) := c.tgt.Receive(m, true);
            d == c.(src := c.src.(out := [], queued := false, handler := false), tgt := tgt,
                    toSource := c.toSource + replies, received := c.received + [m])
  {
    hide Leads, Target.Receive;
    LeadsOn(s, c, SourceFlush(1));
    var b := Step(c, SourceFlush(1));
    assert c.src.out[..1] == [m] && c.src.out[1..] == [] && b.toTarget == [m];
    LeadsOn(s, b, TargetReceive(true));
    d := Step(b, TargetReceive(true));
  }

  lemma PausedBy(a: Source, now: nat) returns (p: Pause)
    requires a.state.Snapshotting? && a.out == []
    ensures a.Receive(RequestPause, now, 1000, false) == a.(state := FailoverPaused, pause := p, queued := true, out := [Paused])
    ensures p.on && p.mfEnd == now + 2000
  {
    p := a.pause.Until(now + 2000, now);
  }

  /** A request is answered with one message. */
  lemma Answers(s: System, a: System, r: ToSource, b: Source, m: ToTarget) returns (c: System)
    requires Leads(s, a) && a.src.client && b.client && a.src.out == [] && a.toSource == [r] && b == a.src.Receive(r, a.now, 1000, false)
    requires b.out == [m]
    ensures Leads(s, c) && c == a.(src := b, toSource := [], sent := c.sent, history := c.history)
    ensures c.history == a.history + if m.Paused? then [Paused] else []
  {
    hide Leads, Source.Receive;
    LeadsOn(s, a, SourceReceive(1000, false));
    c := Step(a, SourceReceive(1000, false));
    assert b.out[0..] == [m];
    MarksOf(m);
  }

  lemma AskedToPause(s: System, a: System) returns (b: System)
    requires Leads(s, a) && a.src.state.Snapshotting? && a.src.client && a.src.out == []
    requires a.toSource == [RequestPause] && a.toTarget == [] && a.tgt.client && a.tgt.state.WaitingForPaused?
    ensures Leads(s, b) && b.src.state.FailoverPaused? && b.src.client && b.src.out == []
    ensures b.src.pause.on && b.src.pause.mfEnd == b.now + 2000
    ensures b.toSource == [RequestFailover] && b.toTarget == [] && b.tgt == a.tgt.(state := FailoverRequested)
    ensures b.history == a.history + [Paused] && b.src.db == a.src.db && b.src.owns == a.src.owns
  {
    hide Leads, Source.Receive, Step;
    var p := PausedBy(a.src, a.now);
    var c := Answers(s, a, RequestPause, a.src.(state := FailoverPaused, pause := p, queued := true, out := [Paused]), Paused);
    b := Relay(s, c, Paused);
  }

  lemma GrantedBy(a: Source, now: nat)
    requires a.state.FailoverPaused? && a.out == [] && a.pause.on && a.pause.mfEnd == now + 2000
    ensures a.Receive(RequestFailover, now, 1000, false) == a.(state := FailoverGranted, queued := true, out := [Granted])
  {
  }

  lemma Granting(s: System, b: System) returns (u: System)
    requires Leads(s, b) && b.src.state.FailoverPaused? && b.src.client && b.src.out == []
    requires b.src.pause.on && b.src.pause.mfEnd == b.now + 2000
    requires b.toSource == [RequestFailover] && b.toTarget == [] && b.tgt.client && b.tgt.state.FailoverRequested?
    ensures Leads(s, u) && u.tgt == b.tgt.(state := ImportGranted) && u.src.pause == b.src.pause
    ensures u.history == b.history && u.src.db == b.src.db && u.src.owns == b.src.owns
  {
    hide Leads, Step, Source.Receive;
    GrantedBy(b.src, b.now);
    var c := Answers(s, b, RequestFailover, b.src.(state := FailoverGranted, queued := true, out := [Granted]), Granted);
    u := Relay(s, c, Granted);
  }

  /** After a snapshot every key it holds has the value of the snapshot, whatever came before. */
  lemma {:induction false} SnapshotWins(before: Db, db: Db, order: seq<string>, k: string)
    requires k in db && k in order
    ensures var after := Then(before, Snapshot(db, order)); k in after && after[k] == db[k]
  {
    var front, last := order[..|order| - 1], order[|order| - 1];
    var more := if last in db then [Restore(last, db[last])] else [];
    assert Snapshot(db, order) == Snapshot(db, front) + more;
    ThenConcat(before, Snapshot(db, front), more);
    assert more == [] || more[..0] == [];
    if last != k {
      assert k in front;
      SnapshotWins(before, db, front, k);
    }
  }

  /**
   * An unclean fork can cost a write: one made during the snapshot arrives ahead of
   * it and is undone by it. Everything else goes well and the pause holds, yet the
   * target that gets the grant has the old value of the key.
   */
  lemma DirtyForkLosesWrite(s: System, e: Event, effect: Effect, k: string) returns (u: System)
    requires Reachable(s) && Forks(s, e) && s.src.handler && s.tgt.InProgress()
    requires k in s.src.db && (k in effect(s.src.db) ==> effect(s.src.db)[k] != s.src.db[k])
    ensures Leads(Step(s, e), u) && u.tgt.state.ImportGranted? && u.src.owns && u.src.pause.on && !WroteSincePaused(u)
    ensures u.src.db == effect(s.src.db) && k in u.tgt.db && u.tgt.db[k] == s.src.db[k]
  {
    hide Reachable, Leads, Step, Inv, Handshake, Snapshot, Walks;
    ReachableInv(s);
    ReachableHandshake(s);
    AtFork(s);
    var start, snapshot := Step(s, e), Snapshot(s.src.db, e.order);
    var a := Overtaking(s, e, effect);
    DrainReplies(start, a);
    var b := a.(toSource := []);
    DrainPipe(start, b);
    var c := b.(src := b.src.(pipe := []), toTarget := b.toTarget + b.src.pipe);
    var greetings, data := s.toTarget + s.src.out, [Write(effect)] + snapshot;
    assert c.toTarget == greetings + (data + [SnapshotEof]);
    GreetingsIn(s.toTarget, s.src.out);
    var replies := DrainGreetings(start, c, greetings, data + [SnapshotEof]);
    var d := c.(tgt := c.tgt.(state := ReceiveSnapshot), toTarget := data + [SnapshotEof], toSource := c.toSource + replies,
                received := c.received + greetings);
    assert d.toSource == replies;
    DrainReplies(start, d);
    var f := d.(toSource := []);
    SnapshotIsData(s.src.db, e.order);
    DrainData(start, f, data, [SnapshotEof]);
    var g := f.(tgt := f.tgt.(db := Then(f.tgt.db, data)), toTarget := [SnapshotEof], received := f.received + data);
    u := Finale(start, g);
    ThenConcat(f.tgt.db, [Write(effect)], snapshot);
    assert k in e.order by { Walked(e.order, s.src.db, k); }
    SnapshotWins(Then(f.tgt.db, [Write(effect)]), s.src.db, e.order, k);
  }

  lemma Walked(order: seq<string>, db: Db, k: string)
    requires Walks(order, db) && k in db
    ensures k in order
  {
  }

  lemma AtFork(s: System)
    requires Inv(s) && Handshake(s) && s.src.state.WaitingToSnapshot? && s.tgt.InProgress()
    ensures Ready(s.src) && s.src.client && s.src.owns && s.src.pipe == [] && s.tgt.client && s.history == []
    ensures Greetings(s.toTarget) && Greetings(s.src.out) && Replies(s.toSource)
    ensures s.tgt.state.ReceiveSnapshot? || (s.tgt.state.WaitAck? && (HasAck(s.toTarget) || HasAck(s.src.out)))
  {
  }

  lemma {:induction false} ThenConcat(db: Db, a: seq<ToTarget>, b: seq<ToTarget>)
    ensures Then(db, a + b) == Then(Then(db, a), b)
    decreases |b|
  {
    if |b| == 0 {
      assert a + b == a;
    } else {
      ThenConcat(db, a, b[..|b| - 1]);
      assert (a + b)[..|a + b| - 1] == a + b[..|b| - 1];
    }
  }

  /** A target about to claim the slots, with no slot write since PAUSED, holds the source's contents. */
  ghost predicate Lossless(t: System) {
    t.tgt.state.ImportGranted? && !WroteSincePaused(t) ==> t.tgt.db == t.src.db
  }

  /** An import that failed stays failed. */
  lemma {:induction false} FailedStays(s: System, events: seq<Event>)
    requires !s.tgt.InProgress() && !s.tgt.state.NoJob?
    ensures !Run(s, events).tgt.InProgress() && !Run(s, events).tgt.state.NoJob?
  {
    hide Step;
    if |events| > 0 {
      FailedStays(s, events[..|events| - 1]);
      FailedStep(Run(s, events[..|events| - 1]), events[|events| - 1]);
    }
  }

  lemma FailedStep(s: System, e: Event)
    requires !s.tgt.InProgress() && !s.tgt.state.NoJob?
    ensures !Step(s, e).tgt.InProgress() && !Step(s, e).tgt.state.NoJob?
  {
    hide Source.Proceed, Source.Receive, Source.CronAck, Source.Finish, Source.ConnectionLost, Source.OwnershipChange,
         Source.ChildDone, Source.ClientWrite, Walks, Snapshot, HasPaused;
  }

  /** The steps after which a takeover cannot lose anything. */
  predicate Harmless(s: System, e: Event) {
    CleanFork(s, e) || s.src.db == map[] || !s.tgt.InProgress()
  }

  lemma HarmlessFollows(s: System, e: Event, t: System)
    requires Reachable(s) && Harmless(s, e) && Leads(Step(s, e), t)
    ensures Lossless(t)
  {
    hide Reachable, Step, Run, Inv, WroteSincePaused, Handshake, Undisturbed;
    var events :| CleanRun(Step(s, e), events) && t == Run(Step(s, e), events);
    ReachableInv(s);
    ReachableHandshake(s);
    if CleanFork(s, e) {
      ReachableStep(s, e);
      ReachableRun(Step(s, e), events);
      ReachableInv(t);
      if t.tgt.state.ImportGranted? { var missing := TakeoverExact(t); }
    } else if s.tgt.InProgress() {
      ForkOfNothing(s, e);
      RunUndisturbed(Step(s, e), events);
      if t.tgt.state.ImportGranted? && !WroteSincePaused(t) { UndisturbedTakeover(t); }
    } else {
      ForkedTarget(s, e);
      FailedStays(Step(s, e), events);
    }
  }

  lemma ForkedTarget(s: System, e: Event)
    requires Handshake(s) && Forks(s, e)
    ensures Step(s, e).tgt == s.tgt && !s.tgt.state.NoJob?
  {
  }

  /**
   * After a step from any reachable state, every takeover that can follow is lossless
   * exactly if the step is no unclean fork, or the slots hold no key, or the import
   * has failed already.
   */
  lemma LosslessExactly(s: System, e: Event)
    requires Reachable(s)
    ensures Harmless(s, e) <==> forall t | Leads(Step(s, e), t) :: Lossless(t)
  {
    hide Reachable, Step, Leads, WroteSincePaused;
    if Harmless(s, e) {
      forall t | Leads(Step(s, e), t) ensures Lossless(t) { HarmlessFollows(s, e, t); }
    } else {
      var k :| k in s.src.db;
      var u := DirtyForkLosesWrite(s, e, _ => map[], k);
      assert !Lossless(u);
    }
  }

  // ---- The theorems speak of runs that exist --------------------------------------------------------

  /** The handshake of any migration: the source has its first ACK in the buffer. */
  lemma Greeted(db: Db) returns (t: System)
    ensures Leads(Start(db), t) && t.src.state.WaitingToSnapshot? && t.src.client && t.src.out == [Ack] && t.src.pipe == []
    ensures t.src.queued && !t.src.handler && t.src.db == db && t.src.owns && t.history == []
    ensures t.tgt.state.WaitAck? && t.tgt.client && t.toTarget == [] && t.toSource == []
  {
    hide Leads;
    var s, cron := Start(db), SourceCron(1000, false, false, false, []);
    LeadsNowhere(s);
    LeadsOn(s, s, cron);
    var a := Step(s, cron);
    assert a.src == s.src.(state := ReadEstablishResponse, client := true, out := [Establish], queued := true);
    MarksOf(Establish);
    var b := Relay(s, a, Establish);
    t := Answers(s, b, Established, b.src.(state := WaitingToSnapshot, out := [Ack], queued := true), Ack);
  }

  lemma ReachableFrom(db: Db, s: System)
    requires Leads(Start(db), s)
    ensures Reachable(s)
  {
  }

  /** There is a run to the takeover, for any contents: a migration with nothing going wrong. */
  lemma GrantIsReachable(db: Db, order: seq<string>) returns (s: System)
    requires Walks(order, db)
    ensures Reachable(s) && s.tgt.state.ImportGranted? && s.src.owns && s.src.db == db && !WroteSincePaused(s)
  {
    hide Leads, Reachable, Walks, Snapshot, Source.Receive;
    var start, cron := Start(db), SourceCron(1000, false, false, false, order);
    var a := Greeted(db);
    var b := Relay(start, a, Ack);
    LeadsOn(start, b, cron);
    var c := Step(b, cron);
    DrainPipe(start, c);
    var d := c.(src := c.src.(pipe := []), toTarget := c.toTarget + c.src.pipe);
    SnapshotIsData(db, order);
    assert d.toTarget == Snapshot(db, order) + [SnapshotEof];
    DrainData(start, d, Snapshot(db, order), [SnapshotEof]);
    s := Finale(start, d.(tgt := d.tgt.(db := Then(d.tgt.db, Snapshot(db, order))), toTarget := [SnapshotEof],
                          received := d.received + Snapshot(db, order)));
    ReachableFrom(db, s);
  }

  /** And one to the unclean fork of any contents: the socket takes nothing of the first ACK. */
  lemma DirtyForkIsReachable(db: Db, order: seq<string>) returns (s: System, e: Event)
    requires Walks(order, db)
    ensures Reachable(s) && Forks(s, e) && s.src.handler && s.src.db == db && s.tgt.InProgress()
  {
    hide Leads, Reachable, Walks;
    var a := Greeted(db);
    LeadsOn(Start(db), a, SourceFlush(0));
    s, e := Step(a, SourceFlush(0)), SourceCron(1000, false, false, false, order);
    ReachableFrom(db, s);
  }

  // ---- A pause that ran out ---------------------------------------------------------------------------

  /**
   * The takeover theorem depends on the pause: once it has run out, one write that
   * changes anything is lost to a target that still holds the grant.
   */
  lemma LapsedPauseLosesWrite(s: System, effect: Effect)
    requires Reachable(s) && s.tgt.state.ImportGranted? && s.src.owns && !WroteSincePaused(s)
    requires effect(s.src.db) != s.src.db
    ensures var t := Step(Run(s, [Tick(s.src.pause.end), UpdatePause, ClientWrite(effect)]), TargetProceed(false));
            t.tgt.owns && t.tgt.db != t.src.db
  {
    hide Run, Inv, Reachable;
    ReachableInv(s);
    var missing := TakeoverExact(s);
    ThreeSteps(s, Tick(s.src.pause.end), UpdatePause, ClientWrite(effect));
  }

  lemma ThreeSteps(s: System, e1: Event, e2: Event, e3: Event)
    ensures Run(s, [e1, e2, e3]) == Step(Step(Step(s, e1), e2), e3)
  {
    hide Step;
    assert [e1, e2, e3][..2] == [e1, e2] && [e1, e2][..1] == [e1] && [e1][..0] == [];
    assert Run(s, [e1]) == Step(Run(s, []), e1);
    assert Run(s, [e1, e2]) == Step(Run(s, [e1]), e2);
  }
}

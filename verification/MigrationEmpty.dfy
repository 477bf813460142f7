/**
 * The one snapshot that may start unclean: that of slots without keys. It consists of
 * SNAPSHOT-EOF only, so a write that overtakes it is not undone, and a takeover still
 * loses nothing.
 */
module MigrationEmpty {
  import opened Migration
  import opened MigrationRuns

  /** A stream without markers of the protocol other than PAUSED. */
  function Effects(l: seq<ToTarget>): seq<ToTarget> {
    if |l| == 0 then []
    else Effects(l[..|l| - 1]) + EffectsOf(l[|l| - 1])
  }

  function EffectsOf(m: ToTarget): seq<ToTarget> {
    if m.Restore? || m.Write? || m.Paused? then [m] else []
  }

  lemma {:induction false} EffectsConcat(a: seq<ToTarget>, b: seq<ToTarget>)
    ensures Effects(a + b) == Effects(a) + Effects(b)
    decreases |b|
  {
    if |b| == 0 {
      assert a + b == a;
    } else {
      EffectsConcat(a, b[..|b| - 1]);
      assert (a + b)[..|a + b| - 1] == a + b[..|b| - 1];
    }
  }

  lemma EffectsOne(m: ToTarget)
    ensures Effects([m]) == EffectsOf(m)
  {
    assert [m][..0] == [];
  }

  lemma {:induction false} ReplayEffects(l: seq<ToTarget>)
    ensures Replay(Effects(l)) == Replay(l)
  {
    if |l| > 0 {
      var front, m := l[..|l| - 1], l[|l| - 1];
      ReplayEffects(front);
      if EffectsOf(m) == [] {
        assert Effects(l) == Effects(front);
      } else {
        ReplayLast(Effects(front), m);
      }
    }
  }

  lemma {:induction false} NoEffects(l: seq<ToTarget>)
    requires Data(l) == []
    ensures Effects(l) == []
  {
    if |l| > 0 { NoEffects(l[..|l| - 1]); }
  }

  lemma {:induction false} PausedIsEffect(l: seq<ToTarget>)
    requires HasPaused(l)
    ensures HasPaused(Effects(l))
  {
    var front, last := l[..|l| - 1], l[|l| - 1];
    PausedIn(Effects(front), EffectsOf(last));
    if last.Paused? {
      MarksOf(last);
    } else {
      var i: nat :| i < |l| && l[i].Paused?;
      assert front[i] == l[i];
      PausedIsEffect(front);
    }
  }

  // ---- The invariant -----------------------------------------------------------------------------

  /** The state without the write handler that an unclean fork leaves installed. */
  function Calm(s: System): System {
    if s.src.state.Snapshotting? then s.(src := s.src.(handler := false)) else s
  }

  /** Every write and PAUSED is on its way in order; what was to be sent is lost with the connection. */
  ghost predicate Streamed(s: System) {
    if s.src.client then Effects(s.received + s.toTarget + s.src.out) == s.history
    else Effects(s.received + s.toTarget) <= s.history
  }

  ghost predicate Contents(s: System) {
    && s.src.db == Replay(s.history)
    && !s.tgt.state.NoJob? && (s.tgt.InProgress() ==> s.tgt.client && s.tgt.db == Replay(s.received))
  }

  ghost predicate Undisturbed(s: System) {
    && Phased(Calm(s)) && s.forked && (s.src.client && s.src.pipe != [] ==> s.src.pipe == [SnapshotEof])
    && Streamed(s) && Contents(s) && Pausing(s)
  }

  /** A takeover with no slot write since PAUSED loses nothing. */
  lemma UndisturbedTakeover(s: System)
    requires Undisturbed(s) && s.tgt.state.ImportGranted? && !WroteSincePaused(s)
    ensures s.tgt.db == s.src.db
  {
    hide Effects, Phased, Replay;
    PausedIsEffect(s.received);
    ReplayEffects(s.received);
    EffectsConcat(s.received, s.toTarget);
    EffectsConcat(s.received + s.toTarget, s.src.out);
    var part := Effects(s.received);
    assert part <= s.history;
    var p: nat :| p < |part| && part[p].Paused?;
    assert s.history[p].Paused? && s.history[|s.history| - 1].Paused?;
    assert part == s.history;
  }

  // ---- The fork ----------------------------------------------------------------------------------

  lemma WalkFindsKeys(order: seq<string>, db: Db)
    requires Walks(order, db) && order != []
    ensures db != map[]
  {
    assert order[0] in db;
  }

  lemma ForkOfNothing(s: System, e: Event)
    requires Inv(s) && Forks(s, e) && s.src.db == map[] && s.tgt.InProgress()
    ensures Undisturbed(Step(s, e))
  {
    if e.order != [] { WalkFindsKeys(e.order, s.src.db); }
    var t := Step(s, e);
    assert t == s.(src := s.src.(pipe := [SnapshotEof], state := Snapshotting), sent := t.sent, forked := true, snapshot := t.snapshot);
    hide Phased, InTransit, InOrder, Consistent, Pausing, Streamed, Contents, Walks;
    ForkPhase(s, t);
    ForkStreamed(s, t);
  }

  lemma ForkPhase(s: System, t: System)
    requires Phased(s) && Pausing(s) && s.src.state.WaitingToSnapshot? && !s.src.queued
    requires t == s.(src := s.src.(pipe := [SnapshotEof], state := Snapshotting), sent := t.sent, forked := true, snapshot := t.snapshot)
    ensures Phased(Calm(t)) && Pausing(t)
  {
    assert t.src.pipe[..0] == [];
  }

  lemma ForkStreamed(s: System, t: System)
    requires Phased(s) && InTransit(s) && InOrder(s) && Consistent(s) && s.src.state.WaitingToSnapshot? && s.src.db == map[]
    requires s.tgt.InProgress() && s.tgt.client
    requires t == s.(src := s.src.(pipe := [SnapshotEof], state := Snapshotting), sent := t.sent, forked := true, snapshot := t.snapshot)
    ensures Streamed(t) && Contents(t)
  {
    hide Effects, Data, Replay, HasEof, HasPauseRequest;
    var line := s.received + s.toTarget + s.src.out;
    assert line == s.sent by { assert s.received + s.toTarget + [] + s.src.out == line; }
    NoEffects(line);
    ReplayNothing();
  }

  // ---- Steps -------------------------------------------------------------------------------------

  /** The same but for the write handler, which only a connected client has. */
  ghost predicate Loose(b: Source, calm: Source) {
    b == calm.(handler := b.handler) && (b.handler ==> b.client) && (calm.handler ==> b.handler)
  }

  lemma LoosePhase(s: System, t: System)
    requires Phased(t) && Loose(s.src, t.src) && s == t.(src := s.src)
    ensures Phased(Calm(s))
  {
  }

  /** In the snapshot the handler matters to nothing but the socket. */
  lemma CalmSource(a: Source, e: Event, now: nat)
    requires a.state.Snapshotting? && a.client && e.SourceCron?
    ensures Loose(a.Proceed(now, e.timeout, e.refuse, e.busy, e.forkFails, e.order),
                  a.(handler := false).Proceed(now, e.timeout, e.refuse, e.busy, e.forkFails, e.order))
  {
  }

  lemma CalmReceive(a: Source, m: ToSource, now: nat, timeout: nat, refuse: bool)
    requires a.state.Snapshotting? && a.client
    ensures Loose(a.Receive(m, now, timeout, refuse), a.(handler := false).Receive(m, now, timeout, refuse))
  {
  }

  lemma CalmOthers(a: Source, now: nat, ok: bool)
    requires a.state.Snapshotting? && a.client
    ensures var c := a.(handler := false);
            && Loose(a.(pause := a.pause.Update(now)), c.(pause := c.pause.Update(now)))
            && Loose(a.CronAck(), c.CronAck()) && Loose(a.ChildDone(ok), c.ChildDone(ok))
  {
  }

  lemma CalmEnds(a: Source, target: bool)
    requires a.state.Snapshotting? && a.client
    ensures var c := a.(handler := false);
            && Loose(a.Finish(ExportCancelled), c.Finish(ExportCancelled)) && Loose(a.ConnectionLost(), c.ConnectionLost())
            && Loose(a.OwnershipChange(target), c.OwnershipChange(target))
  {
  }

  lemma MoveStreamed(s: System, base: System, b: Source)
    requires Phased(s) && Streamed(s) && Contents(s) && Moves(s.src, b) && base == s.(toSource := base.toSource)
    requires s.forked && (s.src.client && s.src.pipe != [] ==> s.src.pipe == [SnapshotEof])
    ensures var t := Advance(base, b);
            && Streamed(t) && Contents(t) && t.forked && (b.client && b.pipe != [] ==> b.pipe == [SnapshotEof])
            && t.src == b
  {
    hide Effects, Replay, Advance;
    var added := MoveAdds(s, base, b);
    var line := s.received + s.toTarget;
    assert b.db == s.src.db by { MoveDb(s.src, b); }
    EffectsConcat(line, s.src.out);
    EffectsConcat(line + s.src.out, added);
    if |added| == 1 {
      assert added == [added[0]];
      EffectsOne(added[0]);
      if added[0].Paused? { ReplayLast(s.history, Paused); }
    } else {
      assert Effects(added) == [] by { NoneToApply(); }
    }
    assert s.history + [] == s.history;
    if b.client { assert line + b.out == line + s.src.out + added by { assert b.out == s.src.out + added; } }
  }

  lemma MoveDb(a: Source, b: Source)
    requires Moves(a, b)
    ensures b.db == a.db
  {
  }

  lemma NoneToApply()
    ensures Effects([]) == []
  {
  }

  /** A source step other than a client write. */
  lemma MoveUndisturbed(s: System, base: System, calm: Source, b: Source)
    requires Undisturbed(s) && Moves(Calm(s).src, calm) && Loose(b, calm)
    requires base == s || (s.toSource != [] && base == s.(toSource := s.toSource[1..]))
    ensures Undisturbed(Advance(base, b))
  {
    hide Phased, Pausing, Streamed, Contents, Moves, Advance;
    var c, calmBase := Calm(s), base.(src := Calm(s).src);
    SameStream(s, c);
    MoveKeepsPhase(c, calmBase, calm);
    MoveKeepsPausing(c, calmBase, calm);
    MoveStreamed(c, calmBase, calm);
    var t, u := Advance(base, b), Advance(calmBase, calm);
    AdvanceLoose(base, calmBase, b, calm);
    LoosePhase(t, u);
    SameStream(u, t);
  }

  /** Neither the stream nor the contents nor the pause depend on the handler. */
  lemma SameStream(s: System, t: System)
    requires t == s.(src := s.src.(handler := t.src.handler))
    ensures Streamed(t) == Streamed(s) && Contents(t) == Contents(s) && Pausing(t) == Pausing(s)
  {
  }

  lemma AdvanceLoose(base: System, calmBase: System, b: Source, calm: Source)
    requires calmBase == base.(src := base.src.(handler := calmBase.src.handler)) && Loose(b, calm)
    ensures Advance(base, b) == Advance(calmBase, calm).(src := b) && Advance(calmBase, calm).src == calm
  {
  }

  lemma CalmIsConnected(s: System)
    requires Undisturbed(s)
    ensures Ready(Calm(s).src) && (s.src.state.Snapshotting? ==> s.src.client)
    ensures s.src.handler || s.src.queued ==> s.src.client
    ensures !s.src.state.WaitingToSnapshot?
    ensures s.toSource != [] && s.toSource[0].RequestPause? && s.src.client ==> s.src.pipe == []
  {
    EofIn(s.received, s.toTarget);
    assert s.toSource != [] && s.toSource[0].RequestPause? ==> HasPauseRequest(s.toSource);
  }

  lemma CronUndisturbed(s: System, e: Event)
    requires Undisturbed(s) && e.SourceCron?
    ensures Undisturbed(Step(s, e))
  {
    CalmIsConnected(s);
    hide Undisturbed, Moves, Advance, Loose, Source.Proceed, Ready;
    var a, c := s.src, Calm(s).src;
    var b := a.Proceed(s.now, e.timeout, e.refuse, e.busy, e.forkFails, e.order);
    var calm := c.Proceed(s.now, e.timeout, e.refuse, e.busy, e.forkFails, e.order);
    CronMoves(c, s.now, e.timeout, e.refuse, e.busy, e.forkFails, e.order);
    if a.state.Snapshotting? { CalmSource(a, e, s.now); } else { LooseMoves(c, calm); }
    MoveUndisturbed(s, s, calm, b);
  }

  /** After a move only a connected client has a handler. */
  lemma LooseMoves(a: Source, b: Source)
    requires Moves(a, b)
    ensures Loose(b, b)
  {
  }

  lemma ReceiveUndisturbed(s: System, e: Event)
    requires Undisturbed(s) && e.SourceReceive?
    ensures Undisturbed(Step(s, e))
  {
    CalmIsConnected(s);
    hide Undisturbed, Moves, Advance, Loose, Source.Receive, Ready;
    if s.src.client && s.toSource != [] {
      var a, c, m := s.src, Calm(s).src, s.toSource[0];
      var b, calm := a.Receive(m, s.now, e.timeout, e.refuse), c.Receive(m, s.now, e.timeout, e.refuse);
      ReceiveMoves(c, m, s.now, e.timeout, e.refuse);
      if a.state.Snapshotting? { CalmReceive(a, m, s.now, e.timeout, e.refuse); } else { LooseMoves(c, calm); }
      MoveUndisturbed(s, s.(toSource := s.toSource[1..]), calm, b);
    }
  }

  lemma OtherUndisturbed(s: System, e: Event)
    requires Undisturbed(s) && (e.UpdatePause? || e.SourceAck? || e.ChildDone?)
    ensures Undisturbed(Step(s, e))
  {
    CalmIsConnected(s);
    hide Undisturbed, Moves, Advance, Loose, Ready, Source.CronAck, Source.ChildDone;
    var a, c, ok := s.src, Calm(s).src, e.ChildDone? && e.ok;
    OtherMoves(c, s.now, ok);
    if a.state.Snapshotting? { CalmOthers(a, s.now, ok); }
    match e {
      case UpdatePause => Settled(s, c.(pause := c.pause.Update(s.now)), a.(pause := a.pause.Update(s.now)));
      case SourceAck => Settled(s, c.CronAck(), a.CronAck());
      case ChildDone(_) =>
        if !(ok && a.pipe != []) {
          ChildDoneMoves(c, ok);
          Settled(s, c.ChildDone(ok), a.ChildDone(ok));
        }
    }
  }

  lemma CancelUndisturbed(s: System)
    requires Undisturbed(s)
    ensures Undisturbed(Step(s, SourceCancel))
  {
    CalmIsConnected(s);
    hide Undisturbed, Moves, Advance, Loose, Ready, Source.Finish, Source.ConnectionLost, Source.OwnershipChange;
    OtherMoves(Calm(s).src, s.now, true);
    if s.src.state.Snapshotting? { CalmEnds(s.src, true); }
    Settled(s, Calm(s).src.Finish(ExportCancelled), s.src.Finish(ExportCancelled));
  }

  lemma LossUndisturbed(s: System)
    requires Undisturbed(s)
    ensures Undisturbed(Step(s, SourceConnectionLost))
  {
    CalmIsConnected(s);
    hide Undisturbed, Moves, Advance, Loose, Ready, Source.Finish, Source.ConnectionLost, Source.OwnershipChange;
    OtherMoves(Calm(s).src, s.now, true);
    if s.src.state.Snapshotting? { CalmEnds(s.src, true); }
    Settled(s, Calm(s).src.ConnectionLost(), s.src.ConnectionLost());
  }

  lemma OwnerUndisturbed(s: System, target: bool)
    requires Undisturbed(s)
    ensures Undisturbed(Step(s, OwnershipChange(target)))
  {
    CalmIsConnected(s);
    hide Undisturbed, Moves, Advance, Loose, Ready, Source.Finish, Source.ConnectionLost, Source.OwnershipChange;
    OtherMoves(Calm(s).src, s.now, target);
    if s.src.state.Snapshotting? { CalmEnds(s.src, target); }
    Settled(s, Calm(s).src.OwnershipChange(target), s.src.OwnershipChange(target));
  }

  lemma Settled(s: System, calm: Source, b: Source)
    requires Undisturbed(s) && Moves(Calm(s).src, calm)
    requires if s.src.state.Snapshotting? then Loose(b, calm) else b == calm
    ensures Undisturbed(Advance(s, b))
  {
    hide Undisturbed, Moves, Loose, Advance;
    if !s.src.state.Snapshotting? { LooseMoves(Calm(s).src, calm); }
    MoveUndisturbed(s, s, calm, b);
  }

  /** What an admitted write does: it is executed, remembered, and sent if the client is connected. */
  lemma WriteIs(s: System, effect: Effect) returns (src: Source)
    requires s.forked && s.src.Admits() && !Early(s.src.state) && (s.src.Finished() ==> !s.src.client)
    ensures Step(s, ClientWrite(effect)) == s.(src := src, sent := Step(s, ClientWrite(effect)).sent, history := s.history + [Write(effect)])
    ensures src == s.src.(db := effect(s.src.db), out := src.out, queued := src.queued)
    ensures src.out == s.src.out + if s.src.client then [Write(effect)] else []
    ensures src.queued == (s.src.queued || (s.src.client && s.src.out == [] && !s.src.state.Snapshotting?))
  {
    hide HasPaused;
    src := s.src.ClientWrite(effect);
    NonePaused();
    MarksOf(Write(effect));
    assert s.src.out[|s.src.out|..] == [] && s.history + [] == s.history;
    assert s.src.client ==> src.out == s.src.out + [Write(effect)] && src.out[|s.src.out|..] == [Write(effect)];
  }

  lemma WritePhase(s: System, t: System, w: ToTarget)
    requires Phased(Calm(s)) && w.Write? && !Early(s.src.state)
    requires t == s.(src := t.src, sent := t.sent, history := t.history)
    requires t.src == s.src.(db := t.src.db, out := t.src.out, queued := t.src.queued)
    requires t.src.out == s.src.out + if s.src.client then [w] else []
    requires t.src.queued == (s.src.queued || (s.src.client && s.src.out == [] && !s.src.state.Snapshotting?))
    ensures Phased(Calm(t))
  {
    hide HasEof, HasPauseRequest;
    EofIn(s.src.out, [w]);
    MarksOf(w);
    assert s.src.out + [] == s.src.out;
  }

  lemma WriteStreamed(s: System, t: System, effect: Effect)
    requires Streamed(s) && Contents(s)
    requires t == s.(src := t.src, sent := t.sent, history := s.history + [Write(effect)])
    requires t.src.db == effect(s.src.db) && t.src.client == s.src.client
    requires t.src.out == s.src.out + if s.src.client then [Write(effect)] else []
    ensures Streamed(t) && Contents(t)
  {
    hide Effects, Replay;
    var w, line := Write(effect), s.received + s.toTarget;
    EffectsConcat(line + s.src.out, [w]);
    EffectsOne(w);
    ReplayLast(s.history, w);
    assert line + s.src.out + [w] == line + (s.src.out + [w]);
  }

  lemma WritePausing(s: System, t: System, effect: Effect)
    requires Pausing(s) && s.src.Admits() && t.history == s.history + [Write(effect)]
    requires t.src.state == s.src.state && t.src.pause == s.src.pause && t.tgt == s.tgt && t.received == s.received
    ensures Pausing(t)
  {
    hide HasPaused;
    PausedIn(s.history, [Write(effect)]);
    MarksOf(Write(effect));
    assert OnePaused(t.history);
  }

  lemma WriteUndisturbed(s: System, effect: Effect)
    requires Undisturbed(s)
    ensures Undisturbed(Step(s, ClientWrite(effect)))
  {
    CalmIsConnected(s);
    hide Phased, Streamed, Contents, Pausing, Step;
    if s.src.Admits() {
      assert !Early(s.src.state) by { ForkedIsLate(s); }
      var src := WriteIs(s, effect);
      var t := Step(s, ClientWrite(effect));
      WritePhase(s, t, Write(effect));
      WriteStreamed(s, t, effect);
      WritePausing(s, t, effect);
    } else {
      RefusedWrite(s, effect);
    }
  }

  lemma ForkedIsLate(s: System)
    requires Undisturbed(s)
    ensures !Early(s.src.state)
  {
  }

  lemma RefusedWrite(s: System, effect: Effect)
    requires !s.src.Admits()
    ensures Step(s, ClientWrite(effect)) == s
  {
    assert s.src.out[|s.src.out|..] == [] && s.history + [] == s.history && s.sent + [] == s.sent;
    NonePaused();
  }

  lemma FlushPhase(s: System, t: System, head: seq<ToTarget>, tail: seq<ToTarget>)
    requires Phased(Calm(s)) && s.src.client && s.src.out == head + tail
    requires t == s.(src := s.src.(out := tail, queued := false, handler := tail != []), toTarget := s.toTarget + head)
    ensures Phased(Calm(t))
  {
    hide HasEof, HasPauseRequest;
    EofIn(head, tail);
    EofIn(s.received + s.toTarget, head);
    assert s.received + (s.toTarget + head) == s.received + s.toTarget + head;
  }

  lemma FlushStreamed(s: System, t: System, head: seq<ToTarget>, tail: seq<ToTarget>)
    requires Streamed(s) && Contents(s) && Pausing(s) && s.src.client && s.src.out == head + tail
    requires t == s.(src := s.src.(out := tail, queued := false, handler := tail != []), toTarget := s.toTarget + head)
    ensures Streamed(t) && Contents(t) && Pausing(t)
  {
    hide Effects, Replay, HasPaused;
    assert s.received + (s.toTarget + head) + tail == s.received + s.toTarget + s.src.out;
  }

  lemma FlushUndisturbed(s: System, n: nat)
    requires Undisturbed(s)
    ensures Undisturbed(Step(s, SourceFlush(n)))
  {
    CalmIsConnected(s);
    hide Phased, Streamed, Contents, Pausing;
    if (s.src.queued || s.src.handler) && n <= |s.src.out| {
      var head, tail := s.src.out[..n], s.src.out[n..];
      assert s.src.out == head + tail;
      FlushPhase(s, Step(s, SourceFlush(n)), head, tail);
      FlushStreamed(s, Step(s, SourceFlush(n)), head, tail);
    }
  }

  lemma ChildUndisturbed(s: System)
    requires Undisturbed(s)
    ensures Undisturbed(Step(s, ChildWrites))
  {
    hide Effects, Replay, HasPaused, HasEof, HasPauseRequest;
    if s.src.client && s.src.pipe != [] {
      var line := s.received + s.toTarget;
      assert s.src.pipe[0] == SnapshotEof && s.src.pipe[1..] == [];
      EofIn(line, [SnapshotEof]);
      MarksOf(SnapshotEof);
      EffectsConcat(line, s.src.out);
      EffectsConcat(line, [SnapshotEof]);
      EffectsConcat(line + [SnapshotEof], s.src.out);
      EffectsOne(SnapshotEof);
      assert Effects(line) + [] == Effects(line);
      assert s.received + (s.toTarget + [SnapshotEof]) == line + [SnapshotEof];
    }
  }

  lemma ReceivedPhase(s: System, m: ToTarget, rest: seq<ToTarget>, tgt: Target, replies: seq<ToSource>)
    requires Phased(s) && s.received + s.toTarget == s.received + [m] + rest
    requires |replies| <= 1 && (|replies| == 1 && replies[0].RequestPause? ==> m.SnapshotEof?)
    ensures Phased(s.(tgt := tgt, toTarget := rest, toSource := s.toSource + replies, received := s.received + [m]))
  {
    hide HasEof, HasPauseRequest, Ready;
    EofIn(s.received, [m]);
    MarksOf(m);
    Requests(s.toSource, replies, m);
  }

  lemma ReceivedStreamed(s: System, m: ToTarget, rest: seq<ToTarget>, accept: bool)
    requires Streamed(s) && Contents(s) && Pausing(s) && s.toTarget == [m] + rest && s.tgt.client
    ensures var t := Step(s, TargetReceive(accept)); Streamed(t) && Contents(t) && Pausing(t)
  {
    hide Effects, Replay, HasPaused;
    assert s.received + s.toTarget == s.received + [m] + rest;
    MarksOf(m);
    PausedIn(s.received, [m]);
    ReplayLast(s.received, m);
  }

  lemma ReceivedUndisturbed(s: System, accept: bool)
    requires Undisturbed(s)
    ensures Undisturbed(Step(s, TargetReceive(accept)))
  {
    hide Phased, Streamed, Contents, Pausing;
    if s.tgt.client && s.toTarget != [] {
      var m, rest := s.toTarget[0], s.toTarget[1..];
      var (tgt, replies) := s.tgt.Receive(m, accept);
      assert s.toTarget == [m] + rest && s.received + s.toTarget == s.received + [m] + rest;
      ReceivedPhase(Calm(s), m, rest, tgt, replies);
      ReceivedStreamed(s, m, rest, accept);
    }
  }

  /** The phase depends on the target's replies only. */
  lemma RepliesPhase(s: System, t: System)
    requires Phased(s) && t == s.(tgt := t.tgt, toSource := t.toSource, now := t.now)
    requires HasPauseRequest(t.toSource) ==> HasPauseRequest(s.toSource)
    ensures Phased(t)
  {
    hide HasEof, HasPauseRequest, Ready;
  }

  /** A target step that applies nothing and does not get further in the protocol. */
  lemma QuietUndisturbed(s: System, t: System)
    requires Streamed(s) && Contents(s) && Pausing(s) && t == s.(tgt := t.tgt, toSource := t.toSource, now := t.now)
    requires t.tgt.state == s.tgt.state ==> t.tgt.db == s.tgt.db
    requires t.tgt.state == s.tgt.state || (!t.tgt.InProgress() && !t.tgt.state.NoJob?)
    requires t.tgt.InProgress() ==> t.tgt.client
    ensures Streamed(t) && Contents(t) && Pausing(t)
  {
    hide Effects, Replay, HasPaused;
  }

  lemma TargetUndisturbed(s: System, e: Event)
    requires Undisturbed(s)
    requires e.Tick? || e.TargetProceed? || e.TargetAck? || e.TargetFails? || e.TargetConnectionLost?
    ensures Undisturbed(Step(s, e))
  {
    hide Streamed, Pausing, HasPauseRequest, Phased, Replay;
    Requests(s.toSource, s.tgt.CronAck(), Ack);
    RepliesPhase(Calm(s), Calm(Step(s, e)));
    QuietUndisturbed(s, Step(s, e));
  }

  lemma StallUndisturbed(s: System)
    requires Undisturbed(s)
    ensures Undisturbed(Step(s, PipeStalls))
  {
    assert Calm(Step(s, PipeStalls)) == Calm(s);
    hide Phased, Streamed, Contents, Pausing;
    SameStream(s, Step(s, PipeStalls));
  }

  lemma StepUndisturbed(s: System, e: Event)
    requires Undisturbed(s)
    ensures Undisturbed(Step(s, e))
  {
    hide Undisturbed, Step;
    match e {
      case SourceCron(_, _, _, _, _) => CronUndisturbed(s, e);
      case SourceReceive(_, _) => ReceiveUndisturbed(s, e);
      case SourceFlush(n) => FlushUndisturbed(s, n);
      case ChildWrites => ChildUndisturbed(s);
      case PipeStalls => StallUndisturbed(s);
      case ClientWrite(effect) => WriteUndisturbed(s, effect);
      case TargetReceive(accept) => ReceivedUndisturbed(s, accept);
      case Tick(_) => TargetUndisturbed(s, e);
      case TargetProceed(_) => TargetUndisturbed(s, e);
      case TargetAck => TargetUndisturbed(s, e);
      case TargetFails => TargetUndisturbed(s, e);
      case TargetConnectionLost => TargetUndisturbed(s, e);
      case UpdatePause => OtherUndisturbed(s, e);
      case SourceAck => OtherUndisturbed(s, e);
      case ChildDone(_) => OtherUndisturbed(s, e);
      case SourceCancel => CancelUndisturbed(s);
      case SourceConnectionLost => LossUndisturbed(s);
      case OwnershipChange(target) => OwnerUndisturbed(s, target);
    }
  }

  lemma {:induction false} RunUndisturbed(s: System, events: seq<Event>)
    requires Undisturbed(s)
    ensures Undisturbed(Run(s, events))
  {
    hide Undisturbed, Step;
    if |events| > 0 {
      RunUndisturbed(s, events[..|events| - 1]);
      StepUndisturbed(Run(s, events[..|events| - 1]), events[|events| - 1]);
    }
  }
}

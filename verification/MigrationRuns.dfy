/**
 * Runs of the slot migration protocol: source, target, two FIFO channels and a
 * clock, driven by any sequence of events. Proves that the stream stays in order
 * and that a takeover under a pause that still holds loses nothing.
 */
module MigrationRuns {
  import opened Migration

  /**
   * The two nodes and what is in flight, followed by the history of the run:
   * all the source put on the connection in order, all the target processed, the
   * snapshot taken at the fork, and the slot writes executed since then with
   * PAUSED where the source sent it.
   */
  datatype System = System(
    src: Source, tgt: Target, toTarget: seq<ToTarget>, toSource: seq<ToSource>, now: nat,
    sent: seq<ToTarget>, received: seq<ToTarget>, forked: bool, snapshot: seq<ToTarget>, history: seq<ToTarget>)

  datatype Event =
    | Tick(ms: nat) | UpdatePause
    | SourceCron(timeout: nat, refuse: bool, busy: bool, forkFails: bool, order: seq<string>)
    | SourceAck
    | SourceReceive(timeout: nat, refuse: bool)
    | SourceFlush(n: nat)
    | ChildWrites | PipeStalls
    | ChildDone(ok: bool)
    | ClientWrite(effect: Effect)
    | SourceCancel | SourceConnectionLost | OwnershipChange(target: bool)
    | TargetReceive(accept: bool) | TargetProceed(preventFailover: bool) | TargetAck
    | TargetFails | TargetConnectionLost

  function Start(db: Db): System {
    System(Source(SendEstablish, false, [], false, false, [], db, true, Pause(0, false, 0)),
           Target(NoJob, true, map[], false), [], [], 0, [], [], false, [], [])
  }

  /** The child walks every key once. */
  predicate Walks(order: seq<string>, db: Db) {
    && (forall i: nat, j: nat | i < j < |order| :: order[i] != order[j])
    && (forall i: nat | i < |order| :: order[i] in db)
    && (forall k | k in db :: k in order)
  }

  predicate HasPaused(l: seq<ToTarget>) {
    exists i: nat | i < |l| :: l[i].Paused?
  }

  /** The source's new output joins the history of what was sent. */
  function Advance(s: System, src: Source): System {
    var added := if src.client && |s.src.out| <= |src.out| then src.out[|s.src.out|..] else [];
    s.(src := src, sent := s.sent + added, history := s.history + if HasPaused(added) then [Paused] else [])
  }

  function Step(s: System, e: Event): System {
    match e
    case Tick(ms) => s.(now := s.now + ms)
    case UpdatePause => Advance(s, s.src.(pause := s.src.pause.Update(s.now)))
    case SourceCron(timeout, refuse, busy, forkFails, order) =>
      var src := s.src.Proceed(s.now, timeout, refuse, busy, forkFails, order);
      if s.src.state.WaitingToSnapshot? && src.state.Snapshotting? then
        if Walks(order, s.src.db) then
          s.(src := src, sent := s.sent + src.pipe, forked := true, snapshot := Snapshot(s.src.db, order))
        else s
      else Advance(s, src)
    case SourceAck => Advance(s, s.src.CronAck())
    case SourceReceive(timeout, refuse) =>
      if !s.src.client || s.toSource == [] then s
      else Advance(s.(toSource := s.toSource[1..]), s.src.Receive(s.toSource[0], s.now, timeout, refuse))
    case SourceFlush(n) =>
      if !(s.src.queued || s.src.handler) || n > |s.src.out| then s
      else s.(src := s.src.Flushed(n), toTarget := s.toTarget + s.src.out[..n])
    case ChildWrites =>
      if !s.src.client || s.src.pipe == [] then s
      else s.(src := s.src.(pipe := s.src.pipe[1..]), toTarget := s.toTarget + [s.src.pipe[0]])
    case PipeStalls => s.(src := s.src.PipeStalled())
    case ChildDone(ok) =>
      if ok && s.src.pipe != [] then s else Advance(s, s.src.ChildDone(ok))
    case ClientWrite(effect) =>
      var next := Advance(s, s.src.ClientWrite(effect));
      if s.forked && s.src.Admits() then next.(history := next.history + [Write(effect)]) else next
    case SourceCancel =>
      if s.src.Finished() then s else Advance(s, s.src.Finish(ExportCancelled))
    case SourceConnectionLost => Advance(s, s.src.ConnectionLost())
    case OwnershipChange(target) =>
      if target && !s.tgt.owns then s else Advance(s, s.src.OwnershipChange(target))
    case TargetReceive(accept) =>
      if !s.tgt.client || s.toTarget == [] then s
      else
        var (tgt, replies) := s.tgt.Receive(s.toTarget[0], accept);
        s.(tgt := tgt, toTarget := s.toTarget[1..], toSource := s.toSource + replies,
           received := s.received + [s.toTarget[0]])
    case TargetProceed(prevent) => s.(tgt := s.tgt.Proceed(prevent))
    case TargetAck => s.(toSource := s.toSource + s.tgt.CronAck())
    case TargetFails => if s.tgt.InProgress() then s.(tgt := s.tgt.Fail()) else s
    case TargetConnectionLost => s.(tgt := s.tgt.ConnectionLost())
  }

  /** This cron pass starts the snapshot. */
  predicate Forks(s: System, e: Event) {
    s.src.state.WaitingToSnapshot? && e.SourceCron? && !e.busy && !e.forkFails && !s.src.queued && Walks(e.order, s.src.db)
  }

  /**
   * The one thing the code leaves open: the fork waits for the pending-write flag
   * to clear, which does not cover a partly written buffer whose rest waits for
   * the write handler.
   */
  predicate CleanFork(s: System, e: Event) {
    Forks(s, e) ==> !s.src.handler
  }

  function Run(s: System, events: seq<Event>): System {
    if events == [] then s else Step(Run(s, events[..|events| - 1]), events[|events| - 1])
  }

  ghost predicate CleanRun(s: System, events: seq<Event>) {
    forall i: nat | i < |events| :: CleanFork(Run(s, events[..i]), events[i])
  }

  // ---- Streams ---------------------------------------------------------------------

  predicate IsData(m: ToTarget) {
    m.Restore? || m.SnapshotEof? || m.Write? || m.Paused?
  }

  /** A stream without handshake and liveness messages. */
  function Data(l: seq<ToTarget>): seq<ToTarget> {
    if |l| == 0 then []
    else Data(l[..|l| - 1]) + if IsData(l[|l| - 1]) then [l[|l| - 1]] else []
  }

  lemma {:induction false} DataConcat(a: seq<ToTarget>, b: seq<ToTarget>)
    ensures Data(a + b) == Data(a) + Data(b)
    decreases |b|
  {
    if |b| == 0 {
      assert a + b == a;
    } else {
      DataConcat(a, b[..|b| - 1]);
      assert (a + b)[..|a + b| - 1] == a + b[..|b| - 1];
    }
  }

  lemma {:induction false} NoData(l: seq<ToTarget>)
    requires forall i: nat | i < |l| :: !IsData(l[i])
    ensures Data(l) == []
  {
    if |l| > 0 { NoData(l[..|l| - 1]); }
  }

  lemma {:induction false} AllData(l: seq<ToTarget>)
    requires forall i: nat | i < |l| :: IsData(l[i])
    ensures Data(l) == l
  {
    if |l| > 0 {
      AllData(l[..|l| - 1]);
      assert l == l[..|l| - 1] + [l[|l| - 1]];
    }
  }

  lemma DataPrefix(a: seq<ToTarget>, b: seq<ToTarget>)
    requires a <= b
    ensures Data(a) <= Data(b)
  {
    DataConcat(a, b[|a|..]);
    assert a + b[|a|..] == b;
  }

  /** What a stream leaves in slots that were empty. */
  function Replay(l: seq<ToTarget>): Db {
    if |l| == 0 then map[] else Apply(Replay(l[..|l| - 1]), l[|l| - 1])
  }

  lemma ReplayLast(l: seq<ToTarget>, m: ToTarget)
    ensures Replay(l + [m]) == Apply(Replay(l), m)
  {
    assert (l + [m])[..|l|] == l;
  }

  lemma {:induction false} ReplayData(l: seq<ToTarget>)
    ensures Replay(Data(l)) == Replay(l)
  {
    if |l| > 0 {
      ReplayData(l[..|l| - 1]);
      if IsData(l[|l| - 1]) {
        ReplayLast(Data(l[..|l| - 1]), l[|l| - 1]);
      } else {
        assert Data(l) == Data(l[..|l| - 1]);
      }
    }
  }

  lemma {:induction false} SnapshotIsData(db: Db, order: seq<string>)
    ensures AllRestores(Snapshot(db, order))
  {
    if |order| > 0 { SnapshotIsData(db, order[..|order| - 1]); }
  }

  ghost predicate AllRestores(l: seq<ToTarget>) {
    forall i: nat | i < |l| :: l[i].Restore?
  }

  /** `part` is `db` restricted to the keys walked. */
  ghost predicate Restricts(part: Db, db: Db, order: seq<string>) {
    && (forall k :: k in part <==> k in db && k in order)
    && (forall k | k in part :: part[k] == db[k])
  }

  lemma {:induction false} SnapshotSoFar(db: Db, order: seq<string>)
    ensures Restricts(Replay(Snapshot(db, order)), db, order)
  {
    if |order| > 0 {
      var front, last := order[..|order| - 1], order[|order| - 1];
      SnapshotSoFar(db, front);
      assert forall k | k in order :: k in front || k == last;
      if last in db {
        ReplayLast(Snapshot(db, front), Restore(last, db[last]));
      } else {
        assert Snapshot(db, order) == Snapshot(db, front);
      }
    }
  }

  /** The child's commands rebuild the contents at the fork, whatever the order of the walk. */
  lemma SnapshotRestores(db: Db, order: seq<string>)
    requires Walks(order, db)
    ensures Replay(Snapshot(db, order) + [SnapshotEof]) == db
  {
    SnapshotSoFar(db, order);
    ReplayLast(Snapshot(db, order), SnapshotEof);
  }

  // ---- The invariant ------------------------------------------------------------------

  /** What the target is to apply: the snapshot, its end, then every write since the fork. */
  function Whole(s: System): seq<ToTarget> {
    s.snapshot + [SnapshotEof] + s.history
  }

  predicate Early(state: ExportState) {
    state.SendEstablish? || state.ReadEstablishResponse? || state.WaitingToSnapshot?
  }

  /**
   * The source by itself: a connected job is in progress and the reverse until the
   * grant; buffered output is scheduled for writing except during the snapshot,
   * and the pipe is used only then.
   */
  ghost predicate Ready(a: Source) {
    && (a.client ==> !a.Finished() && !a.state.SendEstablish?)
    && (!a.client ==> a.out == [] && !a.queued && !a.handler
                      && (a.Finished() || a.state.SendEstablish? || a.state.FailoverGranted?))
    && (a.state.Snapshotting? ==> !a.queued && !a.handler)
    && (a.client && a.out != [] && !a.state.Snapshotting? ==> a.queued || a.handler)
    && (a.client && a.pipe != [] ==> a.state.Snapshotting?)
    && (Early(a.state) ==> a.pipe == [])
  }

  /** What the job may send in one step, and the state it is then in. */
  ghost predicate Sends(before: ExportState, after: ExportState, m: ToTarget) {
    match m
    case Establish => before.SendEstablish? && after.ReadEstablishResponse?
    case Ack => (before.ReadEstablishResponse? && after.WaitingToSnapshot?)
                || (before == after && !before.SendEstablish? && !before.Snapshotting?)
    case Paused => (before.Snapshotting? || before.Streaming? || before.WaitingToPause?) && after.FailoverPaused?
    case Granted => before.FailoverPaused? && after.FailoverGranted?
    case _ => false
  }

  ghost predicate Silent(before: ExportState, after: ExportState) {
    before == after || (before.Snapshotting? && after.Streaming?)
    || ((before.Snapshotting? || before.Streaming?) && after.WaitingToPause?)
  }

  /** A step of the job that runs no client write: it disconnects, or sends at most one message. */
  ghost predicate Moves(a: Source, b: Source) {
    && Ready(b) && b.db == a.db
    && (a.state.FailoverPaused? && b.state.FailoverPaused? && b.pause.on ==> a.pause.on)
    && (!a.state.FailoverGranted? && b.state.FailoverGranted? ==> a.state.FailoverPaused? && a.pause.on)
    && (b.client ==> b.pipe == a.pipe && (a.client || a.state.SendEstablish?))
    && (if b.client then
          || (b.out == a.out && Silent(a.state, b.state))
          || (|b.out| == |a.out| + 1 && b.out[..|a.out|] == a.out && Sends(a.state, b.state, b.out[|a.out|]))
        else b.Finished() || b.state == a.state)
  }

  lemma FinishMoves(a: Source, final: ExportState)
    requires Ready(a) && (final.ExportFailed? || final.ExportCancelled? || final.ExportSuccess?)
    ensures Moves(a, a.Finish(final))
  {
  }

  lemma SendMoves(a: Source, b: Source, m: ToTarget)
    requires Ready(a) && b.db == a.db && b.pipe == a.pipe && b.client && (a.client || a.state.SendEstablish?)
    requires b.out == a.out + [m] && Sends(a.state, b.state, m) && b.handler == a.handler
    requires (m.Ack? ==> b.pause == a.pause) && (m.Granted? ==> a.pause.on)
    requires b.queued == (a.queued || a.out == [] || a.state.Snapshotting?)
    requires a.state.Snapshotting? ==> a.pipe == []
    ensures Moves(a, b)
  {
  }

  lemma SilentMoves(a: Source, b: Source)
    requires Ready(a) && b.db == a.db && b.pipe == a.pipe && b.client == a.client
    requires b.out == a.out && b.handler == a.handler && Silent(a.state, b.state) && (b.pause.on ==> a.pause.on)
    requires b.queued == (a.queued || (a.client && a.state != b.state && a.state.Snapshotting?))
    requires a.state != b.state ==> a.pipe == [] && a.client
    ensures Moves(a, b)
  {
  }

  lemma Down(a: Source, b: Source)
    requires Ready(a) && b.Finished() && !b.client && b.out == [] && !b.queued && !b.handler && b.db == a.db
    ensures Moves(a, b)
  {
  }

  lemma PauseMoves(a: Source, now: nat, timeout: nat, refuse: bool)
    requires Ready(a) && (a.state.Streaming? || a.state.WaitingToPause?)
    ensures Moves(a, a.TryPause(now, timeout, refuse))
  {
    hide Moves, Pause.Until;
    if refuse {
      SilentMoves(a, a.TryPause(now, timeout, refuse));
    } else {
      SendMoves(a, a.TryPause(now, timeout, refuse), Paused);
    }
  }

  lemma RequestPauseMoves(a: Source, now: nat, timeout: nat, refuse: bool)
    requires Ready(a) && a.client && a.pipe == []
    ensures Moves(a, a.OnRequestPause(now, timeout, refuse))
  {
    hide Moves, Pause.Until;
    var b := a.OnRequestPause(now, timeout, refuse);
    if a.state.Streaming? {
      PauseMoves(a, now, timeout, refuse);
    } else if !a.state.Snapshotting? {
      Down(a, b);
    } else if refuse {
      SilentMoves(a, b);
    } else {
      SendMoves(a, b, Paused);
    }
  }

  lemma RequestFailoverMoves(a: Source, now: nat)
    requires Ready(a) && a.client
    ensures Moves(a, a.OnRequestFailover(now))
  {
    hide Moves, Pause.Until;
    if !a.state.FailoverPaused? || a.pause.TimedOut(now) {
      FinishMoves(a, ExportFailed);
    } else {
      SendMoves(a, a.OnRequestFailover(now), Granted);
    }
  }

  lemma ReceiveMoves(a: Source, m: ToSource, now: nat, timeout: nat, refuse: bool)
    requires Ready(a) && a.client && (m.RequestPause? ==> a.pipe == [])
    ensures Moves(a, a.Receive(m, now, timeout, refuse))
  {
    hide Moves, Source.OnRequestPause, Source.OnRequestFailover;
    match m {
      case RequestPause => RequestPauseMoves(a, now, timeout, refuse);
      case RequestFailover => RequestFailoverMoves(a, now);
      case AckBack => SilentMoves(a, a);
      case _ =>
        if !a.state.ReadEstablishResponse? {
          SilentMoves(a, a);
        } else if m.Refused? {
          FinishMoves(a, ExportFailed);
        } else {
          SendMoves(a, a.OnEstablishReply(true), Ack);
        }
    }
  }

  lemma CronMoves(a: Source, now: nat, timeout: nat, refuse: bool, busy: bool, forkFails: bool, order: seq<string>)
    requires Ready(a)
    ensures var b := a.Proceed(now, timeout, refuse, busy, forkFails, order);
            Moves(a, b) || (a.state.WaitingToSnapshot? && b.state.Snapshotting?)
  {
    hide Moves, Snapshot, Pause.Update, Source.TryPause;
    var b := a.Proceed(now, timeout, refuse, busy, forkFails, order);
    FinishMoves(a, ExportFailed);
    if a.state.SendEstablish? {
      SendMoves(a, b, Establish);
    } else if a.state.WaitingToPause? {
      PauseMoves(a, now, timeout, refuse);
    } else if b.Finished() {
      if !a.Finished() { Down(a, b); }
    }
    SilentMoves(a, a);
  }

  lemma OtherMoves(a: Source, now: nat, target: bool)
    requires Ready(a)
    ensures Moves(a, a.CronAck()) && Moves(a, a.(pause := a.pause.Update(now)))
    ensures Moves(a, a.ConnectionLost()) && Moves(a, a.OwnershipChange(target))
    ensures Moves(a, a.Finish(ExportCancelled))
  {
    hide Moves;
    FinishMoves(a, ExportCancelled);
    if a.CronAck() == a { SilentMoves(a, a); } else { SendMoves(a, a.CronAck(), Ack); }
    SilentMoves(a, a.(pause := a.pause.Update(now)));
    LossMoves(a);
    if a.Finished() { SilentMoves(a, a.OwnershipChange(target)); } else { Down(a, a.OwnershipChange(target)); }
  }

  lemma LossMoves(a: Source)
    requires Ready(a)
    ensures Moves(a, a.ConnectionLost())
  {
  }

  lemma ChildDoneMoves(a: Source, ok: bool)
    requires Ready(a) && (ok ==> a.pipe == [])
    ensures Moves(a, a.ChildDone(ok))
  {
  }

  // ---- The invariant of the system --------------------------------------------------------

  ghost predicate HasEof(l: seq<ToTarget>) {
    exists i: nat | i < |l| :: l[i].SnapshotEof?
  }

  lemma EofIn(a: seq<ToTarget>, b: seq<ToTarget>)
    ensures HasEof(a + b) <==> HasEof(a) || HasEof(b)
  {
    if i: nat :| i < |a| && a[i].SnapshotEof? { assert (a + b)[i] == a[i]; }
    if i: nat :| i < |b| && b[i].SnapshotEof? { assert (a + b)[|a| + i] == b[i]; }
  }

  ghost predicate HasPauseRequest(l: seq<ToSource>) {
    exists i: nat | i < |l| :: l[i].RequestPause?
  }

  /** The fork starts the stream, and a pause is asked for only after the snapshot's end arrived. */
  ghost predicate Phased(s: System) {
    && Ready(s.src)
    && (Early(s.src.state) ==> !s.forked)
    && (s.src.Feeding() ==> s.forked)
    && (!s.forked ==> !HasEof(s.received + s.toTarget))
    && (s.src.client && s.src.pipe != [] ==>
          && !HasEof(s.received + s.toTarget)
          && s.src.pipe[|s.src.pipe| - 1].SnapshotEof?
          && !HasEof(s.src.pipe[..|s.src.pipe| - 1]))
    && (HasPauseRequest(s.toSource) ==> HasEof(s.received))
    && !HasEof(s.src.out)
  }

  /** The connection is FIFO and loses at most what was still to be sent. */
  ghost predicate InTransit(s: System) {
    if s.src.client || s.src.state.SendEstablish? then s.received + s.toTarget + s.src.pipe + s.src.out == s.sent
    else s.received + s.toTarget <= s.sent
  }

  /** A source step outside client writes, with the message it consumed taken off the channel. */
  lemma MoveOf(s: System, e: Event) returns (base: System, b: Source)
    requires Phased(s) && !e.Tick? && !e.SourceFlush? && !e.ChildWrites? && !e.PipeStalls? && !e.ClientWrite?
    requires !e.TargetReceive? && !e.TargetProceed? && !e.TargetAck? && !e.TargetFails? && !e.TargetConnectionLost?
    requires Step(s, e) != s
    requires e.SourceCron? ==> !(s.src.state.WaitingToSnapshot? && Step(s, e).src.state.Snapshotting?)
    ensures base == s || (s.toSource != [] && base == s.(toSource := s.toSource[1..]))
    ensures Moves(s.src, b) && Step(s, e) == Advance(base, b)
  {
    hide Moves, Source.Proceed, Source.Receive, Source.CronAck, Source.Finish, Source.ConnectionLost, Source.OwnershipChange, Source.ChildDone, Advance;
    base := s;
    match e {
      case UpdatePause =>
        b := s.src.(pause := s.src.pause.Update(s.now));
        OtherMoves(s.src, s.now, true);
      case SourceCron(timeout, refuse, busy, forkFails, order) =>
        b := s.src.Proceed(s.now, timeout, refuse, busy, forkFails, order);
        CronMoves(s.src, s.now, timeout, refuse, busy, forkFails, order);
      case SourceAck =>
        b := s.src.CronAck();
        OtherMoves(s.src, s.now, true);
      case SourceReceive(timeout, refuse) =>
        base := s.(toSource := s.toSource[1..]);
        b := s.src.Receive(s.toSource[0], s.now, timeout, refuse);
        EofIn(s.received, s.toTarget);
        ReceiveMoves(s.src, s.toSource[0], s.now, timeout, refuse);
      case ChildDone(ok) =>
        b := s.src.ChildDone(ok);
        ChildDoneMoves(s.src, ok);
      case SourceCancel =>
        b := s.src.Finish(ExportCancelled);
        OtherMoves(s.src, s.now, true);
      case SourceConnectionLost =>
        b := s.src.ConnectionLost();
        OtherMoves(s.src, s.now, true);
      case OwnershipChange(target) =>
        b := s.src.OwnershipChange(target);
        OtherMoves(s.src, s.now, target);
    }
  }

  lemma MoveKeepsPhase(s: System, base: System, b: Source)
    requires Phased(s) && Moves(s.src, b) && (base == s || (s.toSource != [] && base == s.(toSource := s.toSource[1..])))
    ensures Phased(Advance(base, b))
  {
    var a := s.src;
    if |b.out| == |a.out| + 1 && b.client {
      assert b.out == b.out[..|a.out|] + [b.out[|a.out|]];
      EofIn(a.out, [b.out[|a.out|]]);
      assert !HasEof(b.out);
    }
    assert HasPauseRequest(base.toSource) ==> HasPauseRequest(s.toSource) by {
      if i: nat :| i < |base.toSource| && base.toSource[i].RequestPause? {
        assert base == s || s.toSource[i + 1].RequestPause?;
      }
    }
  }

  /** What a move adds to the history. */
  lemma MoveAdds(s: System, base: System, b: Source) returns (added: seq<ToTarget>)
    requires Ready(s.src) && Moves(s.src, b) && base == s.(toSource := base.toSource)
    ensures var next := Advance(base, b);
            && next.sent == s.sent + added && next.src == b && next.forked == s.forked && next.snapshot == s.snapshot
            && next.tgt == s.tgt && next.received == s.received && next.toTarget == s.toTarget
            && next.history == s.history + if |added| == 1 && added[0].Paused? then [Paused] else []
    ensures b.client ==> b.pipe == s.src.pipe && (s.src.client || s.src.state.SendEstablish?)
    ensures |added| <= 1 && (b.client ==> |s.src.out| <= |b.out| && added == b.out[|s.src.out|..])
    ensures |added| == 1 ==> b.client && !b.state.SendEstablish? && Sends(s.src.state, b.state, added[0])
    ensures b.state.SendEstablish? ==> s.src.state.SendEstablish?
  {
    added := if b.client then b.out[|s.src.out|..] else [];
    assert HasPaused(added) <==> |added| == 1 && added[0].Paused?;
  }

  lemma MoveKeepsTransit(s: System, base: System, b: Source)
    requires Phased(s) && InTransit(s) && Moves(s.src, b) && base == s.(toSource := base.toSource)
    ensures InTransit(Advance(base, b))
  {
    hide Advance, HasEof, HasPauseRequest;
    var added := MoveAdds(s, base, b);
    var line := s.received + s.toTarget;
    if b.client {
      assert b.out == s.src.out + added;
      Append(line, s.src.pipe, s.src.out, added);
    } else {
      assert s.sent + added == s.sent;
      Append(line, [], s.src.pipe, s.src.out);
    }
  }

  lemma Append(a: seq<ToTarget>, b: seq<ToTarget>, c: seq<ToTarget>, d: seq<ToTarget>)
    ensures a + b + (c + d) == a + b + c + d
    ensures a + [] == a
  {
  }

  // ---- Order --------------------------------------------------------------------------------

  /** What was sent is the whole stream, or a prefix of it once the job is disconnected. */
  ghost predicate InOrder(s: System) {
    && (!s.forked ==> Data(s.sent) == [] && s.history == [])
    && AllRestores(s.snapshot)
    && (s.forked && s.src.client ==> Data(s.sent) == Whole(s))
    && (s.forked ==> Data(s.sent) <= Whole(s))
    && (forall i: nat | 0 < i < |s.sent| :: !s.sent[i].Establish?)
    && (s.src.state.SendEstablish? ==> s.sent == [])
  }

  lemma MoveKeepsOrder(s: System, base: System, b: Source)
    requires Phased(s) && InOrder(s) && Moves(s.src, b) && base == s.(toSource := base.toSource)
    ensures InOrder(Advance(base, b))
  {
    hide Data, Moves, Advance;
    var added := MoveAdds(s, base, b);
    DataConcat(s.sent, added);
    if |added| == 0 {
      NoData(added);
      assert Advance(base, b).sent == s.sent && Advance(base, b).history == s.history;
    } else if added[0].Paused? {
      AllData(added);
      assert Whole(Advance(base, b)) == Whole(s) + added;
    } else {
      NoData(added);
    }
  }

  // ---- Contents ------------------------------------------------------------------------------

  /** The source holds what the whole stream leaves, the target what it received of it. */
  ghost predicate Consistent(s: System) {
    && (s.forked ==> s.src.db == Replay(Whole(s)))
    && (s.tgt.state.NoJob? ==> s.tgt.db == map[])
    && (s.tgt.InProgress() ==> s.tgt.db == Replay(s.received))
  }

  lemma MoveKeepsContents(s: System, base: System, b: Source)
    requires Phased(s) && Consistent(s) && Moves(s.src, b) && base == s.(toSource := base.toSource)
    ensures Consistent(Advance(base, b))
  {
    hide Replay;
    if HasPaused(if b.client then b.out[|s.src.out|..] else []) {
      ReplayLast(Whole(s), Paused);
      assert Whole(Advance(base, b)) == Whole(s) + [Paused];
    } else {
      assert s.history + [] == s.history;
    }
  }

  // ---- The pause ---------------------------------------------------------------------------------

  /** A slot write was executed after the source sent PAUSED. */
  ghost predicate WroteSincePaused(s: System) {
    HasPaused(s.history) && !s.history[|s.history| - 1].Paused?
  }

  ghost predicate OnePaused(l: seq<ToTarget>) {
    forall i: nat, j: nat | i < j < |l| :: !(l[i].Paused? && l[j].Paused?)
  }

  ghost predicate Pausing(s: System) {
    && (s.src.state.FailoverPaused? || s.src.state.FailoverGranted? ==> HasPaused(s.history))
    && (!s.src.Finished() && HasPaused(s.history) ==> s.src.state.FailoverPaused? || s.src.state.FailoverGranted?)
    && OnePaused(s.history)
    && (forall i: nat | i < |s.history| :: s.history[i].Write? || s.history[i].Paused?)
    && (s.src.state.FailoverPaused? && WroteSincePaused(s) ==> !s.src.pause.on)
    && (s.tgt.state.FailoverRequested? || s.tgt.state.ImportGranted? ==> HasPaused(s.received))
  }

  lemma PausedIn(a: seq<ToTarget>, b: seq<ToTarget>)
    ensures HasPaused(a + b) <==> HasPaused(a) || HasPaused(b)
  {
    if i: nat :| i < |a| && a[i].Paused? { assert (a + b)[i] == a[i]; }
    if i: nat :| i < |b| && b[i].Paused? { assert (a + b)[|a| + i] == b[i]; }
  }

  lemma MoveKeepsPausing(s: System, base: System, b: Source)
    requires Phased(s) && Pausing(s) && Moves(s.src, b) && base == s.(toSource := base.toSource)
    ensures Pausing(Advance(base, b))
  {
    hide HasPaused, Advance;
    var added := MoveAdds(s, base, b);
    var next := Advance(base, b);
    if |added| == 1 && added[0].Paused? {
      PausedIn(s.history, [Paused]);
      MarkPaused(s.history);
    } else {
      assert next.history == s.history;
    }
  }

  lemma MarkPaused(h: seq<ToTarget>)
    ensures HasPaused(h + [Paused]) && (!HasPaused(h) ==> OnePaused(h + [Paused]))
  {
    assert (h + [Paused])[|h|].Paused?;
  }

  // ---- Every step keeps the invariant ------------------------------------------------------------

  ghost predicate Inv(s: System) {
    Phased(s) && InTransit(s) && InOrder(s) && Consistent(s) && Pausing(s)
    && (s.tgt.InProgress() ==> s.tgt.client)
  }

  lemma ForkKeeps(s: System, src: Source, order: seq<string>)
    requires Inv(s) && s.src.state.WaitingToSnapshot? && !s.src.queued && !s.src.handler && Walks(order, s.src.db)
    requires src == s.src.(pipe := Snapshot(s.src.db, order) + [SnapshotEof], state := Snapshotting)
    ensures Inv(s.(src := src, sent := s.sent + src.pipe, forked := true, snapshot := Snapshot(s.src.db, order)))
  {
    hide Data, Snapshot, Replay, Walks;
    var snapshot := Snapshot(s.src.db, order);
    assert src.pipe[..|src.pipe| - 1] == snapshot;
    SnapshotIsData(s.src.db, order);
    AllData(src.pipe);
    DataConcat(s.sent, src.pipe);
    SnapshotRestores(s.src.db, order);
    assert snapshot + [SnapshotEof] + s.history == src.pipe;
    assert s.received + s.toTarget + s.src.pipe + s.src.out == s.received + s.toTarget;
  }

  /** The parts of the invariant that a transfer from buffer to connection does not touch. */
  lemma TransferKeeps(s: System, next: System)
    requires InOrder(s) && Consistent(s) && Pausing(s)
    requires next == s.(src := next.src, toTarget := next.toTarget)
    requires next.src == s.src.(out := next.src.out, queued := next.src.queued, handler := next.src.handler, pipe := next.src.pipe)
    ensures InOrder(next) && Consistent(next) && Pausing(next)
  {
    hide Data, Replay;
  }

  lemma WrittenKeeps(s: System, next: System, head: seq<ToTarget>, tail: seq<ToTarget>)
    requires Phased(s) && InTransit(s) && (s.src.queued || s.src.handler) && s.src.out == head + tail
    requires next.src == s.src.(out := tail, queued := false, handler := tail != [])
    requires next == s.(src := next.src, toTarget := s.toTarget + head)
    ensures Phased(next) && InTransit(next)
  {
    hide HasEof, HasPauseRequest;
    EofIn(head, tail);
    EofIn(s.received + s.toTarget, head);
    var line := s.received + s.toTarget;
    assert s.received + next.toTarget == line + head;
    Append(line, [], head, tail);
  }

  lemma FlushKeeps(s: System, n: nat)
    requires Inv(s)
    ensures Inv(Step(s, SourceFlush(n)))
  {
    hide Consistent, Pausing, InOrder, Phased, InTransit;
    var next := Step(s, SourceFlush(n));
    TransferKeeps(s, next);
    if (s.src.queued || s.src.handler) && n <= |s.src.out| {
      WrittenKeeps(s, next, s.src.out[..n], s.src.out[n..]);
    }
  }

  lemma ChildWritesKeeps(s: System)
    requires Inv(s)
    ensures Inv(Step(s, ChildWrites))
  {
    hide Consistent, Pausing, InOrder, HasEof, HasPauseRequest;
    TransferKeeps(s, Step(s, ChildWrites));
    if s.src.client && s.src.pipe != [] {
      var head, tail := [s.src.pipe[0]], s.src.pipe[1..];
      assert s.src.pipe == head + tail;
      EofIn(s.received + s.toTarget, head);
      MarksOf(head[0]);
      assert s.received + (s.toTarget + head) == s.received + s.toTarget + head;
      assert s.received + s.toTarget + head + tail + s.src.out == s.received + s.toTarget + s.src.pipe + s.src.out;
      if tail != [] {
        var front := s.src.pipe[..|s.src.pipe| - 1];
        assert front == head + tail[..|tail| - 1];
        EofIn(head, tail[..|tail| - 1]);
      }
    }
  }

  lemma TargetReceiveKeeps(s: System, accept: bool)
    requires Inv(s)
    ensures Inv(Step(s, TargetReceive(accept)))
  {
    hide Phased, Consistent, Pausing, Data;
    if s.tgt.client && s.toTarget != [] {
      var m, rest := s.toTarget[0], s.toTarget[1..];
      var (tgt, replies) := s.tgt.Receive(m, accept);
      assert s.received + s.toTarget == s.received + [m] + rest;
      assert m == s.sent[|s.received|];
      DeliveryKeepsPhase(s, m, rest, tgt, replies);
      DeliveryKeepsContents(s, m, rest, tgt, replies);
    }
  }

  lemma DeliveryKeepsPhase(s: System, m: ToTarget, rest: seq<ToTarget>, tgt: Target, replies: seq<ToSource>)
    requires Phased(s) && InTransit(s) && s.received + s.toTarget == s.received + [m] + rest
    requires |replies| <= 1 && (|replies| == 1 && replies[0].RequestPause? ==> m.SnapshotEof?)
    ensures var next := s.(tgt := tgt, toTarget := rest, toSource := s.toSource + replies, received := s.received + [m]);
            Phased(next) && InTransit(next)
  {
    hide HasEof, HasPauseRequest, Ready;
    EofIn(s.received, [m]);
    MarksOf(m);
    Requests(s.toSource, replies, m);
  }

  lemma DeliveryKeepsContents(s: System, m: ToTarget, rest: seq<ToTarget>, tgt: Target, replies: seq<ToSource>)
    requires InOrder(s) && Consistent(s) && Pausing(s) && exists accept :: (tgt, replies) == s.tgt.Receive(m, accept)
    requires m.Establish? ==> s.received == []
    ensures var next := s.(tgt := tgt, toTarget := rest, toSource := s.toSource + replies, received := s.received + [m]);
            InOrder(next) && Consistent(next) && Pausing(next)
  {
    hide Data, Replay, HasPaused;
    ReplayLast(s.received, m);
    ReplayNothing();
    PausedIn(s.received, [m]);
    MarksOf(m);
  }

  lemma MarksOf(m: ToTarget)
    ensures HasPaused([m]) <==> m.Paused?
    ensures HasEof([m]) <==> m.SnapshotEof?
  {
    assert [m][0] == m;
  }

  lemma Requests(l: seq<ToSource>, replies: seq<ToSource>, m: ToTarget)
    requires |replies| <= 1 && (|replies| == 1 && replies[0].RequestPause? ==> m.SnapshotEof?)
    ensures HasPauseRequest(l + replies) ==> HasPauseRequest(l) || m.SnapshotEof?
  {
    if i: nat :| i < |l + replies| && (l + replies)[i].RequestPause? {
      assert i < |l| ==> l[i].RequestPause?;
    }
  }

  lemma ReplayNothing()
    ensures Replay([]) == map[]
  {
  }

  /** A target step that applies nothing and does not get further in the protocol. */
  lemma QuietTargetKeeps(s: System, next: System)
    requires Inv(s) && next == s.(tgt := next.tgt, toSource := next.toSource, now := next.now)
    requires HasPauseRequest(next.toSource) ==> HasPauseRequest(s.toSource)
    requires next.tgt.state == s.tgt.state ==> next.tgt.db == s.tgt.db
    requires next.tgt.state == s.tgt.state || (!next.tgt.InProgress() && !next.tgt.state.NoJob?)
    requires next.tgt.InProgress() ==> next.tgt.client
    ensures Inv(next)
  {
    hide Data, Replay, HasPaused, HasEof, HasPauseRequest, Ready, OnePaused, AllRestores;
  }

  lemma TargetKeeps(s: System, e: Event)
    requires Inv(s) && (e.TargetProceed? || e.TargetAck? || e.TargetFails? || e.TargetConnectionLost? || e.Tick?)
    ensures Inv(Step(s, e))
  {
    hide Phased, InTransit, InOrder, Consistent, Pausing;
    Requests(s.toSource, s.tgt.CronAck(), Ack);
    QuietTargetKeeps(s, Step(s, e));
  }

  /** A write while the job is fed: executed, then put at the end of the stream. */
  lemma FedWriteKeeps(s: System, src: Source, effect: Effect)
    requires Inv(s) && s.src.Admits() && s.src.client && s.src.Feeding()
    requires src == s.src.(db := effect(s.src.db)).Send(Write(effect))
    ensures Inv(s.(src := src, sent := s.sent + [Write(effect)], history := s.history + [Write(effect)]))
  {
    hide Data, Replay, HasPaused, HasEof, HasPauseRequest;
    var w := Write(effect);
    var next := s.(src := src, sent := s.sent + [w], history := s.history + [w]);
    EofIn(s.src.out, [w]);
    PausedIn(s.history, [w]);
    MarksOf(w);
    Append(s.received + s.toTarget, s.src.pipe, s.src.out, [w]);
    DataConcat(s.sent, [w]);
    AllData([w]);
    assert Whole(next) == Whole(s) + [w];
    ReplayLast(Whole(s), w);
    assert OnePaused(next.history);
  }

  lemma UnfedWriteKeeps(s: System, effect: Effect)
    requires Inv(s) && s.src.Admits() && !(s.src.client && s.src.Feeding())
    ensures Inv(s.(src := s.src.(db := effect(s.src.db)),
                   history := if s.forked then s.history + [Write(effect)] else s.history))
  {
    hide Data, Replay, HasPaused, HasEof, HasPauseRequest;
    if s.forked {
      var w := Write(effect);
      PausedIn(s.history, [w]);
      MarksOf(w);
      assert Whole(s.(history := s.history + [w])) == Whole(s) + [w];
      ReplayLast(Whole(s), w);
      assert OnePaused(s.history + [w]);
    }
  }

  lemma ClientWriteKeeps(s: System, effect: Effect)
    requires Inv(s)
    ensures Inv(Step(s, ClientWrite(effect)))
  {
    hide Inv;
    var next := Step(s, ClientWrite(effect));
    var src := s.src.ClientWrite(effect);
    if !s.src.Admits() {
      assert next == s by { assert s.src.out[|s.src.out|..] == []; assert s.sent + [] == s.sent; assert s.history + [] == s.history; }
    } else if s.src.client && s.src.Feeding() {
      assert src.out[|s.src.out|..] == [Write(effect)];
      assert s.history + [] == s.history && !HasPaused([Write(effect)]);
      assert s.forked by { assert Phased(s) by { Reveals(s); } }
      FedWriteKeeps(s, src, effect);
    } else {
      assert src.out[|s.src.out|..] == [] && s.sent + [] == s.sent && s.history + [] == s.history;
      UnfedWriteKeeps(s, effect);
    }
  }

  lemma Reveals(s: System)
    requires Inv(s)
    ensures Phased(s)
  {
  }

  /** After a clean fork there is no write handler to replace. */
  lemma StallIsNothing(s: System)
    requires Phased(s)
    ensures Step(s, PipeStalls) == s
  {
  }

  lemma StepKeeps(s: System, e: Event)
    requires Inv(s) && CleanFork(s, e)
    ensures Inv(Step(s, e))
  {
    hide Phased, InTransit, InOrder, Consistent, Pausing, Moves, Advance, Source.Proceed;
    match e {
      case Tick(_) => TargetKeeps(s, e);
      case TargetProceed(_) => TargetKeeps(s, e);
      case TargetAck => TargetKeeps(s, e);
      case TargetFails => TargetKeeps(s, e);
      case TargetConnectionLost => TargetKeeps(s, e);
      case TargetReceive(accept) => TargetReceiveKeeps(s, accept);
      case SourceFlush(n) => FlushKeeps(s, n);
      case ChildWrites => ChildWritesKeeps(s);
      case PipeStalls => StallIsNothing(s);
      case ClientWrite(effect) => ClientWriteKeeps(s, effect);
      case _ =>
        if Step(s, e) != s {
          if e.SourceCron? && s.src.state.WaitingToSnapshot? && Step(s, e).src.state.Snapshotting? {
            ForkStep(s, e);
          } else {
            var base, b := MoveOf(s, e);
            MoveKeeps(s, base, b);
          }
        }
    }
  }

  lemma ForkStep(s: System, e: Event)
    requires Inv(s) && CleanFork(s, e) && e.SourceCron?
    requires s.src.state.WaitingToSnapshot? && Step(s, e).src.state.Snapshotting?
    ensures Inv(Step(s, e))
  {
    hide Phased, InTransit, InOrder, Consistent, Pausing;
    ForkKeeps(s, Step(s, e).src, e.order);
  }

  lemma MoveKeeps(s: System, base: System, b: Source)
    requires Inv(s) && Moves(s.src, b) && (base == s || (s.toSource != [] && base == s.(toSource := s.toSource[1..])))
    ensures Inv(Advance(base, b))
  {
    hide Phased, InTransit, InOrder, Consistent, Pausing, Moves;
    MoveKeepsPhase(s, base, b);
    MoveKeepsTransit(s, base, b);
    MoveKeepsOrder(s, base, b);
    MoveKeepsContents(s, base, b);
    MoveKeepsPausing(s, base, b);
  }

  lemma {:induction false} RunKeeps(db: Db, events: seq<Event>)
    requires CleanRun(Start(db), events)
    ensures Inv(Run(Start(db), events))
  {
    if |events| > 0 {
      var front := events[..|events| - 1];
      assert forall i: nat | i < |front| :: front[..i] == events[..i];
      RunKeeps(db, front);
      StepKeeps(Run(Start(db), front), events[|events| - 1]);
    }
  }

  /** A run from `s` whose snapshots all start clean ends in `t`. */
  ghost predicate Leads(s: System, t: System) {
    exists events :: CleanRun(s, events) && t == Run(s, events)
  }

  ghost predicate Reachable(s: System) {
    exists db :: Leads(Start(db), s)
  }

  lemma ReachableInv(s: System)
    requires Reachable(s)
    ensures Inv(s)
  {
    hide Inv, Run, CleanRun;
    var db :| Leads(Start(db), s);
    var events :| CleanRun(Start(db), events) && s == Run(Start(db), events);
    RunKeeps(db, events);
  }

  lemma LeadsOn(s: System, t: System, e: Event)
    requires Leads(s, t) && CleanFork(t, e)
    ensures Leads(s, Step(t, e))
  {
    hide Step;
    var events :| CleanRun(s, events) && t == Run(s, events);
    var more := events + [e];
    assert more[..|events|] == events;
    assert forall i: nat | i < |events| :: more[..i] == events[..i];
    assert CleanRun(s, more);
    assert Step(t, e) == Run(s, more);
  }

  lemma LeadsNowhere(s: System)
    ensures Leads(s, s)
  {
    assert CleanRun(s, []) && s == Run(s, []);
  }

  lemma ReachableStep(s: System, e: Event)
    requires Reachable(s) && CleanFork(s, e)
    ensures Reachable(Step(s, e))
  {
    hide Step, Leads;
    var db :| Leads(Start(db), s);
    LeadsOn(Start(db), s, e);
  }

  lemma {:induction false} ReachableRun(s: System, events: seq<Event>)
    requires Reachable(s) && CleanRun(s, events)
    ensures Reachable(Run(s, events))
  {
    hide Step, Reachable;
    if |events| > 0 {
      var front := events[..|events| - 1];
      assert forall i: nat | i < |front| :: front[..i] == events[..i];
      ReachableRun(s, front);
      ReachableStep(Run(s, front), events[|events| - 1]);
    }
  }

  // ---- What the protocol promises -------------------------------------------------------------

  /**
   * What the target has applied, and that with what is on the wire, is a prefix of:
   * the snapshot at the fork, SNAPSHOT-EOF, then every slot write since the fork and
   * PAUSED in their order.
   */
  ghost predicate Ordered(s: System) {
    if s.forked then Data(s.received + s.toTarget) <= Whole(s) && Data(s.received) <= Whole(s)
    else Data(s.received + s.toTarget) == [] && Data(s.received) == []
  }

  lemma InvOrder(s: System)
    requires Inv(s)
    ensures Ordered(s)
  {
    hide Data, Phased, Consistent, Pausing;
    Append(s.received + s.toTarget, [], s.src.pipe, s.src.out);
    DataPrefix(s.received + s.toTarget, s.sent);
    DataPrefix(s.received, s.received + s.toTarget);
  }

  /** The stream is in order in every run whose snapshot starts clean. */
  lemma StreamInOrder(s: System)
    requires Reachable(s)
    ensures Ordered(s)
  {
    hide Reachable, Data, Inv;
    ReachableInv(s);
    InvOrder(s);
  }

  /** The contents after a stream that starts from `db`. */
  function Then(db: Db, l: seq<ToTarget>): Db {
    if |l| == 0 then db else Apply(Then(db, l[..|l| - 1]), l[|l| - 1])
  }

  lemma {:induction false} ReplayThen(a: seq<ToTarget>, b: seq<ToTarget>)
    ensures Replay(a + b) == Then(Replay(a), b)
    decreases |b|
  {
    if |b| == 0 {
      assert a + b == a;
    } else {
      ReplayThen(a, b[..|b| - 1]);
      ReplayLast(a + b[..|b| - 1], b[|b| - 1]);
      assert a + b == a + b[..|b| - 1] + [b[|b| - 1]];
    }
  }

  /** A prefix of the stream that holds PAUSED misses only writes made after PAUSED. */
  lemma PastPaused(s: System, part: seq<ToTarget>)
    requires Inv(s) && part <= Whole(s) && HasPaused(part)
    ensures forall i: nat | |part| <= i < |Whole(s)| :: Whole(s)[i].Write?
    ensures !WroteSincePaused(s) ==> part == Whole(s)
  {
    hide Phased, InTransit, Consistent, Data;
    var whole, base := Whole(s), |s.snapshot| + 1;
    var p: nat :| p < |part| && part[p].Paused?;
    assert part[p] == whole[p] == s.history[p - base];
    forall i: nat | |part| <= i < |whole| ensures whole[i].Write? {
      assert whole[i] == s.history[i - base];
    }
    if |part| < |whole| {
      assert whole[|whole| - 1] == s.history[|s.history| - 1];
    }
  }

  lemma {:induction false} PausedIsData(l: seq<ToTarget>)
    requires HasPaused(l)
    ensures HasPaused(Data(l))
  {
    var front, last := l[..|l| - 1], l[|l| - 1];
    PausedIn(Data(front), if IsData(last) then [last] else []);
    if last.Paused? {
      MarksOf(last);
    } else {
      var i: nat :| i < |l| && l[i].Paused?;
      assert front[i] == l[i];
      PausedIsData(front);
    }
  }

  /**
   * At a takeover the target has everything up to PAUSED: the source's contents are
   * the target's followed by slot writes executed after PAUSED that did not arrive.
   */
  lemma TakeoverExact(s: System) returns (missing: seq<ToTarget>)
    requires Inv(s) && s.tgt.state.ImportGranted?
    ensures Whole(s) == Data(s.received) + missing
    ensures forall i: nat | i < |missing| :: missing[i].Write?
    ensures s.src.db == Then(s.tgt.db, missing)
    ensures !WroteSincePaused(s) ==> missing == []
  {
    hide Data, Replay, Phased;
    PausedIsData(s.received);
    InvOrder(s);
    PastPaused(s, Data(s.received));
    missing := Whole(s)[|Data(s.received)|..];
    assert Whole(s) == Data(s.received) + missing;
    ReplayThen(Data(s.received), missing);
    ReplayData(s.received);
  }

  /**
   * Takeover is lossless: if no slot write was executed on the source since it sent
   * PAUSED, the target that claims the slots holds exactly the source's contents.
   */
  lemma TakeoverLossless(s: System)
    requires Reachable(s) && s.tgt.state.ImportGranted? && !WroteSincePaused(s)
    ensures var next := Step(s, TargetProceed(false));
            next.tgt.owns && next.tgt.state.ImportSuccess? && next.tgt.db == next.src.db
  {
    hide Reachable, Inv;
    ReachableInv(s);
    var missing := TakeoverExact(s);
  }

  /** A source that stays paused executes no slot write: the hypothesis of the takeover theorem. */
  lemma {:induction false} StayedPaused(s: System, events: seq<Event>)
    requires !HasPaused(s.history)
    requires forall i: nat | i <= |events| :: HasPaused(Run(s, events[..i]).history) ==> Run(s, events[..i]).src.pause.on
    ensures !WroteSincePaused(Run(s, events))
  {
    if |events| > 0 {
      var n := |events| - 1;
      var front := events[..n];
      assert forall i: nat | i <= n :: front[..i] == events[..i];
      StayedPaused(s, front);
      assert events[..n] == front && events[..|events|] == events;
      PausedStep(Run(s, front), events[n]);
    }
  }

  /**
   * From the start of the run: if writes stayed paused since the source sent PAUSED,
   * the target that claims the slots holds exactly the source's contents.
   */
  lemma PausedTakeover(db: Db, events: seq<Event>)
    requires CleanRun(Start(db), events) && Run(Start(db), events).tgt.state.ImportGranted?
    requires forall i: nat | i <= |events| :: var s := Run(Start(db), events[..i]); HasPaused(s.history) ==> s.src.pause.on
    ensures var next := Step(Run(Start(db), events), TargetProceed(false));
            next.tgt.owns && next.tgt.state.ImportSuccess? && next.tgt.db == next.src.db
  {
    hide CleanRun, Run, Step, WroteSincePaused;
    var s := Start(db);
    NonePaused();
    StayedPaused(s, events);
    assert Leads(s, Run(s, events));
    TakeoverLossless(Run(s, events));
  }

  lemma PausedStep(s: System, e: Event)
    requires !WroteSincePaused(s) && (HasPaused(s.history) ==> s.src.pause.on)
    ensures !WroteSincePaused(Step(s, e))
  {
    hide Source.Proceed, Source.Receive, Source.CronAck, Source.Finish, Source.ConnectionLost, Source.OwnershipChange, Source.ChildDone, Walks, Advance, HasPaused;
    forall base: System, b | base == s.(toSource := base.toSource) ensures !WroteSincePaused(Advance(base, b)) {
      AdvanceNotWrote(base, b);
    }
    if e.ClientWrite? && s.forked && s.src.Admits() {
      FirstWrite(s, e.effect);
    }
  }

  lemma AdvanceNotWrote(s: System, b: Source)
    requires !WroteSincePaused(s)
    ensures !WroteSincePaused(Advance(s, b))
  {
    var added := if b.client && |s.src.out| <= |b.out| then b.out[|s.src.out|..] else [];
    assert !HasPaused(added) ==> Advance(s, b).history == s.history;
  }

  lemma FirstWrite(s: System, effect: Effect)
    requires !HasPaused(s.history) && s.src.Admits()
    ensures !HasPaused(Advance(s, s.src.ClientWrite(effect)).history + [Write(effect)])
  {
    hide HasPaused;
    var b := s.src.ClientWrite(effect);
    PausedIn(s.history, [Write(effect)]);
    MarksOf(Write(effect));
    assert b.out[|s.src.out|..] == [] || b.out[|s.src.out|..] == [Write(effect)];
    NonePaused();
    assert s.history + [] == s.history;
  }

  lemma NonePaused()
    ensures !HasPaused([])
  {
  }

  // ---- The grant, in every run at all ----------------------------------------------------------------

  /** A job without a connection has ended, has not begun, or has granted. */
  predicate Connected(a: Source) {
    a.client || a.Finished() || a.state.SendEstablish? || a.state.FailoverGranted?
  }

  /** A job whose pause still holds has executed no slot write since it sent PAUSED. */
  ghost predicate Honest(s: System) {
    Connected(s.src) && (s.src.state.FailoverPaused? && WroteSincePaused(s) ==> !s.src.pause.on)
  }

  /** A job pauses by sending PAUSED, its pause is not renewed before the grant, and it grants only while it holds. */
  ghost predicate HonestMove(a: Source, b: Source) {
    && Connected(b)
    && (b.state.FailoverPaused? ==>
          (a.state.FailoverPaused? && (b.pause.on ==> a.pause.on)) || (b.client && b.out == a.out + [Paused]))
    && (b.state.FailoverGranted? && !a.state.FailoverGranted? ==> a.state.FailoverPaused? && a.pause.on)
  }

  lemma HonestAdvance(s: System, base: System, b: Source)
    requires Honest(s) && HonestMove(s.src, b) && base == s.(toSource := base.toSource)
    ensures Honest(Advance(base, b))
  {
    hide HasPaused;
    var added := if b.client && |s.src.out| <= |b.out| then b.out[|s.src.out|..] else [];
    if b.client && b.out == s.src.out + [Paused] {
      assert added == [Paused];
      MarksOf(Paused);
    } else {
      assert s.history + [] == s.history;
    }
  }

  lemma HonestCron(a: Source, e: Event, now: nat)
    requires e.SourceCron? && Connected(a)
    ensures HonestMove(a, a.Proceed(now, e.timeout, e.refuse, e.busy, e.forkFails, e.order))
  {
  }

  lemma HonestReceive(a: Source, m: ToSource, now: nat, timeout: nat, refuse: bool)
    requires Connected(a) && a.client
    ensures HonestMove(a, a.Receive(m, now, timeout, refuse))
  {
  }

  lemma HonestOthers(a: Source, now: nat, ok: bool)
    requires Connected(a)
    ensures HonestMove(a, a.(pause := a.pause.Update(now))) && HonestMove(a, a.CronAck()) && HonestMove(a, a.ChildDone(ok))
    ensures HonestMove(a, a.Finish(ExportCancelled)) && HonestMove(a, a.ConnectionLost()) && HonestMove(a, a.OwnershipChange(ok))
  {
  }

  lemma HonestWrite(s: System, effect: Effect)
    requires Honest(s)
    ensures Honest(Step(s, ClientWrite(effect)))
  {
    hide HasPaused;
    assert s.src.out[|s.src.out|..] == [] && s.history + [] == s.history;
    NonePaused();
  }

  /** Every step keeps this, and the grant comes only while the pause holds. */
  lemma HonestStep(s: System, e: Event)
    requires Honest(s)
    ensures Honest(Step(s, e))
    ensures Step(s, e).src.state.FailoverGranted? && !s.src.state.FailoverGranted? ==> s.src.state.FailoverPaused? && s.src.pause.on
  {
    hide HonestMove, Advance, Source.Proceed, Source.Receive, Source.CronAck, Source.Finish,
         Source.ConnectionLost, Source.OwnershipChange, Source.ChildDone, Source.ClientWrite, Walks, Snapshot, HasPaused;
    var a := s.src;
    match e {
      case SourceCron(timeout, refuse, busy, forkFails, order) =>
        HonestCron(a, e, s.now);
        HonestTo(s, s, a.Proceed(s.now, timeout, refuse, busy, forkFails, order));
      case SourceReceive(timeout, refuse) =>
        if a.client && s.toSource != [] {
          HonestReceive(a, s.toSource[0], s.now, timeout, refuse);
          HonestTo(s, s.(toSource := s.toSource[1..]), a.Receive(s.toSource[0], s.now, timeout, refuse));
        }
      case ClientWrite(effect) =>
        HonestWrite(s, effect);
        WriteKeepsState(s, effect);
      case _ => HonestOther(s, e);
    }
  }

  lemma WriteKeepsState(s: System, effect: Effect)
    ensures Step(s, ClientWrite(effect)).src.state == s.src.state
  {
  }

  lemma HonestOther(s: System, e: Event)
    requires Honest(s) && !e.SourceCron? && !e.SourceReceive? && !e.ClientWrite?
    ensures Honest(Step(s, e))
    ensures Step(s, e).src.state.FailoverGranted? && !s.src.state.FailoverGranted? ==> s.src.state.FailoverPaused? && s.src.pause.on
  {
    hide HonestMove, Advance, Source.CronAck, Source.Finish, Source.ConnectionLost, Source.OwnershipChange, Source.ChildDone, HasPaused;
    var a := s.src;
    HonestOthers(a, s.now, if e.ChildDone? then e.ok else e.OwnershipChange? && e.target);
    match e {
      case UpdatePause => HonestTo(s, s, a.(pause := a.pause.Update(s.now)));
      case SourceAck => HonestTo(s, s, a.CronAck());
      case ChildDone(ok) => HonestTo(s, s, a.ChildDone(ok));
      case SourceCancel => HonestTo(s, s, a.Finish(ExportCancelled));
      case SourceConnectionLost => HonestTo(s, s, a.ConnectionLost());
      case OwnershipChange(target) => HonestTo(s, s, a.OwnershipChange(target));
      case _ =>
    }
  }

  lemma HonestTo(s: System, base: System, b: Source)
    requires Honest(s) && HonestMove(s.src, b) && base == s.(toSource := base.toSource)
    ensures Honest(Advance(base, b)) && Advance(base, b).src == b
    ensures b.state.FailoverGranted? && !s.src.state.FailoverGranted? ==> s.src.state.FailoverPaused? && s.src.pause.on
    ensures !b.state.FailoverPaused? ==> Connected(b)
  {
    HonestAdvance(s, base, b);
  }

  lemma {:induction false} HonestRun(db: Db, events: seq<Event>)
    ensures Honest(Run(Start(db), events))
  {
    hide Step, Honest;
    if |events| > 0 {
      HonestRun(db, events[..|events| - 1]);
      HonestStep(Run(Start(db), events[..|events| - 1]), events[|events| - 1]);
    } else {
      assert Honest(Start(db)) by { HonestStart(db); }
    }
  }

  lemma HonestStart(db: Db)
    ensures Honest(Start(db))
  {
  }

  /** In every run, clean or not: the source grants the failover only if no slot write slipped in since PAUSED. */
  lemma GrantMeansNoWrite(db: Db, events: seq<Event>, e: Event)
    requires var s := Run(Start(db), events); !s.src.state.FailoverGranted? && Step(s, e).src.state.FailoverGranted?
    ensures !WroteSincePaused(Run(Start(db), events))
  {
    hide Step, Run, WroteSincePaused;
    HonestRun(db, events);
    HonestStep(Run(Start(db), events), e);
  }
}

/**
 * The times and the states of the slot migration protocol (src/cluster_migrateslots.c):
 * how long a pause lasts, why a takeover soon after the grant needs no hypothesis about
 * it, how a job ends, and what the import's state says about the messages it has seen.
 */
module MigrationWindow {
  import opened Migration
  import opened MigrationRuns

  // ---- What a step makes of the source ------------------------------------------------------------

  /** The source after an event; the events of the target and of the clock leave it alone. */
  function After(s: System, e: Event): Source {
    var a := s.src;
    match e
    case UpdatePause => a.(pause := a.pause.Update(s.now))
    case SourceCron(timeout, refuse, busy, forkFails, order) =>
      var b := a.Proceed(s.now, timeout, refuse, busy, forkFails, order);
      if a.state.WaitingToSnapshot? && b.state.Snapshotting? && !Walks(order, a.db) then a else b
    case SourceAck => a.CronAck()
    case SourceReceive(timeout, refuse) =>
      if !a.client || s.toSource == [] then a else a.Receive(s.toSource[0], s.now, timeout, refuse)
    case SourceFlush(n) => if !(a.queued || a.handler) || n > |a.out| then a else a.Flushed(n)
    case ChildWrites => if !a.client || a.pipe == [] then a else a.(pipe := a.pipe[1..])
    case PipeStalls => a.PipeStalled()
    case ChildDone(ok) => if ok && a.pipe != [] then a else a.ChildDone(ok)
    case ClientWrite(effect) => a.ClientWrite(effect)
    case SourceCancel => if a.Finished() then a else a.Finish(ExportCancelled)
    case SourceConnectionLost => a.ConnectionLost()
    case OwnershipChange(target) => if target && !s.tgt.owns then a else a.OwnershipChange(target)
    case _ => a
  }

  lemma StepIsAfter(s: System, e: Event)
    ensures Step(s, e).src == After(s, e)
  {
    hide Source.Proceed, Source.Receive, Source.CronAck, Source.Finish, Source.ConnectionLost, Source.OwnershipChange,
         Source.ChildDone, Source.ClientWrite, Source.PipeStalled, Source.Flushed, Source.Admits, Source.Finished,
         Walks, Snapshot, HasPaused, Target.Receive, Target.Proceed, Target.Fail, Target.CronAck, Target.ConnectionLost;
  }

  lemma ClockOnlyTicks(s: System, e: Event)
    ensures Step(s, e).now == if e.Tick? then s.now + e.ms else s.now
  {
    hide Source.Proceed, Source.Receive, Source.CronAck, Source.Finish, Source.ConnectionLost, Source.OwnershipChange,
         Source.ChildDone, Source.ClientWrite, Source.PipeStalled, Source.Flushed, Source.Admits, Source.Finished,
         Walks, Snapshot, HasPaused, Target.Receive, Target.Proceed, Target.Fail, Target.CronAck, Target.ConnectionLost;
  }

  // ---- A job that has ended, and a pause that outlasts its deadline -------------------------------

  /** A job that has ended holds no pause, no deadline and no connection; a pause lasts at least to the job's deadline. */
  ghost predicate Sober(a: Source) {
    && (a.Finished() ==> !a.client && a.out == [] && !a.queued && !a.handler && !a.pause.on && a.pause.mfEnd == 0)
    && ((a.state.FailoverPaused? || a.state.FailoverGranted?) && a.pause.on ==> a.pause.end >= a.pause.mfEnd)
  }

  lemma SoberFinish(a: Source, final: ExportState)
    ensures Sober(a.Finish(final))
  {
  }

  lemma SoberPause(a: Source, now: nat, timeout: nat, refuse: bool)
    requires Sober(a) && !a.Finished()
    ensures Sober(a.TryPause(now, timeout, refuse))
  {
  }

  lemma SoberGrant(a: Source, now: nat)
    requires Sober(a)
    ensures Sober(a.OnRequestFailover(now))
  {
    hide Source.Finish;
    SoberFinish(a, ExportFailed);
  }

  lemma SoberCron(a: Source, e: Event, now: nat)
    requires Sober(a) && e.SourceCron?
    ensures Sober(a.Proceed(now, e.timeout, e.refuse, e.busy, e.forkFails, e.order))
  {
    hide Snapshot, Source.Finish, Source.TryPause, Pause.Until;
    SoberFinish(a, ExportFailed);
    SoberFinish(a.(pause := a.pause.(mfEnd := 0).Update(now)), ExportFailed);
    if a.state.WaitingToPause? { SoberPause(a, now, e.timeout, e.refuse); }
  }

  lemma SoberReceive(a: Source, m: ToSource, now: nat, timeout: nat, refuse: bool)
    requires Sober(a)
    ensures Sober(a.Receive(m, now, timeout, refuse))
  {
    hide Source.Finish, Source.TryPause, Source.OnRequestFailover;
    SoberFinish(a, ExportFailed);
    SoberGrant(a, now);
    if a.state.Streaming? { SoberPause(a, now, timeout, refuse); }
    if a.state.Snapshotting? { SoberPause(a.BeginStreaming(), now, timeout, refuse); }
  }

  lemma SoberOthers(a: Source, now: nat, ok: bool)
    requires Sober(a)
    ensures Sober(a.(pause := a.pause.Update(now))) && Sober(a.CronAck()) && Sober(a.ChildDone(ok)) && Sober(a.PipeStalled())
  {
  }

  lemma SoberEnds(a: Source, target: bool, effect: Effect)
    requires Sober(a)
    ensures Sober(a.Finish(ExportCancelled)) && Sober(a.ConnectionLost()) && Sober(a.OwnershipChange(target)) && Sober(a.ClientWrite(effect))
  {
  }

  lemma SoberStep(s: System, e: Event)
    requires Sober(s.src)
    ensures Sober(Step(s, e).src)
  {
    hide Step, Source.Proceed, Source.Receive, Source.CronAck, Source.Finish, Source.ConnectionLost, Source.OwnershipChange,
         Source.ChildDone, Source.ClientWrite, Source.PipeStalled, Walks;
    StepIsAfter(s, e);
    var a := s.src;
    SoberOthers(a, s.now, e.ChildDone? && e.ok);
    SoberEnds(a, e.OwnershipChange? && e.target, if e.ClientWrite? then e.effect else d => d);
    match e {
      case SourceCron(_, _, _, _, _) => SoberCron(a, e, s.now);
      case SourceReceive(timeout, refuse) => if s.toSource != [] { SoberReceive(a, s.toSource[0], s.now, timeout, refuse); }
      case _ =>
    }
  }

  /** In every run, clean or not. */
  lemma {:induction false} SoberRun(db: Db, events: seq<Event>)
    ensures Sober(Run(Start(db), events).src)
  {
    hide Step, Sober;
    if |events| > 0 {
      SoberRun(db, events[..|events| - 1]);
      SoberStep(Run(Start(db), events[..|events| - 1]), events[|events| - 1]);
    } else {
      SoberStart(db);
    }
  }

  lemma SoberStart(db: Db)
    ensures Sober(Start(db).src)
  {
  }

  // ---- Pausing ------------------------------------------------------------------------------------

  /** The job's timeout in a step that may pause. */
  function TimeoutOf(e: Event): nat {
    if e.SourceCron? then e.timeout else if e.SourceReceive? then e.timeout else 0
  }

  /**
   * A job that pauses sends PAUSED last and holds writes back for twice the failover
   * timeout from then on.
   */
  lemma PauseLasts(s: System, e: Event)
    requires !s.src.state.FailoverPaused? && Step(s, e).src.state.FailoverPaused?
    ensures var t := Step(s, e);
            && t.src.out == s.src.out + [Paused] && t.src.pause.mfEnd == s.now + 2 * TimeoutOf(e)
            && (TimeoutOf(e) > 0 ==> t.src.pause.on && t.src.pause.end >= s.now + 2 * TimeoutOf(e))
  {
    hide Step, Source.Proceed, Source.Receive, Walks;
    StepIsAfter(s, e);
    if e.SourceReceive? {
      PausesOnRequest(s.src, s.toSource[0], s.now, e.timeout, e.refuse);
    } else if e.SourceCron? {
      PausesInCron(s.src, e, s.now);
    } else {
      PausesOnlyThen(s, e);
    }
  }

  ghost predicate PausedFor(a: Source, b: Source, now: nat, timeout: nat) {
    && b.out == a.out + [Paused] && b.pause.mfEnd == now + 2 * timeout
    && (timeout > 0 ==> b.pause.on && b.pause.end >= now + 2 * timeout)
  }

  lemma TryPauses(a: Source, now: nat, timeout: nat, refuse: bool)
    requires !a.state.FailoverPaused? && a.TryPause(now, timeout, refuse).state.FailoverPaused?
    ensures PausedFor(a, a.TryPause(now, timeout, refuse), now, timeout)
  {
  }

  lemma PausesOnRequest(a: Source, m: ToSource, now: nat, timeout: nat, refuse: bool)
    requires !a.state.FailoverPaused? && a.Receive(m, now, timeout, refuse).state.FailoverPaused?
    ensures PausedFor(a, a.Receive(m, now, timeout, refuse), now, timeout)
  {
    hide Source.TryPause;
    if m.RequestPause? {
      TryPauses(if a.state.Streaming? then a else a.BeginStreaming(), now, timeout, refuse);
    }
  }

  lemma PausesInCron(a: Source, e: Event, now: nat)
    requires e.SourceCron? && !a.state.FailoverPaused?
    requires a.Proceed(now, e.timeout, e.refuse, e.busy, e.forkFails, e.order).state.FailoverPaused?
    ensures PausedFor(a, a.Proceed(now, e.timeout, e.refuse, e.busy, e.forkFails, e.order), now, e.timeout)
  {
  }

  lemma PausesOnlyThen(s: System, e: Event)
    requires !e.SourceReceive? && !e.SourceCron? && Step(s, e).src.state.FailoverPaused?
    ensures s.src.state.FailoverPaused?
  {
    hide Step, Walks, Snapshot;
    StepIsAfter(s, e);
    ClockOnlyTicks(s, e);
  }

  // ---- How a job ends -----------------------------------------------------------------------------

  predicate Overdue(s: System) {
    s.src.pause.mfEnd < s.now || !s.src.pause.on
  }

  /** Whether an event ends a job in progress. */
  predicate Ends(s: System, e: Event) {
    var state := s.src.state;
    match e
    case SourceCancel => true
    case SourceConnectionLost => !state.FailoverGranted?
    case OwnershipChange(target) => target ==> s.tgt.owns
    case ChildDone(ok) => state.Snapshotting? && !ok
    case SourceCron(_, _, busy, forkFails, _) =>
      || (state.WaitingToSnapshot? && !busy && !s.src.queued && forkFails)
      || ((state.FailoverPaused? || state.FailoverGranted?) && Overdue(s))
    case SourceReceive(_, _) =>
      && s.src.client && s.toSource != []
      && match s.toSource[0] {
           case Refused => state.ReadEstablishResponse?
           case RequestPause => !state.Streaming? && !state.Snapshotting?
           case RequestFailover => !state.FailoverPaused? || Overdue(s)
           case _ => false
         }
    case _ => false
  }

  /** A job ends on exactly these events, with success only when the target owns the slots. */
  lemma EndsExactly(s: System, e: Event)
    requires !s.src.Finished()
    ensures var t := Step(s, e);
            && (t.src.Finished() <==> Ends(s, e))
            && (Ends(s, e) ==> t.src.state == (if e.SourceCancel? then ExportCancelled
                                               else if e.OwnershipChange? && e.target then ExportSuccess else ExportFailed))
  {
    hide Step, Walks, Snapshot, Pause.Until, Pause.Off, Pause.Update;
    StepIsAfter(s, e);
  }

  /** An ended job stays as it ended. */
  lemma EndedStays(s: System, e: Event)
    requires s.src.Finished()
    ensures Step(s, e).src.state == s.src.state || (e.SourceReceive? && s.src.client)
    ensures !s.src.owns ==> !Step(s, e).src.owns
  {
    hide Step, Walks, Snapshot, Pause.Until, Pause.Off, Pause.Update;
    StepIsAfter(s, e);
  }

  lemma OwnerStays(s: System, e: Event)
    ensures s.tgt.owns ==> Step(s, e).tgt.owns
  {
    hide Source.Proceed, Source.Receive, Source.CronAck, Source.Finish, Source.ConnectionLost, Source.OwnershipChange,
         Source.ChildDone, Source.ClientWrite, Source.PipeStalled, Source.Flushed, Source.Admits, Source.Finished,
         Walks, Snapshot, HasPaused;
  }

  lemma TakenOver(s: System, target: bool)
    requires !s.src.Finished() && (target ==> s.tgt.owns)
    ensures !Step(s, OwnershipChange(target)).src.owns
  {
    hide Walks, Snapshot, HasPaused;
  }

  /** The export that reports success has handed the slots over. */
  ghost predicate HandedOver(s: System) {
    s.src.state.ExportSuccess? ==> s.tgt.owns && !s.src.owns
  }

  /** In every run, clean or not. */
  lemma {:induction false} SuccessMeansHandedOver(db: Db, events: seq<Event>)
    ensures HandedOver(Run(Start(db), events))
  {
    hide Step, Sober, Ends;
    if |events| > 0 {
      var s, e := Run(Start(db), events[..|events| - 1]), events[|events| - 1];
      SuccessMeansHandedOver(db, events[..|events| - 1]);
      OwnerStays(s, e);
      if s.src.Finished() {
        SoberRun(db, events[..|events| - 1]);
        assert !s.src.client by { EndedIsClosed(s.src); }
        EndedStays(s, e);
      } else {
        EndsExactly(s, e);
        if e.OwnershipChange? && Ends(s, e) {
          TakenBy(s, e);
          TakenOver(s, e.target);
        }
      }
    }
  }

  lemma EndedIsClosed(a: Source)
    requires Sober(a) && a.Finished()
    ensures !a.client
  {
  }

  lemma TakenBy(s: System, e: Event)
    requires e.OwnershipChange? && Ends(s, e)
    ensures e.target ==> s.tgt.owns
  {
  }

  // ---- The grant ------------------------------------------------------------------------------------

  /** Writes are held back at least until `end`. */
  ghost predicate HeldUntil(a: Source, end: nat) {
    a.pause.on && a.pause.mfEnd >= end && a.pause.end >= end
  }

  lemma GrantHolds(a: Source, m: ToSource, now: nat, timeout: nat, refuse: bool)
    requires Sober(a) && !a.state.FailoverGranted? && a.Receive(m, now, timeout, refuse).state.FailoverGranted?
    ensures HeldUntil(a.Receive(m, now, timeout, refuse), now + 2000)
  {
  }

  lemma GrantsOnlyOnRequest(s: System, e: Event)
    requires !s.src.state.FailoverGranted? && Step(s, e).src.state.FailoverGranted?
    ensures e.SourceReceive? && s.src.client && s.toSource != []
    ensures Step(s, e).src == s.src.Receive(s.toSource[0], s.now, e.timeout, e.refuse) && Step(s, e).now == s.now
  {
    hide Step, Walks, Snapshot;
    StepIsAfter(s, e);
    ClockOnlyTicks(s, e);
  }

  /** In every run: whoever is granted the failover has two seconds in which the source takes no writes. */
  lemma GrantRenewsPause(db: Db, events: seq<Event>, e: Event)
    requires var s := Run(Start(db), events); !s.src.state.FailoverGranted? && Step(s, e).src.state.FailoverGranted?
    ensures var t := Step(Run(Start(db), events), e);
            t.src.pause.on && t.src.pause.mfEnd >= t.now + 2000 && t.src.pause.end >= t.now + 2000
  {
    hide Step, Run, Sober, Source.Receive;
    var s := Run(Start(db), events);
    SoberRun(db, events);
    GrantsOnlyOnRequest(s, e);
    GrantHolds(s.src, s.toSource[0], s.now, e.timeout, e.refuse);
  }

  /** The job has granted or ended; until `end`, a job that has granted holds writes back and none slipped in. */
  ghost predicate InWindow(s: System, end: nat, db: Db) {
    && (s.src.state.FailoverGranted? || s.src.Finished())
    && (s.src.state.FailoverGranted? && s.now < end ==> HeldUntil(s.src, end) && !WroteSincePaused(s) && s.src.db == db)
  }

  /** What a step makes of a job that has granted. */
  lemma GrantedSource(s: System, e: Event, end: nat)
    requires s.src.state.FailoverGranted? && s.now < end && HeldUntil(s.src, end)
    ensures var t := Step(s, e);
            t.src.Finished() || (t.src.state.FailoverGranted? && t.src.db == s.src.db && (t.now < end ==> HeldUntil(t.src, end)))
    ensures !e.SourceCancel? && !e.OwnershipChange? && !(e.SourceReceive? && s.toSource != [] && !s.toSource[0].AckBack?
                                                         && !s.toSource[0].Established? && !s.toSource[0].Refused?)
            ==> Step(s, e).src.state.FailoverGranted?
  {
    hide Step, Walks, Snapshot;
    StepIsAfter(s, e);
    ClockOnlyTicks(s, e);
  }

  lemma GrantedStays(s: System, e: Event)
    requires s.src.state.FailoverGranted? || s.src.Finished()
    ensures Step(s, e).src.state.FailoverGranted? || Step(s, e).src.Finished()
    ensures s.src.Finished() ==> Step(s, e).src.Finished()
    ensures s.now <= Step(s, e).now
  {
    hide Step, Walks, Snapshot;
    StepIsAfter(s, e);
    ClockOnlyTicks(s, e);
  }

  lemma WindowStep(s: System, e: Event, end: nat, db: Db)
    requires InWindow(s, end, db)
    ensures InWindow(Step(s, e), end, db)
  {
    hide Step, WroteSincePaused;
    GrantedStays(s, e);
    if s.src.state.FailoverGranted? && s.now < end {
      GrantedSource(s, e, end);
      PausedStep(s, e);
    }
  }

  lemma {:induction false} WindowRun(s: System, events: seq<Event>, end: nat, db: Db)
    requires InWindow(s, end, db)
    ensures InWindow(Run(s, events), end, db)
  {
    hide Step, InWindow;
    if |events| > 0 {
      WindowRun(s, events[..|events| - 1], end, db);
      WindowStep(Run(s, events[..|events| - 1]), events[|events| - 1], end, db);
    }
  }

  /**
   * For two seconds after the grant, a job that has not been ended refuses every write:
   * the source's slots hold exactly what they held at the grant.
   */
  lemma GrantedWindow(db: Db, before: seq<Event>, e: Event, after: seq<Event>)
    requires var s := Run(Start(db), before);
             CleanRun(Start(db), before) && !s.src.state.FailoverGranted? && Step(s, e).src.state.FailoverGranted?
    requires var t := Run(Step(Run(Start(db), before), e), after);
             t.src.state.FailoverGranted? && t.now < Step(Run(Start(db), before), e).now + 2000
    ensures var granted := Step(Run(Start(db), before), e);
            var t := Run(granted, after);
            t.src.pause.on && t.src.db == granted.src.db && !WroteSincePaused(t)
  {
    hide Step, Run, CleanRun, WroteSincePaused, HasPaused, Source.Receive;
    var s := Run(Start(db), before);
    var granted := Step(s, e);
    GrantRenewsPause(db, before, e);
    GrantMeansNoWrite(db, before, e);
    GrantsOnlyOnRequest(s, e);
    GrantWritesNothing(s, e);
    assert InWindow(granted, granted.now + 2000, granted.src.db);
    WindowRun(granted, after, granted.now + 2000, granted.src.db);
  }

  /**
   * A takeover within two seconds of the grant is lossless, whatever happens in between,
   * as long as the job has not been ended: nothing needs to be known about the pause.
   */
  lemma GrantedTakeover(db: Db, before: seq<Event>, e: Event, after: seq<Event>)
    requires var s := Run(Start(db), before);
             && CleanRun(Start(db), before) && CleanFork(s, e) && CleanRun(Step(s, e), after)
             && !s.src.state.FailoverGranted? && Step(s, e).src.state.FailoverGranted?
    requires var t := Run(Step(Run(Start(db), before), e), after);
             t.src.state.FailoverGranted? && t.now < Step(Run(Start(db), before), e).now + 2000 && t.tgt.state.ImportGranted?
    ensures var next := Step(Run(Step(Run(Start(db), before), e), after), TargetProceed(false));
            next.tgt.owns && next.tgt.state.ImportSuccess? && next.tgt.db == next.src.db
  {
    hide Step, Run, CleanRun, WroteSincePaused, Reachable, HasPaused, Source.Receive, CleanFork;
    GrantedWindow(db, before, e, after);
    ReachableBy(db, before);
    ReachableStep(Run(Start(db), before), e);
    ReachableRun(Step(Run(Start(db), before), e), after);
    TakeoverLossless(Run(Step(Run(Start(db), before), e), after));
  }

  lemma ReachableBy(db: Db, events: seq<Event>)
    requires CleanRun(Start(db), events)
    ensures Reachable(Run(Start(db), events))
  {
    assert Leads(Start(db), Run(Start(db), events));
  }

  lemma GrantWritesNothing(s: System, e: Event)
    requires e.SourceReceive? && !WroteSincePaused(s)
    ensures !WroteSincePaused(Step(s, e))
  {
    hide Source.Receive, Advance, WroteSincePaused;
    if s.src.client && s.toSource != [] {
      var base := s.(toSource := s.toSource[1..]);
      SameHistory(s, base);
      AdvanceNotWrote(base, s.src.Receive(s.toSource[0], s.now, e.timeout, e.refuse));
    }
  }

  lemma SameHistory(s: System, t: System)
    requires s.history == t.history
    ensures WroteSincePaused(s) == WroteSincePaused(t)
  {
  }

  // ---- What the import has seen ---------------------------------------------------------------------

  predicate IsMark(m: ToTarget) {
    m.SnapshotEof? || m.Paused? || m.Granted?
  }

  /** The markers in a stream, in order. */
  function Marks(l: seq<ToTarget>): seq<ToTarget> {
    if |l| == 0 then [] else Marks(l[..|l| - 1]) + if IsMark(l[|l| - 1]) then [l[|l| - 1]] else []
  }

  predicate SawAck(l: seq<ToTarget>) {
    exists i: nat | i < |l| :: l[i].Ack?
  }

  /** The markers that an import in this state has received, exactly and in this order. */
  function MarksOf(state: ImportState): seq<ToTarget> {
    match state
    case WaitingForPaused => [SnapshotEof]
    case FailoverRequested => [SnapshotEof, Paused]
    case ImportGranted => [SnapshotEof, Paused, Granted]
    case ImportSuccess => [SnapshotEof, Paused, Granted]
    case _ => []
  }

  /**
   * The import follows the protocol: its state is what the messages it received make of
   * it. Only an import that was granted the failover owns the slots, and one that failed
   * leaves nothing behind.
   */
  ghost predicate Follows(s: System) {
    var t := s.tgt;
    && (t.InProgress() || t.state.ImportSuccess? ==> Marks(s.received) == MarksOf(t.state))
    && (t.InProgress() ==> t.client && (t.state.WaitAck? <==> !SawAck(s.received)))
    && (t.owns <==> t.state.ImportSuccess?)
    && (t.state.CleaningUp? || t.state.ImportFailed? || t.state.ImportSuccess? ==> !t.client)
    && (t.state.ImportFailed? ==> t.db == map[])
  }

  lemma MarksMore(l: seq<ToTarget>, m: ToTarget)
    ensures Marks(l + [m]) == Marks(l) + if IsMark(m) then [m] else []
  {
    assert (l + [m])[..|l|] == l;
  }

  lemma AcksMore(l: seq<ToTarget>, m: ToTarget)
    ensures SawAck(l + [m]) <==> SawAck(l) || m.Ack?
  {
    assert (l + [m])[|l|] == m;
    if i: nat :| i < |l| && l[i].Ack? { assert (l + [m])[i].Ack?; }
  }

  lemma ReceiveFollows(s: System, accept: bool)
    requires Follows(s) && s.tgt.client && s.toTarget != [] && (s.toTarget[0].Establish? ==> s.received == [])
    ensures Follows(Step(s, TargetReceive(accept)))
  {
    hide Marks, SawAck;
    MarksMore(s.received, s.toTarget[0]);
    AcksMore(s.received, s.toTarget[0]);
    NoMarks();
  }

  lemma NoMarks()
    ensures Marks([]) == [] && !SawAck([])
  {
  }

  /** Only the target's own steps touch the import. */
  lemma OtherFollows(s: System, e: Event)
    requires Follows(s) && !e.TargetReceive?
    ensures Follows(Step(s, e))
  {
    hide Marks, SawAck, Walks, Snapshot, HasPaused, Source.Proceed, Source.Receive, Source.CronAck, Source.Finish,
         Source.ConnectionLost, Source.OwnershipChange, Source.ChildDone, Source.ClientWrite, Source.PipeStalled;
  }

  lemma FirstIsEstablish(s: System)
    requires Inv(s) && s.toTarget != [] && s.toTarget[0].Establish?
    ensures s.received == []
  {
    hide Phased, Consistent, Pausing, Data;
    assert s.received + s.toTarget <= s.sent by {
      Append(s.received + s.toTarget, [], s.src.pipe, s.src.out);
    }
    assert (s.received + s.toTarget)[|s.received|] == s.toTarget[0];
    assert s.sent[|s.received|] == s.toTarget[0];
  }

  lemma {:induction false} RunFollows(db: Db, events: seq<Event>)
    requires CleanRun(Start(db), events)
    ensures Follows(Run(Start(db), events))
  {
    hide Step, Follows, Inv;
    if |events| > 0 {
      var front, e := events[..|events| - 1], events[|events| - 1];
      assert forall i: nat | i < |front| :: front[..i] == events[..i];
      RunFollows(db, front);
      RunKeeps(db, front);
      var s := Run(Start(db), front);
      if !e.TargetReceive? {
        OtherFollows(s, e);
      } else if s.tgt.client && s.toTarget != [] {
        if s.toTarget[0].Establish? { FirstIsEstablish(s); }
        ReceiveFollows(s, e.accept);
      } else {
        assert Step(s, e) == s by { NothingReceived(s, e); }
      }
    } else {
      StartFollows(db);
    }
  }

  lemma NothingReceived(s: System, e: Event)
    requires e.TargetReceive? && !(s.tgt.client && s.toTarget != [])
    ensures Step(s, e) == s
  {
  }

  lemma StartFollows(db: Db)
    ensures Follows(Start(db))
  {
    NoMarks();
  }

  /** In every run with a clean fork. */
  lemma ImportFollows(s: System)
    requires Reachable(s)
    ensures Follows(s)
  {
    hide Follows, Run, CleanRun;
    var db :| Leads(Start(db), s);
    var events :| CleanRun(Start(db), events) && s == Run(Start(db), events);
    RunFollows(db, events);
  }
}

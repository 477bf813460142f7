/**
 * The slot migration jobs as the servers keep them: objects whose handlers update
 * the job, its client's output buffer and the pause in place, and the two objects
 * joined by their connection. Every event makes the objects take exactly the step of
 * `MigrationRuns`, so the theorems about runs hold of them.
 */
module MigrationJobs {
  import opened Migration
  import opened MigrationRuns

  class ExportJob {
    var state: ExportState
    var client: bool
    var out: seq<ToTarget>
    var queued: bool
    var handler: bool
    var pipe: seq<ToTarget>
    var db: Db
    var owns: bool
    var mfEnd: nat
    var pauseOn: bool
    var pauseEnd: nat

    ghost function View(): Source
      reads this
    {
      Source(state, client, out, queued, handler, pipe, db, owns, Pause(mfEnd, pauseOn, pauseEnd))
    }

    constructor (db: Db)
      ensures View() == Source(SendEstablish, false, [], false, false, [], db, true, Pause(0, false, 0))
    {
      state, client, out, queued, handler := SendEstablish, false, [], false, false;
      pipe, this.db, owns, mfEnd, pauseOn, pauseEnd := [], db, true, 0, false, 0;
    }

    // ---- Output and pause, the server's part ---------------------------------------

    method PutInPendingWriteQueue()
      modifies this
      ensures View() == old(View()).Queue()
    {
      if !queued && state != Snapshotting { queued := true; }
    }

    method Send(m: ToTarget)
      modifies this
      ensures View() == old(View()).Send(m)
    {
      if |out| == 0 { PutInPendingWriteQueue(); }
      out := out + [m];
    }

    method UpdatePausedActions(now: nat)
      modifies this
      ensures View() == old(View()).(pause := old(View()).pause.Update(now))
    {
      if pauseEnd <= now { pauseOn, pauseEnd := false, 0; }
    }

    method PauseActions(deadline: nat, now: nat)
      modifies this
      ensures View() == old(View()).(pause := old(View()).pause.(on := true, end := if old(pauseEnd) < deadline then deadline else old(pauseEnd)).Update(now))
    {
      pauseOn := true;
      if pauseEnd < deadline { pauseEnd := deadline; }
      UpdatePausedActions(now);
    }

    method TryUnpause()
      modifies this
      ensures View() == old(View()).(pause := if old(mfEnd) == 0 then old(View()).pause.Off() else old(View()).pause)
    {
      if !pauseOn { return; }
      if mfEnd != 0 { return; }
      pauseOn, pauseEnd := false, 0;
    }

    // ---- The job --------------------------------------------------------------------

    method Reset()
      modifies this
      ensures View() == old(View()).(client := false, out := [], queued := false, handler := false)
    {
      if client { client := false; }
      out, queued, handler := [], false, false;
    }

    method Finish(final: ExportState)
      modifies this
      ensures View() == old(View()).Finish(final)
    {
      mfEnd := 0;
      TryUnpause();
      state := final;
      Reset();
    }

    method BeginStreaming()
      modifies this
      ensures View() == old(View()).BeginStreaming()
    {
      state := Streaming;
      PutInPendingWriteQueue();
    }

    method TryDoPause(now: nat, timeout: nat, refuse: bool) returns (ok: bool)
      modifies this
      ensures ok == !refuse
      ensures View().(state := if ok then FailoverPaused else WaitingToPause) == old(View()).TryPause(now, timeout, refuse)
      ensures state == old(state)
    {
      if refuse { return false; }
      mfEnd := now + timeout * PAUSE_MULT;
      PauseActions(mfEnd, now);
      Send(Paused);
      ok := true;
    }

    method PauseTimedOut(now: nat) returns (timedOut: bool)
      ensures timedOut == View().pause.TimedOut(now)
    {
      timedOut := mfEnd < now || !pauseOn;
    }

    method OnRequestPause(now: nat, timeout: nat, refuse: bool)
      modifies this
      ensures View() == old(View()).OnRequestPause(now, timeout, refuse)
    {
      if state != Streaming && state != Snapshotting {
        Finish(ExportFailed);
        return;
      }
      if state != Streaming { BeginStreaming(); }
      var ok := TryDoPause(now, timeout, refuse);
      if !ok {
        state := WaitingToPause;
        return;
      }
      state := FailoverPaused;
    }

    method OnRequestFailover(now: nat)
      modifies this
      ensures View() == old(View()).OnRequestFailover(now)
    {
      if state != FailoverPaused {
        Finish(ExportFailed);
        return;
      }
      var timedOut := PauseTimedOut(now);
      if timedOut {
        Finish(ExportFailed);
        return;
      }
      var deadline := now + OPERATION_TIMEOUT;
      if mfEnd < deadline {
        mfEnd := deadline;
        PauseActions(deadline, now);
      }
      Send(Granted);
      state := FailoverGranted;
    }

    method OnEstablishReply(accepted: bool)
      modifies this
      ensures View() == old(View()).OnEstablishReply(accepted)
    {
      if state != ReadEstablishResponse { return; }
      if !accepted {
        Finish(ExportFailed);
        return;
      }
      state := WaitingToSnapshot;
      Send(Ack);
    }

    method Receive(m: ToSource, now: nat, timeout: nat, refuse: bool)
      modifies this
      ensures View() == old(View()).Receive(m, now, timeout, refuse)
    {
      match m {
        case Established => OnEstablishReply(true);
        case Refused => OnEstablishReply(false);
        case AckBack =>
        case RequestPause => OnRequestPause(now, timeout, refuse);
        case RequestFailover => OnRequestFailover(now);
      }
    }

    method Proceed(now: nat, timeout: nat, refuse: bool, busy: bool, forkFails: bool, order: seq<string>)
      modifies this
      ensures View() == old(View()).Proceed(now, timeout, refuse, busy, forkFails, order)
    {
      match state {
        case SendEstablish =>
          client := true;
          Send(Establish);
          state := ReadEstablishResponse;
        case WaitingToSnapshot =>
          if busy || queued { return; }
          if forkFails {
            Finish(ExportFailed);
            return;
          }
          pipe := Snapshot(db, order) + [SnapshotEof];
          state := Snapshotting;
        case WaitingToPause =>
          var ok := TryDoPause(now, timeout, refuse);
          if ok { state := FailoverPaused; }
        case FailoverPaused =>
          var timedOut := PauseTimedOut(now);
          if timedOut {
            mfEnd := 0;
            UpdatePausedActions(now);
            Finish(ExportFailed);
          }
        case FailoverGranted =>
          var timedOut := PauseTimedOut(now);
          if timedOut { Finish(ExportFailed); }
        case _ =>
      }
    }

    method CronAck()
      modifies this
      ensures View() == old(View()).CronAck()
    {
      var finished := state == ExportFailed || state == ExportCancelled || state == ExportSuccess;
      if !finished && state != FailoverGranted && state != Snapshotting && state != SendEstablish
         && state != ReadEstablishResponse && !queued
      {
        Send(Ack);
      }
    }

    method ChildDone(ok: bool)
      modifies this
      ensures View() == old(View()).ChildDone(ok)
    {
      pipe := [];
      if state != Snapshotting { return; }
      if ok { BeginStreaming(); } else { Finish(ExportFailed); }
    }

    method ConnectionLost()
      modifies this
      ensures View() == old(View()).ConnectionLost()
    {
      Reset();
      if state == ExportFailed || state == ExportCancelled || state == ExportSuccess { return; }
      if state != FailoverGranted { Finish(ExportFailed); }
    }

    /** The slots have a new owner: the target of this job or some other node. */
    method OwnershipChange(target: bool)
      modifies this
      ensures View() == old(View()).OwnershipChange(target)
    {
      owns := false;
      if state == ExportFailed || state == ExportCancelled || state == ExportSuccess { return; }
      Finish(if target then ExportSuccess else ExportFailed);
    }

    /** The pipe's own handler takes the place of the write handler. */
    method PipeStalls()
      modifies this
      ensures View() == old(View()).PipeStalled()
    {
      if client && |pipe| > 0 { handler := false; }
    }

    /** The socket takes the first `n` buffered messages; a rest waits for the write handler. */
    method Flush(n: nat) returns (written: seq<ToTarget>)
      requires n <= |out|
      modifies this
      ensures View() == old(View()).Flushed(n) && written == old(out)[..n]
    {
      written := out[..n];
      out := out[n..];
      queued, handler := false, |out| > 0;
    }

    /** The command runs, and its effect is fed to the job. */
    method ClientWrite(effect: Effect)
      modifies this
      ensures View() == old(View()).ClientWrite(effect)
    {
      if !owns || pauseOn { return; }
      db := effect(db);
      if !client { return; }
      match state {
        case Snapshotting => Send(Write(effect));
        case Streaming => Send(Write(effect));
        case WaitingToPause => Send(Write(effect));
        case FailoverPaused => Send(Write(effect));
        case FailoverGranted => Send(Write(effect));
        case _ =>
      }
    }
  }

  class ImportJob {
    var state: ImportState
    var client: bool
    var db: Db
    var owns: bool

    ghost function View(): Target
      reads this
    {
      Target(state, client, db, owns)
    }

    constructor ()
      ensures View() == Target(NoJob, true, map[], false)
    {
      state, client, db, owns := NoJob, true, map[], false;
    }

    /** Cleaning up is left to the next pass; the connection is closed now. */
    method Fail()
      modifies this
      ensures View() == old(View()).Fail()
    {
      state := CleaningUp;
      client := false;
    }

    method Receive(m: ToTarget, accept: bool) returns (replies: seq<ToSource>)
      modifies this
      ensures (View(), replies) == old(View()).Receive(m, accept)
    {
      replies := [];
      match m {
        case Establish =>
          if state != NoJob || !accept { return [Refused]; }
          state := WaitAck;
          replies := [Established];
        case Ack =>
          if state == WaitAck { state := ReceiveSnapshot; }
        case SnapshotEof =>
          replies := OnMarker(ReceiveSnapshot, WaitingForPaused, [RequestPause]);
        case Paused =>
          replies := OnMarker(WaitingForPaused, FailoverRequested, [RequestFailover]);
        case Granted =>
          replies := OnMarker(FailoverRequested, ImportGranted, []);
        case Restore(k, v) =>
          if state != NoJob { db := db[k := v]; }
        case Write(effect) =>
          if state != NoJob { db := effect(db); }
      }
    }

    /** SNAPSHOT-EOF, PAUSED and FAILOVER-GRANTED: each is good in one state only. */
    method OnMarker(expected: ImportState, next: ImportState, reply: seq<ToSource>) returns (replies: seq<ToSource>)
      modifies this
      ensures (View(), replies) == if old(state).NoJob? then (old(View()), [])
                                   else if old(state) != expected then (old(View()).Fail(), [])
                                   else (old(View()).(state := next), reply)
    {
      replies := [];
      if state == NoJob { return; }
      if state != expected {
        Fail();
        return;
      }
      replies := reply;
      state := next;
    }

    method Proceed(preventFailover: bool)
      modifies this
      ensures View() == old(View()).Proceed(preventFailover)
    {
      match state {
        case ImportGranted =>
          if !preventFailover {
            owns := true;
            state := ImportSuccess;
            client := false;
          }
        case CleaningUp =>
          if !owns { db := map[]; }
          state := ImportFailed;
        case _ =>
      }
    }

    method CronAck() returns (replies: seq<ToSource>)
      ensures replies == View().CronAck()
    {
      var receiving := state == ReceiveSnapshot || state == WaitingForPaused || state == FailoverRequested || state == ImportGranted;
      replies := if receiving && client then [AckBack] else [];
    }

    /** Some reason to give up an import in progress. */
    method Interrupt()
      modifies this
      ensures View() == if old(View()).InProgress() then old(View()).Fail() else old(View())
    {
      if state == WaitAck || state == ReceiveSnapshot || state == WaitingForPaused || state == FailoverRequested
         || state == ImportGranted
      {
        Fail();
      }
    }

    method ConnectionLost()
      modifies this
      ensures View() == old(View()).ConnectionLost()
    {
      client := false;
      Interrupt();
    }
  }

  /** Source and target with their connection and clock; the ghost fields are the history of the run. */
  class Pair {
    const source: ExportJob
    const target: ImportJob
    var toTarget: seq<ToTarget>
    var toSource: seq<ToSource>
    var now: nat
    ghost var sent: seq<ToTarget>
    ghost var received: seq<ToTarget>
    ghost var forked: bool
    ghost var snapshot: seq<ToTarget>
    ghost var history: seq<ToTarget>

    ghost function View(): System
      reads this, source, target
    {
      System(source.View(), target.View(), toTarget, toSource, now, sent, received, forked, snapshot, history)
    }

    constructor (db: Db)
      ensures View() == Start(db) && Reachable(View()) && fresh(source) && fresh(target)
    {
      source := new ExportJob(db);
      target := new ImportJob();
      toTarget, toSource, now := [], [], 0;
      sent, received, forked, snapshot, history := [], [], false, [], [];
      new;
      LeadsNowhere(Start(db));
    }

    /** The source's new output joins the history of what was sent. */
    ghost method Record(before: System)
      requires View() == before.(src := View().src)
      modifies this
      ensures View() == Advance(before, old(View()).src)
    {
      var next := Advance(before, source.View());
      sent, history := next.sent, next.history;
    }

    method SourceCron(timeout: nat, refuse: bool, busy: bool, forkFails: bool, order: seq<string>)
      requires Walks(order, source.db)
      modifies this, source
      ensures View() == Step(old(View()), Event.SourceCron(timeout, refuse, busy, forkFails, order))
    {
      hide Source.Proceed, Advance, Walks;
      ghost var before := View();
      var waiting := source.state == WaitingToSnapshot;
      source.Proceed(now, timeout, refuse, busy, forkFails, order);
      if waiting && source.state == Snapshotting {
        ForkedPipe(before.src, now, timeout, refuse, busy, forkFails, order);
        sent := sent + source.pipe;
        forked, snapshot := true, Snapshot(before.src.db, order);
      } else {
        Record(before);
      }
    }

    method SourceReceive(timeout: nat, refuse: bool)
      modifies this, source
      ensures View() == Step(old(View()), Event.SourceReceive(timeout, refuse))
    {
      hide Source.Receive, Advance;
      if !source.client || |toSource| == 0 { return; }
      var m := toSource[0];
      toSource := toSource[1..];
      ghost var before := View();
      source.Receive(m, now, timeout, refuse);
      Record(before);
    }

    method SourceFlush(n: nat)
      modifies this, source
      ensures View() == Step(old(View()), Event.SourceFlush(n))
    {
      if !(source.queued || source.handler) || n > |source.out| { return; }
      var written := source.Flush(n);
      toTarget := toTarget + written;
    }

    method ChildWrites()
      modifies this, source
      ensures View() == Step(old(View()), Event.ChildWrites)
    {
      if !source.client || |source.pipe| == 0 { return; }
      toTarget := toTarget + [source.pipe[0]];
      source.pipe := source.pipe[1..];
    }

    method PipeStalls()
      modifies this, source
      ensures View() == Step(old(View()), Event.PipeStalls)
    {
      source.PipeStalls();
    }

    method ClientWrite(effect: Effect)
      modifies this, source
      ensures View() == Step(old(View()), Event.ClientWrite(effect))
    {
      hide Source.ClientWrite, Advance;
      ghost var before := View();
      source.ClientWrite(effect);
      Record(before);
      if before.forked && before.src.Admits() { history := history + [Write(effect)]; }
    }

    /** What else changes the source. */
    method SourceEvent(e: Event)
      requires e.UpdatePause? || e.SourceAck? || e.ChildDone? || e.SourceCancel? || e.SourceConnectionLost? || e.OwnershipChange?
      modifies this, source
      ensures View() == Step(old(View()), e)
    {
      hide Source.CronAck, Source.ChildDone, Source.Finish, Source.ConnectionLost, Source.OwnershipChange, Advance;
      ghost var before := View();
      match e {
        case UpdatePause => source.UpdatePausedActions(now);
        case SourceAck => source.CronAck();
        case ChildDone(ok) =>
          if ok && |source.pipe| > 0 { return; }
          source.ChildDone(ok);
        case SourceCancel =>
          if source.state == ExportFailed || source.state == ExportCancelled || source.state == ExportSuccess { return; }
          source.Finish(ExportCancelled);
        case SourceConnectionLost => source.ConnectionLost();
        case OwnershipChange(isTarget) =>
          if isTarget && !target.owns { return; }
          source.OwnershipChange(isTarget);
      }
      Record(before);
    }

    method TargetReceive(accept: bool)
      modifies this, target
      ensures View() == Step(old(View()), Event.TargetReceive(accept))
    {
      hide Target.Receive;
      if !target.client || |toTarget| == 0 { return; }
      var m := toTarget[0];
      toTarget := toTarget[1..];
      received := received + [m];
      var replies := target.Receive(m, accept);
      toSource := toSource + replies;
    }

    /** What else changes the target. */
    method TargetEvent(e: Event)
      requires e.TargetProceed? || e.TargetAck? || e.TargetFails? || e.TargetConnectionLost?
      modifies this, target
      ensures View() == Step(old(View()), e)
    {
      hide Target.Proceed, Target.Fail, Target.ConnectionLost, Target.CronAck, Target.InProgress;
      match e {
        case TargetProceed(preventFailover) => target.Proceed(preventFailover);
        case TargetAck =>
          var replies := target.CronAck();
          toSource := toSource + replies;
        case TargetFails => target.Interrupt();
        case TargetConnectionLost => target.ConnectionLost();
      }
    }

    /**
     * Any event, handled in place: the objects take the step of the run. Unless it is
     * an unclean fork, what the target has applied and what is on the wire stays in
     * order. The child walks every key once.
     */
    method Handle(e: Event)
      requires e.SourceCron? ==> Walks(e.order, source.db)
      modifies this, source, target
      ensures View() == Step(old(View()), e)
      ensures old(Reachable(View())) && CleanFork(old(View()), e) ==> Reachable(View()) && Ordered(View())
    {
      hide Step, Reachable, Ordered, Walks;
      ghost var before := View();
      match e {
        case Tick(ms) => Tick(ms);
        case SourceCron(timeout, refuse, busy, forkFails, order) => SourceCron(timeout, refuse, busy, forkFails, order);
        case SourceReceive(timeout, refuse) => SourceReceive(timeout, refuse);
        case SourceFlush(n) => SourceFlush(n);
        case ChildWrites => ChildWrites();
        case PipeStalls => PipeStalls();
        case ClientWrite(effect) => ClientWrite(effect);
        case TargetReceive(accept) => TargetReceive(accept);
        case TargetProceed(_) => TargetEvent(e);
        case TargetAck => TargetEvent(e);
        case TargetFails => TargetEvent(e);
        case TargetConnectionLost => TargetEvent(e);
        case _ => SourceEvent(e);
      }
      if Reachable(before) && CleanFork(before, e) {
        ReachableStep(before, e);
        StreamInOrder(View());
      }
    }

    method Tick(ms: nat)
      modifies this
      ensures View() == Step(old(View()), Event.Tick(ms))
    {
      now := now + ms;
    }

    /** The target claims the slots: it holds what the source holds. */
    method Takeover()
      requires Reachable(View()) && target.state.ImportGranted? && !WroteSincePaused(View())
      modifies this, target
      ensures target.owns && target.state.ImportSuccess? && target.db == source.db
      ensures source.View() == old(source.View())
    {
      hide Reachable, WroteSincePaused;
      TakeoverLossless(View());
      TargetEvent(TargetProceed(false));
    }
  }

  /** A fork fills the pipe with the snapshot and changes the state, nothing else. */
  lemma ForkedPipe(a: Source, now: nat, timeout: nat, refuse: bool, busy: bool, forkFails: bool, order: seq<string>)
    requires a.state.WaitingToSnapshot? && a.Proceed(now, timeout, refuse, busy, forkFails, order).state.Snapshotting?
    ensures a.Proceed(now, timeout, refuse, busy, forkFails, order)
            == a.(pipe := Snapshot(a.db, order) + [SnapshotEof], state := Snapshotting)
  {
  }
}

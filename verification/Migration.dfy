/**
 * Atomic slot migration (src/cluster_migrateslots.c): one export job on the
 * source, one import job on the target, the two FIFO directions of their
 * connection, and client writes that never stop. This module holds the job
 * states and every handler as a function on values; `MigrationRuns` proves what
 * they keep, `MigrationLimits` exactly when, and `MigrationJobs` has them in place.
 *
 * A write is identified with its deterministic effect on the migrated slots'
 * contents (one database, no expiry, no eviction).
 */
module Migration {
  type Db = map<string, string>
  type Effect = Db -> Db

  datatype ToTarget =
    | Establish | Ack
    | Restore(key: string, value: string) | SnapshotEof
    | Write(effect: Effect)
    | Paused | Granted

  datatype ToSource = Established | Refused | AckBack | RequestPause | RequestFailover

  datatype ExportState =
    | SendEstablish | ReadEstablishResponse | WaitingToSnapshot | Snapshotting | Streaming
    | WaitingToPause | FailoverPaused | FailoverGranted
    | ExportFailed | ExportCancelled | ExportSuccess

  datatype ImportState =
    | NoJob | WaitAck | ReceiveSnapshot | WaitingForPaused | FailoverRequested | ImportGranted
    | CleaningUp | ImportFailed | ImportSuccess

  /** CLUSTER_MF_PAUSE_MULT and CLUSTER_OPERATION_TIMEOUT. */
  const PAUSE_MULT := 2
  const OPERATION_TIMEOUT := 2000

  // ---- The source ----------------------------------------------------------------

  /** The job's failover deadline and the server-wide write pause kept for slot migrations. */
  datatype Pause = Pause(mfEnd: nat, on: bool, end: nat)
  {
    /** Drops the pause once its end has come. */
    function Update(now: nat): Pause {
      if end > now then this else this.(on := false, end := 0)
    }

    function Until(deadline: nat, now: nat): Pause {
      Pause(deadline, true, if end < deadline then deadline else end).Update(now)
    }

    function Off(): Pause {
      Pause(0, false, if on then 0 else end)
    }

    predicate TimedOut(now: nat) {
      mfEnd < now || !on
    }
  }

  /**
   * The export job, its client's output buffer and the pause. `queued` is the pending-write flag and `handler` says a
   * write handler is installed on the connection; `pipe` is what the snapshot
   * child has still to hand over.
   */
  datatype Source = Source(
    state: ExportState, client: bool, out: seq<ToTarget>, queued: bool, handler: bool,
    pipe: seq<ToTarget>, db: Db, owns: bool, pause: Pause)
  {
    predicate Finished() {
      state.ExportFailed? || state.ExportCancelled? || state.ExportSuccess?
    }

    /** `state >= SLOT_EXPORT_SNAPSHOTTING` of a job in progress. */
    predicate Feeding() {
      state.Snapshotting? || state.Streaming? || state.WaitingToPause? || state.FailoverPaused? || state.FailoverGranted?
    }

    function Queue(): Source {
      this.(queued := queued || !state.Snapshotting?)
    }

    /** Appends to the output buffer; an empty buffer is queued for writing first. */
    function Send(m: ToTarget): Source {
      (if out == [] then Queue() else this).(out := out + [m])
    }

    function Finish(final: ExportState): Source {
      this.(state := final, pause := pause.Off(), client := false, out := [], queued := false, handler := false)
    }

    function BeginStreaming(): Source {
      this.(state := Streaming).Queue()
    }

    /** Pauses writes and tells the target, or waits when too much is still buffered. */
    function TryPause(now: nat, timeout: nat, refuse: bool): Source {
      if refuse then this.(state := WaitingToPause)
      else this.(pause := pause.Until(now + timeout * PAUSE_MULT, now)).Send(Paused).(state := FailoverPaused)
    }

    function OnRequestPause(now: nat, timeout: nat, refuse: bool): Source {
      if !state.Streaming? && !state.Snapshotting? then Finish(ExportFailed)
      else
        (if state.Streaming? then this else BeginStreaming()).TryPause(now, timeout, refuse)
    }

    function OnRequestFailover(now: nat): Source {
      if !state.FailoverPaused? || pause.TimedOut(now) then Finish(ExportFailed)
      else
        var deadline := now + OPERATION_TIMEOUT;
        this.(pause := if pause.mfEnd < deadline then pause.Until(deadline, now) else pause)
        .Send(Granted).(state := FailoverGranted)
    }

    function OnEstablishReply(accepted: bool): Source {
      if !state.ReadEstablishResponse? then this
      else if !accepted then Finish(ExportFailed)
      else this.(state := WaitingToSnapshot).Send(Ack)
    }

    function Receive(m: ToSource, now: nat, timeout: nat, refuse: bool): Source {
      match m
      case Established => OnEstablishReply(true)
      case Refused => OnEstablishReply(false)
      case AckBack => this
      case RequestPause => OnRequestPause(now, timeout, refuse)
      case RequestFailover => OnRequestFailover(now)
    }

    /** One pass of the state machine in cron. `order` is the child's walk over the keys. */
    function Proceed(now: nat, timeout: nat, refuse: bool, busy: bool, forkFails: bool, order: seq<string>): Source {
      match state
      case SendEstablish => this.(client := true).Send(Establish).(state := ReadEstablishResponse)
      case WaitingToSnapshot =>
        if busy || queued then this
        else if forkFails then Finish(ExportFailed)
        else this.(pipe := Snapshot(db, order) + [SnapshotEof], state := Snapshotting)
      case WaitingToPause => TryPause(now, timeout, refuse)
      case FailoverPaused =>
        if pause.TimedOut(now) then this.(pause := pause.(mfEnd := 0).Update(now)).Finish(ExportFailed) else this
      case FailoverGranted =>
        if pause.TimedOut(now) then Finish(ExportFailed) else this
      case _ => this
    }

    /** The once-a-second liveness message. */
    function CronAck(): Source {
      if Finished() || state.FailoverGranted? || state.Snapshotting? || state.SendEstablish?
         || state.ReadEstablishResponse? || queued
      then this else Send(Ack)
    }

    function ChildDone(ok: bool): Source {
      var reaped := this.(pipe := []);
      if !state.Snapshotting? then reaped
      else if ok then reaped.BeginStreaming() else reaped.Finish(ExportFailed)
    }

    function ConnectionLost(): Source {
      var closed := this.(client := false, out := [], queued := false, handler := false);
      if Finished() || state.FailoverGranted? then closed else closed.Finish(ExportFailed)
    }

    /** The slots have a new owner: the target of this job or some other node. */
    function OwnershipChange(target: bool): Source {
      var lost := this.(owns := false);
      if Finished() then lost else lost.Finish(if target then ExportSuccess else ExportFailed)
    }

    /** Whether a client write is executed rather than redirected or postponed. */
    predicate Admits() {
      owns && !pause.on
    }

    /** A client write to the migrated slots: executed, then fed to the job. */
    function ClientWrite(effect: Effect): Source {
      if !Admits() then this
      else
        var wrote := this.(db := effect(db));
        if client && Feeding() then wrote.Send(Write(effect)) else wrote
    }

    /** The socket takes no more of the snapshot: the pipe's own handler takes the place of the write handler. */
    function PipeStalled(): Source {
      if client && pipe != [] then this.(handler := false) else this
    }

    /** The socket takes the first `n` buffered messages. */
    function Flushed(n: nat): Source
      requires n <= |out|
    {
      this.(out := out[n..], queued := false, handler := n < |out|)
    }
  }

  /** The snapshot: one command per key, in the order the child walks them. */
  function Snapshot(db: Db, order: seq<string>): seq<ToTarget> {
    if order == [] then []
    else Snapshot(db, order[..|order| - 1])
         + (var k := order[|order| - 1]; if k in db then [Restore(k, db[k])] else [])
  }

  // ---- The target ----------------------------------------------------------------

  /** What one command from the source does to the migrated slots. */
  function Apply(db: Db, m: ToTarget): Db {
    match m
    case Restore(k, v) => db[k := v]
    case Write(effect) => effect(db)
    case _ => db
  }

  datatype Target = Target(state: ImportState, client: bool, db: Db, owns: bool)
  {
    predicate InProgress() {
      state.WaitAck? || state.ReceiveSnapshot? || state.WaitingForPaused? || state.FailoverRequested? || state.ImportGranted?
    }

    /** A failed import first cleans up; the connection goes at once. */
    function Fail(): Target {
      this.(state := CleaningUp, client := false)
    }

    /** The handler of each message, and what it sends back. */
    function Receive(m: ToTarget, accept: bool): (Target, seq<ToSource>) {
      match m
      case Establish =>
        if state.NoJob? && accept then (this.(state := WaitAck), [Established]) else (this, [Refused])
      case Ack =>
        (if state.WaitAck? then this.(state := ReceiveSnapshot) else this, [])
      case SnapshotEof =>
        if state.NoJob? then (this, [])
        else if !state.ReceiveSnapshot? then (Fail(), [])
        else (this.(state := WaitingForPaused), [RequestPause])
      case Paused =>
        if state.NoJob? then (this, [])
        else if !state.WaitingForPaused? then (Fail(), [])
        else (this.(state := FailoverRequested), [RequestFailover])
      case Granted =>
        if state.NoJob? then (this, [])
        else if !state.FailoverRequested? then (Fail(), [])
        else (this.(state := ImportGranted), [])
      case _ =>
        (if state.NoJob? then this else this.(db := Apply(db, m)), [])
    }

    /** One pass of the state machine: claim the slots, or clean up after a failure. */
    function Proceed(preventFailover: bool): Target {
      match state
      case ImportGranted =>
        if preventFailover then this else this.(owns := true, state := ImportSuccess, client := false)
      case CleaningUp =>
        this.(db := if owns then db else map[], state := ImportFailed)
      case _ => this
    }

    function CronAck(): seq<ToSource> {
      if InProgress() && !state.WaitAck? && client then [AckBack] else []
    }

    function ConnectionLost(): Target {
      if InProgress() then Fail() else this.(client := false)
    }
  }
}

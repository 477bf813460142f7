/**
 * The background rewrite of the append-only log with the log switched on
 * (src/aof.c:774-835, 2464-2532, 2645-2763), as single file operations between
 * which the server may crash. Proves that the manifest on disk always names
 * existing files whose replay gives every command written so far.
 */
module AofRewrite {
  import opened Common
  import opened AofManifest

  type Data = map<string, string>
  /** A command is what it does to the dataset. */
  type Command = Data -> Data

  function Apply(data: Data, cmds: seq<Command>): Data {
    if |cmds| == 0 then data else cmds[|cmds| - 1](Apply(data, cmds[..|cmds| - 1]))
  }

  /** A BASE file holds a dataset, an INCR file commands. */
  datatype File = Snapshot(data: Data) | Log(cmds: seq<Command>)

  datatype Disk = Disk(files: map<Name, File>, manifest: Manifest)

  // ---- Loading ------------------------------------------------------------------------------

  ghost predicate HasIncr(files: map<Name, File>, n: nat) {
    IncrFile(n) in files && files[IncrFile(n)].Log?
  }

  ghost predicate IsEmpty(files: map<Name, File>, n: nat) {
    HasIncr(files, n) && files[IncrFile(n)].cmds == []
  }

  ghost function Commands(files: map<Name, File>, n: nat): seq<Command> {
    if HasIncr(files, n) then files[IncrFile(n)].cmds else []
  }

  ghost predicate HasBase(files: map<Name, File>, base: Option<nat>) {
    base.Some? ==> BaseFile(base.value) in files && files[BaseFile(base.value)].Snapshot?
  }

  /** Every file that loading reads is there. */
  ghost predicate Loadable(files: map<Name, File>, m: Manifest) {
    HasBase(files, m.base) && forall i: nat | i < |m.incrs| :: HasIncr(files, m.incrs[i])
  }

  function LoadBase(files: map<Name, File>, base: Option<nat>): Data
    requires HasBase(files, base)
  {
    if base.None? then map[] else files[BaseFile(base.value)].data
  }

  /** Base first, then the INCR files in the order of the list. */
  function Load(files: map<Name, File>, base: Option<nat>, incrs: seq<nat>): Data
    requires HasBase(files, base) && forall i: nat | i < |incrs| :: HasIncr(files, incrs[i])
  {
    if |incrs| == 0 then LoadBase(files, base)
    else
      assert HasIncr(files, incrs[|incrs| - 1]);
      Apply(Load(files, base, incrs[..|incrs| - 1]), files[IncrFile(incrs[|incrs| - 1])].cmds)
  }

  // ---- The server ------------------------------------------------------------------------------

  /** Where the server is between two file operations. */
  datatype At =
    | Idle
    | Opened(next: Manifest)
    | Forking
    | Renamed(next: Manifest)
    | Undoing(name: Name)
    | Deleting(todo: seq<Name>)

  /** `child` is the dataset the rewriting child saw at the fork; `written` all commands so far. */
  datatype Server = Server(disk: Disk, manifest: Manifest, at: At, child: Option<Data>, written: seq<Command>)

  /** Replacing the manifest: done, left as it was, or done but reported as failed. */
  datatype Outcome = Done | Kept | DoneButFailed

  datatype Event =
    | Write(cmd: Command)
    | OpenIncr(ok: bool) | PersistOpen(outcome: Outcome) | Fork(ok: bool)
    | ChildFailed | RenameBase(ok: bool) | PersistBase(outcome: Outcome)
    | DeleteHistory | SkipDeletion | Unlink | PersistHistory(outcome: Outcome)
    | Restart

  function Last(m: Manifest): nat {
    if |m.incrs| == 0 then 0 else m.incrs[|m.incrs| - 1]
  }

  /** The manifest read back: the counters come from the newest entries. */
  function Reloaded(m: Manifest): Manifest {
    m.(baseSeq := if m.base.Some? then m.base.value else 0, incrSeq := Last(m))
  }

  function Start(base: nat, data: Data): Server {
    var m := Manifest(Some(base), [1], [], base, 1);
    Server(Disk(map[BaseFile(base) := Snapshot(data), IncrFile(1) := Log([])], m), m, Idle, None, [_ => data])
  }

  /** One file operation, or a crash followed by a restart. An event that cannot happen now changes nothing. */
  function Step(s: Server, e: Event): Server {
    match e
    case Write(cmd) =>
      var name := IncrFile(Last(s.manifest));
      if s.at != Idle || name !in s.disk.files || !s.disk.files[name].Log? then s
      else s.(disk := s.disk.(files := s.disk.files[name := Log(s.disk.files[name].cmds + [cmd])]),
              written := s.written + [cmd])
    case OpenIncr(ok) =>
      if s.at != Idle || s.child.Some? || !ok then s
      else
        var next := WithNewIncr(s.manifest);
        s.(disk := s.disk.(files := s.disk.files[IncrFile(next.incrSeq) := Log([])]), at := Opened(next))
    case PersistOpen(outcome) =>
      if !s.at.Opened? then s
      else (match outcome
            case Done => s.(disk := s.disk.(manifest := s.at.next), manifest := s.at.next, at := Forking)
            case Kept => s.(at := Idle)
            case DoneButFailed => s.(disk := s.disk.(manifest := s.at.next), at := Idle))
    case Fork(ok) =>
      if s.at != Forking then s
      else s.(at := Idle, child := if ok then Some(Apply(map[], s.written)) else None)
    case ChildFailed => if s.at != Idle then s else s.(child := None)
    case RenameBase(ok) =>
      if s.at != Idle || s.child.None? then s
      else if !ok then s.(child := None)
      else
        var next := Rewritten(WithNewBase(s.manifest));
        s.(disk := s.disk.(files := s.disk.files[BaseFile(next.baseSeq) := Snapshot(s.child.value)]), at := Renamed(next))
    case PersistBase(outcome) =>
      if !s.at.Renamed? then s
      else
        var name := BaseFile(s.at.next.baseSeq);
        (match outcome
         case Done => s.(disk := s.disk.(manifest := s.at.next), manifest := s.at.next, child := None,
                         at := Deleting(s.at.next.history))
         case Kept => s.(child := None, at := Undoing(name))
         case DoneButFailed => s.(disk := s.disk.(manifest := s.at.next), child := None, at := Undoing(name)))
    case DeleteHistory => if s.at != Idle then s else s.(at := Deleting(s.manifest.history))
    case SkipDeletion => if s.at != Deleting(s.manifest.history) then s else s.(at := Idle)
    case Unlink =>
      (match s.at
       case Undoing(name) => s.(disk := s.disk.(files := s.disk.files - {name}), at := Idle)
       case Deleting(todo) =>
         if |todo| == 0 then s
         else s.(disk := s.disk.(files := s.disk.files - {todo[0]}), at := Deleting(todo[1..]))
       case _ => s)
    case PersistHistory(outcome) =>
      (match s.at
       case Deleting(todo) =>
         if |todo| > 0 then s
         else
           var next := WithoutHistory(s.manifest);
           s.(disk := if outcome == Kept then s.disk else s.disk.(manifest := next), manifest := next, at := Idle)
       case _ => s)
    case Restart =>
      s.(manifest := Reloaded(s.disk.manifest), at := Idle, child := None)
  }

  // ---- The invariant ---------------------------------------------------------------------------

  /** Counters name the newest entries; INCR files are in order; history is older than what is live. */
  ghost predicate Ordered(m: Manifest) {
    && |m.incrs| > 0 && m.incrSeq == Last(m) && m.baseSeq == (if m.base.Some? then m.base.value else 0)
    && (forall i: nat, j: nat | i < j < |m.incrs| :: m.incrs[i] < m.incrs[j])
    && (forall i: nat | i < |m.history| :: Older(m, m.history[i]))
  }

  predicate Older(m: Manifest, name: Name)
    requires |m.incrs| > 0
  {
    match name
    case BaseFile(n) => m.base.Some? && n < m.base.value
    case IncrFile(n) => n < m.incrs[0]
  }

  /** The manifest on disk: as in memory, or with one more INCR file that is still empty. */
  ghost predicate Extends(s: Server) {
    var d, m := s.disk.manifest, s.manifest;
    && d.base == m.base
    && (d.incrs == m.incrs
        || (d.incrs == m.incrs + [m.incrSeq + 1] && IsEmpty(s.disk.files, m.incrSeq + 1)))
  }

  ghost predicate Sound(s: Server) {
    && Ordered(s.manifest) && Ordered(Reloaded(s.disk.manifest))
    && Loadable(s.disk.files, s.disk.manifest) && Loadable(s.disk.files, s.manifest) && Extends(s)
    && Load(s.disk.files, s.manifest.base, s.manifest.incrs) == Apply(map[], s.written)
  }

  /** What the operation in progress relies on. */
  ghost predicate Prepared(s: Server) {
    match s.at
    case Idle => true
    case Opened(next) => next == WithNewIncr(s.manifest) && IsEmpty(s.disk.files, next.incrSeq) && s.child.None?
    case Forking => IsEmpty(s.disk.files, Last(s.manifest)) && s.disk.manifest.incrs == s.manifest.incrs && s.child.None?
    case Renamed(next) => next == Rewritten(WithNewBase(s.manifest)) && s.child.Some?
                          && BaseFile(next.baseSeq) in s.disk.files
                          && s.disk.files[BaseFile(next.baseSeq)] == Snapshot(s.child.value)
    case Undoing(name) => name == BaseFile(s.manifest.baseSeq + 1)
    case Deleting(todo) => |s.manifest.incrs| > 0 && forall i: nat | i < |todo| :: Older(s.manifest, todo[i])
  }

  /** A child that is rewriting saw everything up to the INCR file now being written. */
  ghost predicate ChildFits(s: Server) {
    s.child.Some? ==> && s.disk.manifest.incrs == s.manifest.incrs
                      && Apply(s.child.value, Commands(s.disk.files, Last(s.manifest))) == Apply(map[], s.written)
  }

  ghost predicate Inv(s: Server) {
    Sound(s) && HasIncr(s.disk.files, Last(s.manifest)) && Prepared(s) && ChildFits(s)
  }

  // ---- Loading after a file changed -------------------------------------------------------------

  lemma ApplyMore(data: Data, cmds: seq<Command>, cmd: Command)
    ensures Apply(data, cmds + [cmd]) == cmd(Apply(data, cmds))
  {
    assert (cmds + [cmd])[..|cmds|] == cmds;
  }

  /** Loading depends only on the files that the lists name. */
  lemma {:induction false} LoadSame(f: map<Name, File>, g: map<Name, File>, base: Option<nat>, incrs: seq<nat>)
    requires HasBase(f, base) && forall i: nat | i < |incrs| :: HasIncr(f, incrs[i])
    requires HasBase(g, base) && forall i: nat | i < |incrs| :: HasIncr(g, incrs[i])
    requires LoadBase(f, base) == LoadBase(g, base)
    requires forall i: nat | i < |incrs| :: Commands(f, incrs[i]) == Commands(g, incrs[i])
    ensures Load(f, base, incrs) == Load(g, base, incrs)
  {
    if |incrs| > 0 {
      var front, last := incrs[..|incrs| - 1], incrs[|incrs| - 1];
      LoadSame(f, g, base, front);
      assert Commands(f, last) == Commands(g, last);
    }
  }

  /** One more INCR file at the end. */
  lemma LoadMore(f: map<Name, File>, base: Option<nat>, incrs: seq<nat>, n: nat)
    requires HasBase(f, base) && (forall i: nat | i < |incrs| :: HasIncr(f, incrs[i])) && HasIncr(f, n)
    ensures Load(f, base, incrs + [n]) == Apply(Load(f, base, incrs), Commands(f, n))
  {
    var all := incrs + [n];
    assert forall i: nat | i < |all| :: all[i] == if i < |incrs| then incrs[i] else n;
    assert all[..|incrs|] == incrs;
  }

  /** The manifest on disk loads like the one in memory. */
  lemma DiskLoads(s: Server)
    requires Sound(s)
    ensures Load(s.disk.files, s.disk.manifest.base, s.disk.manifest.incrs) == Apply(map[], s.written)
  {
    var d, m := s.disk.manifest, s.manifest;
    if d.incrs != m.incrs {
      LoadMore(s.disk.files, m.base, m.incrs, m.incrSeq + 1);
    }
  }

  /** The files that either manifest reads. */
  ghost predicate Live(s: Server, name: Name) {
    match name
    case BaseFile(n) => s.manifest.base == Some(n)
    case IncrFile(n) => n in s.manifest.incrs || n in s.disk.manifest.incrs
  }

  /** Files that are not live may come and go. */
  lemma OtherFiles(s: Server, g: map<Name, File>)
    requires Sound(s)
    requires forall name | Live(s, name) && name in s.disk.files :: name in g && g[name] == s.disk.files[name]
    ensures Sound(s.(disk := s.disk.(files := g)))
    ensures forall n: nat | n in s.manifest.incrs :: HasIncr(g, n) && Commands(g, n) == Commands(s.disk.files, n)
  {
    hide Load, Apply, Ordered;
    var f, m, d := s.disk.files, s.manifest, s.disk.manifest;
    forall n: nat | HasIncr(f, n) && (n in m.incrs || n in d.incrs)
      ensures HasIncr(g, n) && Commands(g, n) == Commands(f, n)
    {
      assert Live(s, IncrFile(n));
    }
    if m.base.Some? { assert Live(s, BaseFile(m.base.value)); }
    assert forall i: nat | i < |m.incrs| :: m.incrs[i] in m.incrs;
    assert forall i: nat | i < |d.incrs| :: d.incrs[i] in d.incrs;
    LoadSame(f, g, m.base, m.incrs);
  }

  /** What is older than everything live is not live. */
  lemma OlderIsNotLive(s: Server, name: Name)
    requires Ordered(s.manifest) && Extends(s) && Older(s.manifest, name)
    ensures !Live(s, name)
  {
    var m, d := s.manifest, s.disk.manifest;
    if name.IncrFile? {
      assert forall i: nat | i < |m.incrs| :: name.number < m.incrs[0] <= m.incrs[i];
      assert forall i: nat | i < |d.incrs| :: d.incrs[i] == (if i < |m.incrs| then m.incrs[i] else m.incrSeq + 1);
      assert name.number < m.incrSeq;
    }
  }

  /** Soundness is about disk and manifest only. */
  lemma SoundIs(s: Server, at: At, child: Option<Data>)
    requires Sound(s)
    ensures Sound(s.(at := at, child := child))
  {
    hide Load, Apply, Ordered;
  }

  lemma LastIn(m: Manifest)
    requires Ordered(m)
    ensures |m.incrs| > 0 && Last(m) in m.incrs && m.incrSeq == Last(m) && (m.base.Some? ==> m.base.value == m.baseSeq)
    ensures forall n | n in m.incrs :: n <= Last(m)
    ensures m.incrs == m.incrs[..|m.incrs| - 1] + [Last(m)]
    ensures var front := m.incrs[..|m.incrs| - 1]; forall i: nat | i < |front| :: front[i] == m.incrs[i] < Last(m)
  {
  }

  /** The next names are not in use. */
  lemma NextIsFree(s: Server)
    requires Sound(s)
    ensures |s.manifest.incrs| > 0 && s.manifest.incrSeq == Last(s.manifest) && Last(s.manifest) in s.manifest.incrs
    ensures HasIncr(s.disk.files, Last(s.manifest))
    ensures !Live(s, BaseFile(s.manifest.baseSeq + 1))
    ensures Live(s, IncrFile(s.manifest.incrSeq + 1)) ==> IsEmpty(s.disk.files, s.manifest.incrSeq + 1)
  {
    hide Load, Apply;
    LastIn(s.manifest);
    assert HasIncr(s.disk.files, s.manifest.incrs[|s.manifest.incrs| - 1]);
  }

  // ---- Every operation keeps the invariant --------------------------------------------------------

  /** The value of the log after a command was appended to its last file. */
  lemma AppendedValue(f: map<Name, File>, m: Manifest, cmd: Command)
    requires Ordered(m) && Loadable(f, m)
    ensures HasIncr(f, Last(m))
    ensures var g := f[IncrFile(Last(m)) := Log(f[IncrFile(Last(m))].cmds + [cmd])];
            && Loadable(g, m) && Commands(g, Last(m)) == Commands(f, Last(m)) + [cmd]
            && Load(g, m.base, m.incrs) == cmd(Load(f, m.base, m.incrs))
            && (forall n: nat | n != Last(m) && HasIncr(f, n) :: HasIncr(g, n) && Commands(g, n) == Commands(f, n))
  {
    hide Load, Apply;
    LastIn(m);
    var last, front := Last(m), m.incrs[..|m.incrs| - 1];
    assert HasIncr(f, m.incrs[|m.incrs| - 1]);
    var g := f[IncrFile(last) := Log(f[IncrFile(last)].cmds + [cmd])];
    assert forall i: nat | i < |front| :: HasIncr(f, m.incrs[i]) && HasIncr(f, front[i]) && HasIncr(g, front[i]);
    LoadSame(f, g, m.base, front);
    LoadMore(f, m.base, front, last);
    LoadMore(g, m.base, front, last);
    ApplyMore(Load(f, m.base, front), Commands(f, last), cmd);
  }

  lemma WriteKeeps(s: Server, cmd: Command)
    requires Inv(s) && s.at == Idle
    ensures Inv(Step(s, Write(cmd)))
  {
    hide Load, Apply, LoadBase, Ordered;
    var f, m, last := s.disk.files, s.manifest, Last(s.manifest);
    AppendedValue(f, m, cmd);
    NextIsFree(s);
    ApplyMore(map[], s.written, cmd);
    if s.child.Some? { ApplyMore(s.child.value, Commands(f, last), cmd); }
    var g := f[IncrFile(last) := Log(f[IncrFile(last)].cmds + [cmd])];
    assert Loadable(g, s.disk.manifest);
  }

  lemma OpenKeeps(s: Server)
    requires Inv(s) && s.at == Idle && s.child.None?
    ensures Inv(Step(s, OpenIncr(true)))
  {
    hide Sound;
    var n := s.manifest.incrSeq + 1;
    NextIsFree(s);
    SoundIs(s, Opened(WithNewIncr(s.manifest)), None);
    OtherFiles(s.(at := Opened(WithNewIncr(s.manifest))), s.disk.files[IncrFile(n) := Log([])]);
  }

  lemma RenameKeeps(s: Server)
    requires Inv(s) && s.at == Idle && s.child.Some?
    ensures Inv(Step(s, RenameBase(true)))
  {
    hide Sound, Apply;
    NextIsFree(s);
    var at := Renamed(Rewritten(WithNewBase(s.manifest)));
    SoundIs(s, at, s.child);
    OtherFiles(s.(at := at), s.disk.files[BaseFile(s.manifest.baseSeq + 1) := Snapshot(s.child.value)]);
  }

  lemma UndoKeeps(s: Server)
    requires Inv(s) && s.at.Undoing?
    ensures Inv(Step(s, Unlink))
  {
    hide Sound, Apply;
    NextIsFree(s);
    SoundIs(s, Idle, s.child);
    OtherFiles(s.(at := Idle), s.disk.files - {s.at.name});
  }

  lemma DeleteKeeps(s: Server)
    requires Inv(s) && s.at.Deleting? && |s.at.todo| > 0
    ensures Inv(Step(s, Unlink))
  {
    OlderIsNotLive(s, s.at.todo[0]);
    hide Sound, Apply;
    NextIsFree(s);
    SoundIs(s, Deleting(s.at.todo[1..]), s.child);
    OtherFiles(s.(at := Deleting(s.at.todo[1..])), s.disk.files - {s.at.todo[0]});
  }

  lemma NewIncrOrdered(m: Manifest)
    requires Ordered(m)
    ensures Ordered(WithNewIncr(m)) && Last(WithNewIncr(m)) == m.incrSeq + 1
  {
    LastIn(m);
    var next := WithNewIncr(m);
    assert forall i: nat | i < |next.incrs| :: next.incrs[i] == if i < |m.incrs| then m.incrs[i] else m.incrSeq + 1;
    assert forall name | Older(m, name) :: Older(next, name);
  }

  lemma PersistOpenKeeps(s: Server, outcome: Outcome)
    requires Inv(s) && s.at.Opened?
    ensures Inv(Step(s, PersistOpen(outcome)))
  {
    hide Load, Apply, LoadBase, Ordered;
    var m, next, f := s.manifest, s.at.next, s.disk.files;
    NewIncrOrdered(m);
    NextIsFree(s);
    LoadMore(f, m.base, m.incrs, next.incrSeq);
    ApplyNothing(Load(f, m.base, m.incrs));
    assert forall i: nat | i < |next.incrs| :: next.incrs[i] == if i < |m.incrs| then m.incrs[i] else next.incrSeq;
    assert Loadable(f, next) && Reloaded(next) == next;
  }

  lemma ApplyNothing(data: Data)
    ensures Apply(data, []) == data
  {
  }

  lemma RewrittenOrdered(m: Manifest)
    requires Ordered(m)
    ensures var next := Rewritten(WithNewBase(m));
            Ordered(next) && Reloaded(next) == next && next.base == Some(m.baseSeq + 1) && next.incrs == [Last(m)]
  {
    LastIn(m);
    var next, front := Rewritten(WithNewBase(m)), m.incrs[..|m.incrs| - 1];
    AsHistoryIs(front);
    assert forall i: nat | i < |m.incrs| :: m.incrs[0] <= m.incrs[i];
    assert forall name | Older(m, name) :: Older(next, name);
    assert forall i: nat | i < |next.history| :: Older(next, next.history[i]);
  }

  lemma LoadOne(f: map<Name, File>, base: Option<nat>, n: nat)
    requires HasBase(f, base) && HasIncr(f, n)
    ensures Load(f, base, [n]) == Apply(LoadBase(f, base), Commands(f, n))
  {
    hide Apply;
    LoadMore(f, base, [], n);
    assert [] + [n] == [n];
  }

  lemma PersistBaseKeeps(s: Server, outcome: Outcome)
    requires Inv(s) && s.at.Renamed? && outcome != DoneButFailed
    ensures Inv(Step(s, PersistBase(outcome)))
  {
    hide Load, Apply, Ordered;
    var m, next, f := s.manifest, s.at.next, s.disk.files;
    NextIsFree(s);
    RewrittenOrdered(m);
    if outcome == Done {
      OrderedHistory(next);
      LoadOne(f, next.base, Last(m));
    } else {
      SoundIs(s, Undoing(BaseFile(m.baseSeq + 1)), None);
    }
  }

  lemma OrderedHistory(m: Manifest)
    requires Ordered(m)
    ensures |m.incrs| > 0 && forall i: nat | i < |m.history| :: Older(m, m.history[i])
  {
  }

  lemma RestartKeeps(s: Server)
    requires Inv(s)
    ensures Inv(Step(s, Restart))
  {
    hide Load, Apply, LoadBase, Ordered;
    DiskLoads(s);
    LastIn(Reloaded(s.disk.manifest));
    assert HasIncr(s.disk.files, s.disk.manifest.incrs[|s.disk.manifest.incrs| - 1]);
  }

  lemma HistoryKeeps(s: Server, e: Event)
    requires Inv(s) && (e.DeleteHistory? || e.SkipDeletion? || e.PersistHistory?)
    ensures Inv(Step(s, e))
  {
    hide Load, LoadBase, Apply;
    OrderedHistory(s.manifest);
  }

  lemma ChildKeeps(s: Server, e: Event)
    requires Inv(s) && (e.Fork? || e.ChildFailed?)
    ensures Inv(Step(s, e))
  {
    hide Load, LoadBase, Ordered;
    if e.Fork? { ApplyNothing(Apply(map[], s.written)); }
  }

  lemma StepKeeps(s: Server, e: Event)
    requires Inv(s) && e != PersistBase(DoneButFailed)
    ensures Inv(Step(s, e))
  {
    hide Inv;
    match e {
      case Write(cmd) => if s.at == Idle { WriteKeeps(s, cmd); }
      case OpenIncr(ok) => if s.at == Idle && s.child.None? && ok { OpenKeeps(s); }
      case PersistOpen(outcome) => if s.at.Opened? { PersistOpenKeeps(s, outcome); }
      case RenameBase(ok) =>
        if s.at == Idle && s.child.Some? {
          if ok { RenameKeeps(s); } else { ChildKeeps(s, ChildFailed); }
        }
      case PersistBase(outcome) => if s.at.Renamed? { PersistBaseKeeps(s, outcome); }
      case Unlink =>
        if s.at.Undoing? { UndoKeeps(s); }
        if s.at.Deleting? && |s.at.todo| > 0 { DeleteKeeps(s); }
      case Restart => RestartKeeps(s);
      case Fork(_) => ChildKeeps(s, e);
      case ChildFailed => ChildKeeps(s, e);
      case _ => HistoryKeeps(s, e);
    }
  }

  // ---- Whole runs ------------------------------------------------------------------------------

  /** Replacing the manifest at the end of a rewrite is atomic: done, or left as it was. */
  ghost predicate NoFailedReport(events: seq<Event>) {
    forall i: nat | i < |events| :: events[i] != PersistBase(DoneButFailed)
  }

  function Run(s: Server, events: seq<Event>): Server {
    if |events| == 0 then s else Step(Run(s, events[..|events| - 1]), events[|events| - 1])
  }

  lemma StartIsSound(base: nat, data: Data)
    ensures Inv(Start(base, data))
  {
    var s := Start(base, data);
    LoadOne(s.disk.files, Some(base), 1);
    assert Apply(map[], s.written) == data by { ApplyMore(map[], [], _ => data); assert [] + s.written == s.written; }
  }

  lemma {:induction false} RunKeeps(s: Server, events: seq<Event>)
    requires Inv(s) && NoFailedReport(events)
    ensures Inv(Run(s, events))
  {
    hide Inv, Step;
    if |events| > 0 {
      RunKeeps(s, events[..|events| - 1]);
      StepKeeps(Run(s, events[..|events| - 1]), events[|events| - 1]);
    }
  }

  /**
   * At every point between two file operations, after any number of successful and
   * failed rewrites, crashes and restarts: the manifest on disk names existing BASE
   * and INCR files, with INCR numbers rising as its reader demands, and loading them
   * gives the dataset of all commands written.
   */
  lemma RewriteIsCrashConsistent(base: nat, data: Data, events: seq<Event>)
    requires NoFailedReport(events)
    ensures var s := Run(Start(base, data), events);
            && Loadable(s.disk.files, s.disk.manifest)
            && (forall i: nat, j: nat | i < j < |s.disk.manifest.incrs| :: s.disk.manifest.incrs[i] < s.disk.manifest.incrs[j])
            && Load(s.disk.files, s.disk.manifest.base, s.disk.manifest.incrs) == Apply(map[], s.written)
  {
    hide Run, Start, Load, Apply;
    StartIsSound(base, data);
    RunKeeps(Start(base, data), events);
    DiskLoads(Run(Start(base, data), events));
  }

  /**
   * The excluded outcome is the only one that breaks this: when the new manifest is
   * in place but reported as failed, the handler unlinks the BASE file it names.
   */
  lemma FailedReportLosesBase(s: Server)
    requires Inv(s) && s.at.Renamed?
    ensures var t := Step(Step(s, PersistBase(DoneButFailed)), Unlink);
            !Loadable(t.disk.files, t.disk.manifest)
  {
  }

  /** Such a state exists: a first rewrite, up to the rename of its BASE file. */
  lemma RenamedIsReachable(base: nat, data: Data)
    ensures var s := Step(Step(Step(Step(Start(base, data), OpenIncr(true)), PersistOpen(Done)), Fork(true)), RenameBase(true));
            Inv(s) && s.at.Renamed?
  {
    hide Inv;
    var s0 := Start(base, data);
    StartIsSound(base, data);
    StepKeeps(s0, OpenIncr(true));
    var s1 := Step(s0, OpenIncr(true));
    StepKeeps(s1, PersistOpen(Done));
    var s2 := Step(s1, PersistOpen(Done));
    StepKeeps(s2, Fork(true));
    StepKeeps(Step(s2, Fork(true)), RenameBase(true));
  }

  // ---- HISTORY files -------------------------------------------------------------------------------

  /** The HISTORY file that a step unlinks. */
  function Removed(s: Server, e: Event): set<Name> {
    if e.Unlink? && s.at.Deleting? && |s.at.todo| > 0 then {s.at.todo[0]} else {}
  }

  /** The HISTORY files unlinked in a run. */
  function Unlinked(s: Server, events: seq<Event>): set<Name> {
    if |events| == 0 then {}
    else Unlinked(s, events[..|events| - 1]) + Removed(Run(s, events[..|events| - 1]), events[|events| - 1])
  }

  /** The names of `history` that are missing are exactly those in `gone`. */
  ghost predicate Listed(files: map<Name, File>, history: seq<Name>, gone: set<Name>) {
    forall i: nat | i < |history| :: history[i] in files <==> history[i] !in gone
  }

  /** Both manifests list HISTORY files that exist unless they are gone, and what is gone is never used again. */
  ghost predicate Accounted(s: Server, gone: set<Name>) {
    && Listed(s.disk.files, s.disk.manifest.history, gone) && Listed(s.disk.files, s.manifest.history, gone)
    && |s.manifest.incrs| > 0 && forall name | name in gone :: Older(s.manifest, name)
  }

  lemma HistoryIsOlder(s: Server)
    requires Sound(s)
    ensures |s.manifest.incrs| > 0
    ensures forall i: nat | i < |s.manifest.history| :: Older(s.manifest, s.manifest.history[i])
    ensures forall i: nat | i < |s.disk.manifest.history| :: Older(s.manifest, s.disk.manifest.history[i])
    ensures forall name :: Older(s.manifest, name) ==> name != IncrFile(s.manifest.incrSeq + 1) && name != BaseFile(s.manifest.baseSeq + 1)
    ensures s.disk.manifest.base == s.manifest.base && |s.disk.manifest.incrs| > 0
            && s.disk.manifest.incrs[0] == s.manifest.incrs[0]
  {
    hide Load, Apply, LoadBase;
    var d := Reloaded(s.disk.manifest);
    assert d.history == s.disk.manifest.history;
    assert s.manifest.incrs[0] <= Last(s.manifest) by { LastIn(s.manifest); assert s.manifest.incrs[0] in s.manifest.incrs; }
  }

  /** Files that no history names may change. */
  lemma FilesAccounted(s: Server, t: Server, gone: set<Name>)
    requires Sound(s) && Accounted(s, gone)
    requires t.manifest == s.manifest && t.disk.manifest == s.disk.manifest
    requires forall name | Older(s.manifest, name) :: name in t.disk.files <==> name in s.disk.files
    ensures Accounted(t, gone)
  {
    hide Load, Apply, Sound;
    HistoryIsOlder(s);
  }

  lemma DeletedAccounted(s: Server, gone: set<Name>)
    requires Inv(s) && Accounted(s, gone) && s.at.Deleting? && |s.at.todo| > 0
    ensures Accounted(Step(s, Unlink), gone + {s.at.todo[0]})
  {
    hide Sound;
  }

  lemma ManifestAccounted(s: Server, e: Event, gone: set<Name>)
    requires Inv(s) && Accounted(s, gone) && (e.PersistOpen? || e.PersistHistory? || e.Restart?)
    ensures Accounted(Step(s, e), gone)
  {
    HistoryIsOlder(s);
    hide Sound, Load, Apply;
    assert forall name | name in gone :: Older(s.manifest, name);
  }

  lemma ListedConcat(files: map<Name, File>, a: seq<Name>, b: seq<Name>, gone: set<Name>)
    requires Listed(files, a, gone) && Listed(files, b, gone)
    ensures Listed(files, a + b, gone)
  {
  }

  /** Live files exist and none of them is gone. */
  lemma LiveListed(s: Server, gone: set<Name>)
    requires Inv(s) && Accounted(s, gone)
    ensures Listed(s.disk.files, if s.manifest.base.Some? then [BaseFile(s.manifest.base.value)] else [], gone)
    ensures Listed(s.disk.files, AsHistory(s.manifest.incrs[..|s.manifest.incrs| - 1]), gone)
  {
    hide Load, Apply, LoadBase, Ordered;
    var m, f := s.manifest, s.disk.files;
    var front := m.incrs[..|m.incrs| - 1];
    AsHistoryIs(front);
    forall name | name in gone ensures !Live(s, name) { OlderIsNotLive(s, name); }
    forall i: nat | i < |front| ensures IncrFile(front[i]) in f && IncrFile(front[i]) !in gone {
      assert HasIncr(f, m.incrs[i]) && Live(s, IncrFile(front[i]));
    }
    if m.base.Some? { assert Live(s, BaseFile(m.base.value)); }
  }

  /** What was old stays old, and the new history is the rewritten files, then the old history. */
  lemma RewrittenOlder(m: Manifest)
    requires Ordered(m)
    ensures var next := Rewritten(WithNewBase(m));
            && |m.incrs| > 0 && |next.incrs| > 0 && (forall name | Older(m, name) :: Older(next, name))
            && next.history == AsHistory(m.incrs[..|m.incrs| - 1])
                               + ((if m.base.Some? then [BaseFile(m.base.value)] else []) + m.history)
  {
    hide AsHistory;
    LastIn(m);
    assert m.incrs[0] <= Last(m) by { assert m.incrs[0] in m.incrs; }
  }

  lemma RewrittenAccounted(s: Server, gone: set<Name>)
    requires Inv(s) && Accounted(s, gone) && s.at.Renamed?
    ensures Accounted(Step(s, PersistBase(Done)), gone)
  {
    LiveListed(s, gone);
    RewrittenOlder(s.manifest);
    hide Sound, Apply, Listed, AsHistory, Rewritten, WithNewBase, Older;
    var m, f := s.manifest, s.disk.files;
    var bases := if m.base.Some? then [BaseFile(m.base.value)] else [];
    ListedConcat(f, bases, m.history, gone);
    ListedConcat(f, AsHistory(m.incrs[..|m.incrs| - 1]), bases + m.history, gone);
  }

  lemma StepAccounted(s: Server, e: Event, gone: set<Name>)
    requires Inv(s) && Accounted(s, gone) && e != PersistBase(DoneButFailed)
    ensures Accounted(Step(s, e), gone + Removed(s, e))
  {
    hide Accounted;
    assert gone + {} == gone;
    if Removed(s, e) != {} {
      DeletedAccounted(s, gone);
    } else if e.PersistOpen? || e.PersistHistory? || e.Restart? {
      ManifestAccounted(s, e, gone);
    } else if e == PersistBase(Done) && s.at.Renamed? {
      RewrittenAccounted(s, gone);
    } else {
      OthersAccounted(s, e, gone);
    }
  }

  lemma OthersAccounted(s: Server, e: Event, gone: set<Name>)
    requires Inv(s) && Accounted(s, gone) && e != PersistBase(DoneButFailed) && Removed(s, e) == {}
    requires !e.PersistOpen? && !e.PersistHistory? && !e.Restart? && !(e == PersistBase(Done) && s.at.Renamed?)
    ensures Accounted(Step(s, e), gone)
  {
    hide Accounted, Load, Apply, Sound;
    HistoryIsOlder(s);
    FilesAccounted(s, Step(s, e), gone);
  }

  lemma {:induction false} RunAccounted(base: nat, data: Data, events: seq<Event>)
    requires NoFailedReport(events)
    ensures Accounted(Run(Start(base, data), events), Unlinked(Start(base, data), events))
  {
    hide Inv, Step, Accounted, Removed;
    var s := Start(base, data);
    if |events| == 0 {
      StartAccounted(base, data);
    } else {
      var front := events[..|events| - 1];
      RunAccounted(base, data, front);
      StartIsSound(base, data);
      RunKeeps(s, front);
      StepAccounted(Run(s, front), events[|events| - 1], Unlinked(s, front));
    }
  }

  lemma StartAccounted(base: nat, data: Data)
    ensures Accounted(Start(base, data), {})
  {
  }

  /**
   * HISTORY entries are different: in every run a HISTORY file that the manifest on
   * disk names exists exactly if it was not unlinked before.
   */
  lemma HistoryExistsUnlessUnlinked(base: nat, data: Data, events: seq<Event>, name: Name)
    requires NoFailedReport(events) && name in Run(Start(base, data), events).disk.manifest.history
    ensures name in Run(Start(base, data), events).disk.files <==> name !in Unlinked(Start(base, data), events)
  {
    hide Run, Unlinked;
    RunAccounted(base, data, events);
    var history := Run(Start(base, data), events).disk.manifest.history;
    var i: nat :| i < |history| && history[i] == name;
  }

  /** A first rewrite whose first HISTORY file was just unlinked. */
  const REWRITE_THEN_UNLINK: seq<Event> :=
    [OpenIncr(true), PersistOpen(Done), Fork(true), RenameBase(true), PersistBase(Done), Unlink]

  /** So the manifest on disk may name a missing HISTORY file: a file is unlinked before the manifest forgets it. */
  lemma HistoryMayBeMissing(base: nat, data: Data)
    ensures var s := Run(Start(base, data), REWRITE_THEN_UNLINK);
            IncrFile(1) in s.disk.manifest.history && IncrFile(1) !in s.disk.files
  {
    hide Step;
    var s, es := Start(base, data), REWRITE_THEN_UNLINK;
    assert es[..5][..4] == es[..4] && es[..4][..3] == es[..3] && es[..3][..2] == es[..2] && es[..2][..1] == es[..1];
    assert Run(s, es) == Step(Run(s, es[..5]), es[5]) && Run(s, es[..5]) == Step(Run(s, es[..4]), es[4]);
    assert Run(s, es[..4]) == Step(Run(s, es[..3]), es[3]) && Run(s, es[..3]) == Step(Run(s, es[..2]), es[2]);
    assert Run(s, es[..2]) == Step(Run(s, es[..1]), es[1]) && Run(s, es[..1]) == Step(s, es[0]);
    FirstRewrite(base, data);
  }

  lemma FirstRewrite(base: nat, data: Data)
    ensures var s := Step(Step(Step(Step(Step(Step(Start(base, data), OpenIncr(true)), PersistOpen(Done)), Fork(true)),
                                         RenameBase(true)), PersistBase(Done)), Unlink);
            IncrFile(1) in s.disk.manifest.history && IncrFile(1) !in s.disk.files
  {
    hide Apply, Rewritten;
    var a := Step(Step(Start(base, data), OpenIncr(true)), PersistOpen(Done));
    assert a.manifest == Manifest(Some(base), [1, 2], [], base, 2) && a.at == Forking;
    SecondHalf(a, base);
  }

  lemma SecondHalf(a: Server, base: nat)
    requires a.manifest == Manifest(Some(base), [1, 2], [], base, 2) && a.at == Forking
    ensures var s := Step(Step(Step(Step(a, Fork(true)), RenameBase(true)), PersistBase(Done)), Unlink);
            IncrFile(1) in s.disk.manifest.history && IncrFile(1) !in s.disk.files
  {
    var next := Manifest(Some(base + 1), [2], [IncrFile(1), BaseFile(base)], base + 1, 2);
    assert Rewritten(WithNewBase(a.manifest)) == next by {
      assert [1, 2][..1] == [1] && [1][1..] == [] && AsHistory([1]) == [IncrFile(1)];
    }
    hide Apply, Rewritten, WithNewBase;
    var c := Step(Step(a, Fork(true)), RenameBase(true));
    assert c.at == Renamed(next);
  }
}

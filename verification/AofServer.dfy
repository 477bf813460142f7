/**
 * The server's side of the background rewrite (src/aof.c:658-680, 774-835,
 * 2464-2532, 2645-2763) as it runs: the manifest's lists edited in place, copies
 * that replace them, and the files. Each handler is a run of the file operations of
 * `AofRewrite`, so a crash inside it is covered there, and each keeps the invariant.
 */
module AofServer {
  import opened Common
  import opened AofManifest
  import opened AofRewrite

  // ---- Runs of file operations -----------------------------------------------------------------

  lemma {:induction false} RunConcat(s: Server, a: seq<Event>, b: seq<Event>)
    ensures Run(s, a + b) == Run(Run(s, a), b)
    decreases |b|
  {
    hide Step;
    if |b| == 0 {
      assert a + b == a;
    } else {
      RunConcat(s, a, b[..|b| - 1]);
      assert (a + b)[..|a + b| - 1] == a + b[..|b| - 1];
    }
  }

  lemma RunOne(s: Server, e: Event)
    ensures Run(s, [e]) == Step(s, e)
  {
    assert [e][..0] == [];
  }

  lemma RunTwo(s: Server, a: Event, b: Event)
    ensures Run(s, [a, b]) == Step(Step(s, a), b)
  {
    hide Step;
    RunConcat(s, [a], [b]);
    RunOne(s, a);
    RunOne(Step(s, a), b);
    assert [a] + [b] == [a, b];
  }

  function Unlinks(n: nat): (events: seq<Event>)
    ensures |events| == n && forall i: nat | i < n :: events[i] == Unlink
  {
    seq(n, _ => Unlink)
  }

  function NamesOf(l: seq<Name>): set<Name> {
    set n | n in l
  }

  lemma UnlinkIs(s: Server)
    requires s.at.Deleting? && |s.at.todo| > 0
    ensures Step(s, Unlink) == s.(disk := s.disk.(files := s.disk.files - {s.at.todo[0]}), at := Deleting(s.at.todo[1..]))
  {
  }

  lemma OneLess(files: map<Name, File>, todo: seq<Name>)
    requires |todo| > 0
    ensures files - {todo[0]} - NamesOf(todo[1..]) == files - NamesOf(todo)
  {
    assert todo == [todo[0]] + todo[1..];
  }

  lemma NoNames(files: map<Name, File>)
    ensures NamesOf([]) == {} && files - NamesOf([]) == files
  {
  }

  /** Deleting one by one deletes them all. */
  lemma {:induction false} UnlinkAll(s: Server)
    requires s.at.Deleting?
    ensures Run(s, Unlinks(|s.at.todo|))
            == s.(disk := s.disk.(files := s.disk.files - NamesOf(s.at.todo)), at := Deleting([]))
    decreases |s.at.todo|
  {
    hide Step, NamesOf;
    var todo, files := s.at.todo, s.disk.files;
    if |todo| == 0 {
      NoNames(files);
    } else {
      UnlinkIs(s);
      UnlinkAll(Step(s, Unlink));
      RunConcat(s, [Unlink], Unlinks(|todo| - 1));
      RunOne(s, Unlink);
      assert [Unlink] + Unlinks(|todo| - 1) == Unlinks(|todo|);
      OneLess(files, todo);
    }
  }

  /** The deletion of history: not at all, or file by file and then the manifest. */
  function Deletion(history: seq<Name>, collect: bool, outcome: Outcome): seq<Event> {
    if !collect || |history| == 0 then [SkipDeletion] else Unlinks(|history|) + [PersistHistory(outcome)]
  }

  lemma DeletionIs(s: Server, collect: bool, outcome: Outcome)
    requires s.at == Deleting(s.manifest.history)
    ensures var t := Run(s, Deletion(s.manifest.history, collect, outcome));
            var next := WithoutHistory(s.manifest);
            if !collect || |s.manifest.history| == 0 then t == s.(at := Idle)
            else t == s.(disk := Disk(s.disk.files - NamesOf(s.manifest.history),
                                      if outcome == Kept then s.disk.manifest else next),
                         manifest := next, at := Idle)
  {
    hide Step, NamesOf, Unlinks, WithoutHistory;
    SkipIs(s);
    if !collect || |s.manifest.history| == 0 {
      RunOne(s, SkipDeletion);
    } else {
      UnlinkAll(s);
      var deleted := Run(s, Unlinks(|s.manifest.history|));
      RunConcat(s, Unlinks(|s.manifest.history|), [PersistHistory(outcome)]);
      RunOne(deleted, PersistHistory(outcome));
      PersistHistoryIs(deleted, outcome);
    }
  }

  lemma SkipIs(s: Server)
    requires s.at == Deleting(s.manifest.history)
    ensures Step(s, SkipDeletion) == s.(at := Idle)
  {
  }

  lemma PersistHistoryIs(s: Server, outcome: Outcome)
    requires s.at == Deleting([])
    ensures var next := WithoutHistory(s.manifest);
            Step(s, PersistHistory(outcome))
            == s.(disk := if outcome == Kept then s.disk else s.disk.(manifest := next), manifest := next, at := Idle)
  {
  }

  /** The end of a rewrite whose child succeeded. */
  function Completion(s: Server, renameOk: bool, outcome: Outcome, collect: bool, history: Outcome): seq<Event> {
    if !renameOk then [RenameBase(false)]
    else if outcome != Done then [RenameBase(true), PersistBase(outcome), Unlink]
    else [RenameBase(true), PersistBase(Done)] + Deletion(Rewritten(WithNewBase(s.manifest)).history, collect, history)
  }

  /** The files that a completed rewrite makes obsolete. */
  function Superseded(m: Manifest): set<Name> {
    (set n | n in m.history)
    + (if m.base.Some? then {BaseFile(m.base.value)} else {})
    + (set i: nat | i < |m.incrs| - 1 :: IncrFile(m.incrs[i]))
  }

  lemma NamesOfBoth(a: seq<Name>, b: seq<Name>)
    ensures NamesOf(a + b) == NamesOf(a) + NamesOf(b)
  {
  }

  lemma NamesOfIncrs(incrs: seq<nat>)
    ensures NamesOf(AsHistory(incrs)) == set i: nat | i < |incrs| :: IncrFile(incrs[i])
  {
    AsHistoryIs(incrs);
  }

  /** Exactly the obsolete files become history. */
  lemma HistoryIsSuperseded(m: Manifest)
    requires |m.incrs| > 0
    ensures var next := Rewritten(WithNewBase(m));
            && NamesOf(next.history) == Superseded(m) && next.incrs == [Last(m)]
            && next.base == Some(m.baseSeq + 1) && next.baseSeq == m.baseSeq + 1
  {
    hide NamesOf, AsHistory;
    var front, base := m.incrs[..|m.incrs| - 1], if m.base.Some? then [BaseFile(m.base.value)] else [];
    NamesOfIncrs(front);
    NamesOfBoth(AsHistory(front), base + m.history);
    NamesOfBoth(base, m.history);
    NamesOfOne(m);
    assert (set i: nat | i < |front| :: IncrFile(front[i])) == set i: nat | i < |m.incrs| - 1 :: IncrFile(m.incrs[i]);
  }

  lemma NamesOfOne(m: Manifest)
    ensures NamesOf(m.history) == set n | n in m.history
    ensures NamesOf(if m.base.Some? then [BaseFile(m.base.value)] else []) == if m.base.Some? then {BaseFile(m.base.value)} else {}
  {
  }

  // ---- The server ---------------------------------------------------------------------------------

  class LogServer {
    var lists: ManifestLists
    var files: map<Name, File>
    var onDisk: Manifest
    var child: Option<Data>
    /** The dataset in memory. */
    var data: Data
    ghost var written: seq<Command>

    /** The server between two handlers. */
    ghost function View(): Server
      reads this, lists
    {
      Server(Disk(files, onDisk), lists.View(), Idle, child, written)
    }

    /** The log on disk is good, and memory holds what was written. */
    ghost predicate Valid()
      reads this, lists
    {
      Inv(View()) && data == Apply(map[], written)
    }

    constructor (base: nat, data: Data)
      ensures Valid() && View() == Start(base, data) && this.data == data
    {
      lists := new ManifestLists(Manifest(Some(base), [1], [], base, 1));
      files := map[BaseFile(base) := Snapshot(data), IncrFile(1) := Log([])];
      onDisk := Manifest(Some(base), [1], [], base, 1);
      child, this.data, written := None, data, [_ => data];
      new;
      StartIsSound(base, data);
      StartData(base, data);
    }

    /** A command runs and is appended to the INCR file in use. */
    method Write(cmd: Command)
      requires Valid()
      modifies this
      ensures Valid() && View() == Step(old(View()), Event.Write(cmd)) && data == cmd(old(data))
    {
      hide Sound, Apply;
      ghost var before := View();
      StepKeeps(before, Event.Write(cmd));
      ApplyMore(map[], written, cmd);
      LastFile(before);
      var name := IncrFile(lists.incrs[|lists.incrs| - 1]);
      files := files[name := Log(files[name].cmds + [cmd])];
      written := written + [cmd];
      data := cmd(data);
    }

    /** Opens the next INCR file and makes the manifest name it before it is used. */
    method OpenNewIncr(ok: bool, outcome: Outcome) returns (done: bool)
      requires Valid() && child.None?
      modifies this
      ensures done <==> ok && outcome == Done
      ensures Run(old(View()), [OpenIncr(ok), PersistOpen(outcome)]) == View().(at := if done then Forking else Idle)
      ensures done ==> && lists.incrs == old(lists.incrs) + [old(lists.incrSeq) + 1] && onDisk == lists.View()
                       && files == old(files)[IncrFile(old(lists.incrSeq) + 1) := Log([])]
      ensures data == old(data) && written == old(written) && child.None? && (lists == old(lists) || fresh(lists))
    {
      hide Inv, Apply;
      RunTwo(View(), OpenIncr(ok), PersistOpen(outcome));
      var temp := new ManifestLists.Dup(lists);
      var name := temp.NewIncr();
      done := false;
      if !ok { return; }
      files := files[name := Log([])];
      if outcome != Kept { onDisk := temp.View(); }
      if outcome != Done { return; }
      lists := temp;
      done := true;
    }

    /** Starts a rewrite: a new INCR file first, then a child that sees the dataset. */
    method RewriteBackground(openOk: bool, outcome: Outcome, forkOk: bool) returns (started: bool)
      requires Valid()
      modifies this
      ensures Valid() && View() == Run(old(View()), [OpenIncr(openOk), PersistOpen(outcome), Fork(forkOk)])
      ensures started <==> old(child).None? && openOk && outcome == Done && forkOk
      ensures child == if started then Some(data) else old(child)
      ensures old(child).None? && openOk && outcome == Done ==>
                && lists.incrs == old(lists.incrs) + [old(lists.incrSeq) + 1] && onDisk == lists.View()
                && files == old(files)[IncrFile(old(lists.incrSeq) + 1) := Log([])]
      ensures data == old(data) && (lists == old(lists) || fresh(lists))
    {
      hide Inv, Apply, Step;
      ghost var before, opening, fork := View(), [OpenIncr(openOk), PersistOpen(outcome)], [Fork(forkOk)];
      assert opening + fork == [OpenIncr(openOk), PersistOpen(outcome), Fork(forkOk)];
      RunConcat(before, opening, fork);
      RunOne(Run(before, opening), Fork(forkOk));
      RunKeeps(before, opening + fork);
      if child.Some? {
        RunTwo(before, OpenIncr(openOk), PersistOpen(outcome));
        Busy(before, openOk, outcome, forkOk);
        return false;
      }
      started := OpenNewIncr(openOk, outcome);
      ForkIs(Run(before, opening), forkOk);
      if !started { return; }
      if !forkOk { return false; }
      child := Some(data);
    }

    /** The child failed or was killed: everything stays as it is. */
    method RewriteFailed()
      requires Valid()
      modifies this
      ensures Valid() && View() == Step(old(View()), ChildFailed) && child.None? && data == old(data) && lists == old(lists)
    {
      StepKeeps(View(), ChildFailed);
      child := None;
    }

    /** Unlinks the history one by one, then makes the manifest forget it. */
    method DelHistoryFiles(collect: bool, outcome: Outcome)
      modifies this, lists
      ensures View() == Run(old(View()).(at := Deleting(old(lists.history))), Deletion(old(lists.history), collect, outcome))
      ensures data == old(data) && lists == old(lists) && written == old(written) && child == old(child)
    {
      DeletionIs(View().(at := Deleting(lists.history)), collect, outcome);
      if !collect || |lists.history| == 0 { return; }
      var removed := lists.DelHistory();
      files := files - NamesOf(removed);
      if outcome != Kept { onDisk := lists.View(); }
    }

    /**
     * The child is done: its file becomes the BASE file, a copy of the manifest with
     * the rewritten files as history replaces the manifest, and the history goes. The
     * log stays good unless a manifest that was replaced is reported as not replaced.
     */
    method RewriteDone(renameOk: bool, outcome: Outcome, collect: bool, history: Outcome)
      requires Valid() && child.Some?
      modifies this
      ensures View() == Run(old(View()), Completion(old(View()), renameOk, outcome, collect, history))
      ensures outcome != DoneButFailed ==> Valid()
      ensures renameOk && outcome == Done ==>
                && lists.base == onDisk.base == Some(old(lists.baseSeq) + 1)
                && lists.incrs == onDisk.incrs == [Last(old(lists.View()))]
                && var all := old(files)[BaseFile(old(lists.baseSeq) + 1) := Snapshot(old(child).value)];
                   if collect then lists.history == [] && files == all - Superseded(old(lists.View()))
                   else NamesOf(lists.history) == Superseded(old(lists.View())) && files == all
      ensures child.None? && data == old(data) && (lists == old(lists) || fresh(lists))
    {
      hide Inv, Apply, Step, Run, Last, Superseded, NamesOf, Completion;
      ghost var before := View();
      LastFile(before);
      CompletedIs(before, collect, history);
      FinishRewrite(renameOk, outcome, collect, history);
    }

    method FinishRewrite(renameOk: bool, outcome: Outcome, collect: bool, history: Outcome)
      requires Valid() && child.Some?
      modifies this
      ensures View() == Run(old(View()), Completion(old(View()), renameOk, outcome, collect, history))
      ensures outcome != DoneButFailed ==> Valid()
      ensures child.None? && data == old(data) && (lists == old(lists) || fresh(lists))
    {
      hide Inv, Apply, Step;
      ghost var before := View();
      if outcome != DoneButFailed { CompletionKeeps(before, renameOk, outcome, collect, history); }
      CompletionIs(before, renameOk, outcome, collect, history);
      var temp := new ManifestLists.Dup(lists);
      var name := temp.NewBaseAndMarkPreAsHistory();
      if !renameOk {
        child := None;
        return;
      }
      files := files[name := Snapshot(child.value)];
      child := None;
      temp.MarkRewrittenIncrAsHistory();
      if outcome != Kept { onDisk := temp.View(); }
      if outcome != Done {
        files := files - {name};
        return;
      }
      lists := temp;
      DelHistoryFiles(collect, history);
    }

    /**
     * A crash and a restart: the manifest is read back and the files it names are
     * loaded. Nothing that was written is lost.
     */
    method Restart()
      requires Valid()
      modifies this
      ensures Valid() && View() == Step(old(View()), Event.Restart) && data == old(data)
      ensures lists == old(lists) || fresh(lists)
    {
      hide Apply, Ordered;
      ghost var before := View();
      StepKeeps(before, Event.Restart);
      DiskLoads(before);
      assert Loadable(files, onDisk);
      var loaded: Data := if onDisk.base.None? then map[] else files[BaseFile(onDisk.base.value)].data;
      var i := 0;
      while i < |onDisk.incrs|
        invariant 0 <= i <= |onDisk.incrs| && loaded == Load(files, onDisk.base, onDisk.incrs[..i])
      {
        assert HasIncr(files, onDisk.incrs[i]);
        assert onDisk.incrs[..i + 1][..i] == onDisk.incrs[..i];
        loaded := Apply(loaded, files[IncrFile(onDisk.incrs[i])].cmds);
        i := i + 1;
      }
      assert onDisk.incrs[..i] == onDisk.incrs;
      data := loaded;
      lists := new ManifestLists(Reloaded(onDisk));
      child := None;
    }
  }

  // ---- What the handlers come to ----------------------------------------------------------------

  lemma StartData(base: nat, data: Data)
    ensures Apply(map[], Start(base, data).written) == data
  {
    ApplyMore(map[], [], _ => data);
    assert [] + Start(base, data).written == Start(base, data).written;
  }

  lemma LastFile(s: Server)
    requires Inv(s)
    ensures |s.manifest.incrs| > 0 && HasIncr(s.disk.files, Last(s.manifest))
  {
  }

  /** While a child is at work no rewrite starts. */
  lemma Busy(s: Server, ok: bool, outcome: Outcome, forkOk: bool)
    requires s.at == Idle && s.child.Some?
    ensures Step(Step(Step(s, OpenIncr(ok)), PersistOpen(outcome)), Fork(forkOk)) == s
  {
  }

  lemma ForkIs(s: Server, ok: bool)
    ensures Step(s, Fork(ok)) == if s.at != Forking then s else s.(at := Idle, child := if ok then Some(Apply(map[], s.written)) else None)
  {
  }

  lemma CompletionKeeps(s: Server, renameOk: bool, outcome: Outcome, collect: bool, history: Outcome)
    requires Inv(s) && outcome != DoneButFailed
    ensures Inv(Run(s, Completion(s, renameOk, outcome, collect, history)))
  {
    hide Inv, Step;
    RunKeeps(s, Completion(s, renameOk, outcome, collect, history));
  }

  /** The state after a completed rewrite, by outcome. */
  lemma CompletionIs(s: Server, renameOk: bool, outcome: Outcome, collect: bool, history: Outcome)
    requires s.at == Idle && s.child.Some?
    ensures var t := Run(s, Completion(s, renameOk, outcome, collect, history));
            var next := Rewritten(WithNewBase(s.manifest));
            var name := BaseFile(next.baseSeq);
            var files := s.disk.files[name := Snapshot(s.child.value)];
            if !renameOk then t == s.(child := None)
            else if outcome != Done then
              t == s.(disk := Disk(files - {name}, if outcome == Kept then s.disk.manifest else next), child := None)
            else t == Run(s.(disk := Disk(files, next), manifest := next, child := None, at := Deleting(next.history)),
                          Deletion(next.history, collect, history))
  {
    hide WithNewBase, Rewritten, Deletion, Step;
    var a, b := RenameBase(true), PersistBase(outcome);
    RenamedThen(s, outcome);
    if !renameOk {
      RunOne(s, RenameBase(false));
    } else {
      RunTwo(s, a, b);
      if outcome == Done {
        RunConcat(s, [a, b], Deletion(Rewritten(WithNewBase(s.manifest)).history, collect, history));
      } else {
        RunConcat(s, [a, b], [Unlink]);
        RunOne(Step(Step(s, a), b), Unlink);
        assert [a, b] + [Unlink] == [a, b, Unlink];
      }
    }
  }

  /** What a rewrite that goes well leaves behind. */
  lemma CompletedIs(s: Server, collect: bool, history: Outcome)
    requires s.at == Idle && s.child.Some? && |s.manifest.incrs| > 0
    ensures var t := Run(s, Completion(s, true, Done, collect, history));
            var all := s.disk.files[BaseFile(s.manifest.baseSeq + 1) := Snapshot(s.child.value)];
            && t.manifest.base == t.disk.manifest.base == Some(s.manifest.baseSeq + 1)
            && t.manifest.incrs == t.disk.manifest.incrs == [Last(s.manifest)]
            && if collect then t.manifest.history == [] && t.disk.files == all - Superseded(s.manifest)
               else NamesOf(t.manifest.history) == Superseded(s.manifest) && t.disk.files == all
  {
    hide Step, Run, Completion, Deletion, NamesOf, Superseded, Rewritten, WithNewBase, Last;
    CompletionIs(s, true, Done, collect, history);
    HistoryIsSuperseded(s.manifest);
    var next := Rewritten(WithNewBase(s.manifest));
    var files := s.disk.files[BaseFile(next.baseSeq) := Snapshot(s.child.value)];
    DeletionIs(s.(disk := Disk(files, next), manifest := next, child := None, at := Deleting(next.history)), collect, history);
    NoNames(files);
    if next.history == [] { assert files - Superseded(s.manifest) == files; }
  }

  lemma RenamedThen(s: Server, outcome: Outcome)
    requires s.at == Idle && s.child.Some?
    ensures Step(s, RenameBase(false)) == s.(child := None)
    ensures var next := Rewritten(WithNewBase(s.manifest));
            var name := BaseFile(next.baseSeq);
            var files := s.disk.files[name := Snapshot(s.child.value)];
            var t := Step(Step(s, RenameBase(true)), PersistBase(outcome));
            if outcome == Done then t == s.(disk := Disk(files, next), manifest := next, child := None, at := Deleting(next.history))
            else Step(t, Unlink) == s.(disk := Disk(files - {name}, if outcome == Kept then s.disk.manifest else next), child := None)
  {
    hide WithNewBase, Rewritten;
  }
}

/**
 * The manifest of the append-only log (src/aof.c:420-520, 658-680): one BASE file,
 * the INCR files written since, and HISTORY files that await deletion.
 */
module AofManifest {
  import opened Common

  datatype Name = BaseFile(number: nat) | IncrFile(number: nat)

  datatype Manifest = Manifest(base: Option<nat>, incrs: seq<nat>, history: seq<Name>, baseSeq: nat, incrSeq: nat)

  /** The new BASE file; the previous one becomes history. */
  function WithNewBase(m: Manifest): Manifest {
    m.(base := Some(m.baseSeq + 1), baseSeq := m.baseSeq + 1,
       history := (if m.base.Some? then [BaseFile(m.base.value)] else []) + m.history)
  }

  function WithNewIncr(m: Manifest): Manifest {
    m.(incrs := m.incrs + [m.incrSeq + 1], incrSeq := m.incrSeq + 1)
  }

  /** INCR files as history entries, oldest first. */
  function AsHistory(incrs: seq<nat>): seq<Name> {
    if |incrs| == 0 then [] else [IncrFile(incrs[0])] + AsHistory(incrs[1..])
  }

  /** All INCR files but the one being written become history. */
  function Rewritten(m: Manifest): Manifest {
    if |m.incrs| == 0 then m
    else m.(incrs := [m.incrs[|m.incrs| - 1]], history := AsHistory(m.incrs[..|m.incrs| - 1]) + m.history)
  }

  function WithoutHistory(m: Manifest): Manifest {
    m.(history := [])
  }

  lemma {:induction false} AsHistoryIs(incrs: seq<nat>)
    ensures |AsHistory(incrs)| == |incrs| && forall i: nat | i < |incrs| :: AsHistory(incrs)[i] == IncrFile(incrs[i])
  {
    if |incrs| > 0 { AsHistoryIs(incrs[1..]); }
  }

  /** The manifest as the server keeps it: lists and counters edited in place. */
  class ManifestLists {
    var base: Option<nat>
    var incrs: seq<nat>
    var history: seq<Name>
    var baseSeq: nat
    var incrSeq: nat
    var dirty: bool

    function View(): Manifest
      reads this
    {
      Manifest(base, incrs, history, baseSeq, incrSeq)
    }

    /** The lists of a manifest read from disk. */
    constructor (m: Manifest)
      ensures View() == m && !dirty
    {
      base, incrs, history := m.base, m.incrs, m.history;
      baseSeq, incrSeq, dirty := m.baseSeq, m.incrSeq, false;
    }

    /** A copy to be edited before it replaces the original. */
    constructor Dup(m: ManifestLists)
      ensures View() == m.View() && dirty == m.dirty
    {
      base, incrs, history := m.base, m.incrs, m.history;
      baseSeq, incrSeq, dirty := m.baseSeq, m.incrSeq, m.dirty;
    }

    method NewBaseAndMarkPreAsHistory() returns (name: Name)
      modifies this
      ensures View() == WithNewBase(old(View())) && dirty && name == BaseFile(View().baseSeq)
    {
      if base.Some? { history := [BaseFile(base.value)] + history; }
      baseSeq := baseSeq + 1;
      base := Some(baseSeq);
      dirty := true;
      name := BaseFile(baseSeq);
    }

    method NewIncr() returns (name: Name)
      modifies this
      ensures View() == WithNewIncr(old(View())) && dirty && name == IncrFile(View().incrSeq)
    {
      incrSeq := incrSeq + 1;
      incrs := incrs + [incrSeq];
      dirty := true;
      name := IncrFile(incrSeq);
    }

    /** Walks from the tail, skips the file being written, and moves the rest one by one. */
    method MarkRewrittenIncrAsHistory()
      modifies this
      ensures View() == Rewritten(old(View())) && (old(incrs) != [] ==> dirty)
    {
      if |incrs| == 0 { return; }
      var i := |incrs| - 1;
      ghost var front, last := incrs[..i], incrs[i];
      while i > 0
        invariant 0 <= i <= |front| && |incrs| == i + 1 && incrs == front[..i] + [last]
        invariant history == AsHistory(front[i..]) + old(history)
        invariant base == old(base) && baseSeq == old(baseSeq) && incrSeq == old(incrSeq)
      {
        i := i - 1;
        history := [IncrFile(incrs[i])] + history;
        assert incrs[..i] == front[..i] && incrs[i + 1..] == [last];
        incrs := incrs[..i] + incrs[i + 1..];
        assert front[i..][1..] == front[i + 1..];
      }
      assert front[0..] == front;
      dirty := true;
    }

    /** Gives up every history entry; `removed` are the files to unlink, in order. */
    method DelHistory() returns (removed: seq<Name>)
      modifies this
      ensures View() == WithoutHistory(old(View())) && removed == old(history)
      ensures old(history) != [] ==> dirty
    {
      removed := [];
      if |history| == 0 { return; }
      while |history| > 0
        invariant removed + history == old(history)
        invariant base == old(base) && incrs == old(incrs) && baseSeq == old(baseSeq) && incrSeq == old(incrSeq)
      {
        removed := removed + [history[0]];
        history := history[1..];
      }
      dirty := true;
    }
  }
}

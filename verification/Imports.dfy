/**
 * The bookkeeping of slot imports on one node (src/cluster_migrateslots.c): the
 * job list, the per-slot importing flags, slot ownership and the keys in each
 * slot. The node stays primary, keeps the slots it owns, is not loading and gets
 * no SYNCSLOTS FINISH.
 */
module Imports {
  import opened Common

  type Slot = s: int | 0 <= s < SLOTS witness 0

  datatype Range = Range(first: Slot, last: Slot)

  datatype State =
    | WaitAck | ReceiveSnapshot | WaitingForPaused | FailoverRequested | FailoverGranted
    | CleaningUp
    | Failed | Cancelled | Success

  datatype Job = Job(name: string, ranges: seq<Range>, state: State, final: State)
  {
    predicate Finished() {
      state.Failed? || state.Cancelled? || state.Success?
    }

    predicate InProgress() {
      !Finished() && !state.CleaningUp?
    }
  }

  datatype Node = Nobody | Myself | Other(name: string)

  // ---- What the lists mean ---------------------------------------------------------

  predicate Covers(ranges: seq<Range>, slot: Slot) {
    exists i: nat | i < |ranges| :: ranges[i].first <= slot <= ranges[i].last
  }

  /** An unfinished import covers the slot. */
  predicate Importing(jobs: seq<Job>, slot: Slot) {
    exists i: nat | i < |jobs| :: !jobs[i].Finished() && Covers(jobs[i].ranges, slot)
  }

  ghost predicate Disjoint(jobs: seq<Job>) {
    forall i: nat, j: nat, slot: Slot | i < j < |jobs| && !jobs[i].Finished() && !jobs[j].Finished() ::
      !(Covers(jobs[i].ranges, slot) && Covers(jobs[j].ranges, slot))
  }

  method IsSlotInRanges(slot: Slot, ranges: seq<Range>) returns (b: bool)
    ensures b == Covers(ranges, slot)
  {
    for i := 0 to |ranges|
      invariant forall j: nat | j < i :: !(ranges[j].first <= slot <= ranges[j].last)
    {
      if ranges[i].first <= slot <= ranges[i].last { return true; }
    }
    return false;
  }

  // ---- The node -----------------------------------------------------------------------

  ghost predicate FlagsAgree(jobs: seq<Job>, importing: seq<bool>)
    requires |importing| == SLOTS
  {
    forall slot: Slot :: importing[slot] <==> Importing(jobs, slot)
  }

  /** A slot that is neither owned nor being imported holds nothing. */
  ghost predicate NoLeftovers(owner: seq<Node>, importing: seq<bool>, keys: seq<set<string>>)
    requires |owner| == |importing| == |keys| == SLOTS
  {
    forall slot: Slot :: owner[slot] != Myself && !importing[slot] ==> keys[slot] == {}
  }

  /** What the target checks before it accepts an import. */
  ghost predicate Acceptable(source: Node, ranges: seq<Range>, jobs: seq<Job>, owner: seq<Node>)
    requires |owner| == SLOTS
  {
    && source.Other? && |ranges| > 0
    && (forall i: nat | i < |ranges| :: ranges[i].first <= ranges[i].last)
    && (forall slot: Slot | Covers(ranges, slot) :: owner[slot] == source && !Importing(jobs, slot))
    && (forall i: nat, j: nat | i < j < |ranges| :: !Overlap(ranges[i], ranges[j]))
  }

  predicate Overlap(a: Range, b: Range) {
    a.last >= b.first && a.first <= b.last
  }

  class ImportTable {
    var jobs: seq<Job>
    const importing: array<bool>
    const owner: array<Node>
    const keys: array<set<string>>

    ghost predicate Valid()
      reads this, importing, owner, keys
    {
      && importing.Length == owner.Length == keys.Length == SLOTS
      && Disjoint(jobs) && FlagsAgree(jobs, importing[..]) && NoLeftovers(owner[..], importing[..], keys[..])
    }

    constructor ()
      ensures Valid() && jobs == [] && fresh(importing) && fresh(owner) && fresh(keys)
    {
      jobs := [];
      importing := new bool[SLOTS](_ => false);
      owner := new Node[SLOTS](_ => Nobody);
      keys := new set<string>[SLOTS](_ => {});
    }

    /** Sets or clears the flag of every slot in the ranges. */
    method SetImportingState(ranges: seq<Range>, on: bool)
      requires importing.Length == SLOTS
      modifies importing
      ensures forall slot: Slot :: importing[slot] == if Covers(ranges, slot) then on else old(importing[slot])
    {
      for i := 0 to |ranges|
        invariant forall slot: Slot :: importing[slot] == if Covers(ranges[..i], slot) then on else old(importing[slot])
      {
        var slot: int := ranges[i].first;
        while slot <= ranges[i].last
          invariant ranges[i].first <= slot && (slot == ranges[i].first || slot <= ranges[i].last + 1)
          invariant forall s: Slot :: importing[s] == if Covers(ranges[..i], s) || (ranges[i].first <= s < slot)
                                                      then on else old(importing[s])
        {
          importing[slot] := on;
          slot := slot + 1;
        }
        CoversNext(ranges, i);
      }
      assert ranges[..|ranges|] == ranges;
    }

    /** Empties every slot of the ranges that this node does not own. */
    method DelKeysNotOwnedByMyself(ranges: seq<Range>)
      requires owner.Length == keys.Length == SLOTS
      modifies keys
      ensures forall slot: Slot ::
                keys[slot] == if Covers(ranges, slot) && owner[slot] != Myself then {} else old(keys[slot])
    {
      for i := 0 to |ranges|
        invariant forall slot: Slot ::
                    keys[slot] == if Covers(ranges[..i], slot) && owner[slot] != Myself then {} else old(keys[slot])
      {
        var slot: int := ranges[i].first;
        while slot <= ranges[i].last
          invariant ranges[i].first <= slot && (slot == ranges[i].first || slot <= ranges[i].last + 1)
          invariant forall s: Slot ::
                      keys[s] == if (Covers(ranges[..i], s) || (ranges[i].first <= s < slot)) && owner[s] != Myself
                                 then {} else old(keys[s])
        {
          if owner[slot] != Myself { keys[slot] := {}; }
          slot := slot + 1;
        }
        CoversNext(ranges, i);
      }
      assert ranges[..|ranges|] == ranges;
    }

    method IsSlotImporting(slot: Slot) returns (b: bool)
      ensures b == Importing(jobs, slot)
    {
      for i := 0 to |jobs|
        invariant forall j: nat | j < i :: jobs[j].Finished() || !Covers(jobs[j].ranges, slot)
      {
        if !jobs[i].Finished() {
          var covered := IsSlotInRanges(slot, jobs[i].ranges);
          if covered { return true; }
        }
      }
      return false;
    }

    /** One range of SLOTSRANGE: in order, served by the source, free of overlap and not importing. */
    method RangeIsAcceptable(source: Node, ranges: seq<Range>, i: nat) returns (ok: bool)
      requires i < |ranges| && owner.Length == SLOTS
      ensures ok <==>
              && ranges[i].first <= ranges[i].last
              && (forall slot: Slot | ranges[i].first <= slot <= ranges[i].last :: owner[slot] == source && !Importing(jobs, slot))
              && (forall j: nat | j < i :: !Overlap(ranges[j], ranges[i]))
    {
      if ranges[i].first > ranges[i].last { return false; }
      for slot := ranges[i].first to ranges[i].last + 1
        invariant forall s: Slot | ranges[i].first <= s < slot :: owner[s] == source && !Importing(jobs, s)
      {
        if owner[slot] != source { return false; }
        var busy := IsSlotImporting(slot);
        if busy { return false; }
      }
      for j := 0 to i
        invariant forall k: nat | k < j :: !Overlap(ranges[k], ranges[i])
      {
        if Overlap(ranges[j], ranges[i]) { return false; }
      }
      return true;
    }

    /** SYNCSLOTS ESTABLISH: creates the job and marks its slots, or refuses and changes nothing. */
    method Establish(source: Node, name: string, ranges: seq<Range>) returns (ok: bool)
      requires Valid()
      modifies this, importing
      ensures Valid()
      ensures ok <==> Acceptable(source, ranges, old(jobs), owner[..])
      ensures jobs == if ok then [Job(name, ranges, WaitAck, Failed)] + old(jobs) else old(jobs)
    {
      if !source.Other? || |ranges| == 0 { return false; }
      for i := 0 to |ranges|
        invariant jobs == old(jobs) && Valid()
        invariant forall j: nat | j < i :: ranges[j].first <= ranges[j].last
        invariant forall j: nat, slot: Slot | j < i && ranges[j].first <= slot <= ranges[j].last ::
                    owner[slot] == source && !Importing(jobs, slot)
        invariant forall j: nat, k: nat | j < k < i :: !Overlap(ranges[j], ranges[k])
      {
        var fine := RangeIsAcceptable(source, ranges, i);
        if !fine { return false; }
      }
      ok := true;
      NewJob(jobs, Job(name, ranges, WaitAck, Failed));
      SetImportingState(ranges, true);
      jobs := [Job(name, ranges, WaitAck, Failed)] + jobs;
    }

    /** Moves an unfinished job to its final state, after a clean-up unless it succeeded. */
    method Finish(i: nat, state: State)
      requires Valid() && i < |jobs| && !jobs[i].Finished() && (state.Failed? || state.Cancelled? || state.Success?)
      requires jobs[i].state.CleaningUp? || state.Success? ==>
                 forall slot: Slot | Covers(jobs[i].ranges, slot) :: owner[slot] == Myself || keys[slot] == {}
      modifies this, importing
      ensures Valid()
      ensures jobs == if old(jobs)[i].state.CleaningUp? || state.Success? then old(jobs)[i := old(jobs)[i].(state := state)]
                      else old(jobs)[i := old(jobs)[i].(state := CleaningUp, final := state)]
    {
      StateChange(jobs, i, if jobs[i].state.CleaningUp? || state.Success? then jobs[i].(state := state)
                           else jobs[i].(state := CleaningUp, final := state));
      if !jobs[i].state.CleaningUp? && !state.Success? {
        jobs := jobs[i := jobs[i].(state := CleaningUp, final := state)];
        return;
      }
      jobs := jobs[i := jobs[i].(state := state)];
      SetImportingState(jobs[i].ranges, false);
    }

    /** Claims every slot of a granted import for this node. */
    method ClaimSlots(ranges: seq<Range>)
      requires owner.Length == SLOTS
      modifies owner
      ensures forall slot: Slot :: owner[slot] == if Covers(ranges, slot) then Myself else old(owner[slot])
    {
      for i := 0 to |ranges|
        invariant forall slot: Slot :: owner[slot] == if Covers(ranges[..i], slot) then Myself else old(owner[slot])
      {
        var slot: int := ranges[i].first;
        while slot <= ranges[i].last
          invariant ranges[i].first <= slot && (slot == ranges[i].first || slot <= ranges[i].last + 1)
          invariant forall s: Slot :: owner[s] == if Covers(ranges[..i], s) || (ranges[i].first <= s < slot)
                                                  then Myself else old(owner[s])
        {
          owner[slot] := Myself;
          slot := slot + 1;
        }
        CoversNext(ranges, i);
      }
      assert ranges[..|ranges|] == ranges;
    }

    /** One pass of the state machine: take over once granted, clean up after a failure. */
    method Proceed(i: nat)
      requires Valid() && i < |jobs|
      modifies this, importing, owner, keys
      ensures Valid()
      ensures jobs == if old(jobs)[i].state.FailoverGranted? then old(jobs)[i := old(jobs)[i].(state := Success)]
                      else if old(jobs)[i].state.CleaningUp? then old(jobs)[i := old(jobs)[i].(state := FinalOf(old(jobs)[i]))]
                      else old(jobs)
      ensures forall slot: Slot ::
                owner[slot] == if old(jobs)[i].state.FailoverGranted? && Covers(old(jobs)[i].ranges, slot)
                               then Myself else old(owner[slot])
      ensures forall slot: Slot ::
                keys[slot] == if old(jobs)[i].state.CleaningUp? && Covers(old(jobs)[i].ranges, slot) && owner[slot] != Myself
                              then {} else old(keys[slot])
    {
      match jobs[i].state {
        case FailoverGranted =>
          ClaimSlots(jobs[i].ranges);
          Finish(i, Success);
        case CleaningUp =>
          DelKeysNotOwnedByMyself(jobs[i].ranges);
          Finish(i, FinalOf(jobs[i]));
        case _ =>
      }
    }

    /** A SYNCSLOTS message moves a job on within the import. */
    method UpdateState(i: nat, state: State)
      requires Valid() && i < |jobs| && jobs[i].InProgress() && !state.CleaningUp?
      requires !(state.Failed? || state.Cancelled? || state.Success?)
      modifies this
      ensures Valid() && jobs == old(jobs)[i := old(jobs)[i].(state := state)]
    {
      StateChange(jobs, i, jobs[i].(state := state));
      jobs := jobs[i := jobs[i].(state := state)];
    }

    /** A command from the source or from a client: it reaches importing or owned slots only. */
    method SetKeys(slot: Slot, now: set<string>)
      requires Valid() && (owner[slot] == Myself || Importing(jobs, slot))
      modifies keys
      ensures Valid() && forall s: Slot :: keys[s] == if s == slot then now else old(keys[s])
    {
      keys[slot] := now;
    }

    /** The topology changes, but not for slots of this node. */
    method SetOwner(slot: Slot, node: Node)
      requires Valid() && (owner[slot] == Myself ==> node == Myself)
      modifies owner
      ensures Valid() && forall s: Slot :: owner[s] == if s == slot then node else old(owner[s])
    {
      owner[slot] := node;
    }

    /**
     * Drops finished jobs, the oldest first, while the log is too long: it ends short
     * enough, or with no finished job left, and never shorter than `max`.
     */
    method CleanupLog(max: nat) returns (ghost from: nat)
      requires Valid()
      modifies this
      ensures Valid() && from <= |old(jobs)|
      ensures jobs == Trimmed(old(jobs), from)
      ensures |jobs| <= max || from == 0
      ensures |jobs| < |old(jobs)| ==> |jobs| >= max
    {
      hide Trimmed;
      var i := |jobs|;
      NotTrimmed(jobs);
      while |jobs| > max && i > 0
        invariant 0 <= i <= |old(jobs)| && Valid() && jobs == Trimmed(old(jobs), i)
        invariant |jobs| < |old(jobs)| ==> |jobs| >= max
      {
        TrimOne(old(jobs), i - 1);
        i := i - 1;
        if jobs[i].Finished() {
          DropJob(jobs, i);
          jobs := jobs[..i] + jobs[i + 1..];
        }
      }
      from := i;
    }
  }

  /** The jobs with the finished ones among the oldest, from `i` on, left out. */
  function Trimmed(jobs: seq<Job>, i: nat): seq<Job>
    requires i <= |jobs|
  {
    jobs[..i] + Unfinished(jobs[i..])
  }

  lemma NotTrimmed(jobs: seq<Job>)
    ensures Trimmed(jobs, |jobs|) == jobs
  {
  }

  lemma TrimOne(jobs: seq<Job>, i: nat)
    requires i < |jobs|
    ensures var before, after := Trimmed(jobs, i + 1), Trimmed(jobs, i);
            i < |before| && after == if before[i].Finished() then before[..i] + before[i + 1..] else before
  {
    assert jobs[i..][1..] == jobs[i + 1..] && jobs[..i + 1] == jobs[..i] + [jobs[i]];
  }

  /** The jobs still in progress, in order. */
  function Unfinished(jobs: seq<Job>): seq<Job> {
    if |jobs| == 0 then [] else (if jobs[0].Finished() then [] else [jobs[0]]) + Unfinished(jobs[1..])
  }

  function FinalOf(job: Job): (state: State)
    ensures state.Failed? || state.Cancelled? || state.Success?
  {
    if job.final.Cancelled? then Cancelled else Failed
  }

  // ---- The job list -----------------------------------------------------------------------

  lemma CoversNext(ranges: seq<Range>, i: nat)
    requires i < |ranges|
    ensures forall s: Slot :: Covers(ranges[..i + 1], s) <==> Covers(ranges[..i], s) || ranges[i].first <= s <= ranges[i].last
  {
    var front, more := ranges[..i], ranges[..i + 1];
    assert more[i] == ranges[i] && forall k: nat | k < i :: front[k] == more[k];
    forall s: Slot ensures Covers(more, s) <==> Covers(front, s) || ranges[i].first <= s <= ranges[i].last {
      if k: nat :| k < |front| && front[k].first <= s <= front[k].last {
        assert more[k].first <= s <= more[k].last;
      }
    }
  }

  /** Job `i` is unfinished and covers the slot. */
  predicate Holds(jobs: seq<Job>, i: nat, slot: Slot) {
    i < |jobs| && !jobs[i].Finished() && Covers(jobs[i].ranges, slot)
  }

  lemma ImportingMeans(jobs: seq<Job>, slot: Slot)
    ensures Importing(jobs, slot) <==> exists i: nat :: Holds(jobs, i, slot)
  {
    if i: nat :| i < |jobs| && !jobs[i].Finished() && Covers(jobs[i].ranges, slot) { assert Holds(jobs, i, slot); }
  }

  lemma NewJob(jobs: seq<Job>, job: Job)
    requires Disjoint(jobs) && !job.Finished() && forall slot: Slot | Covers(job.ranges, slot) :: !Importing(jobs, slot)
    ensures Disjoint([job] + jobs)
    ensures forall slot: Slot :: Importing([job] + jobs, slot) <==> Importing(jobs, slot) || Covers(job.ranges, slot)
  {
    var next := [job] + jobs;
    forall slot: Slot ensures Importing(next, slot) <==> Importing(jobs, slot) || Covers(job.ranges, slot) {
      ImportingMeans(jobs, slot);
      ImportingMeans(next, slot);
      if i: nat :| Holds(jobs, i, slot) { assert Holds(next, i + 1, slot); }
      if i: nat :| Holds(next, i, slot) { assert i == 0 || Holds(jobs, i - 1, slot); }
      if Covers(job.ranges, slot) { assert Holds(next, 0, slot); }
    }
  }

  /** A job that goes on keeps its slots; one that finishes gives up exactly its own. */
  lemma StateChange(jobs: seq<Job>, i: nat, job: Job)
    requires Disjoint(jobs) && i < |jobs| && !jobs[i].Finished() && job.ranges == jobs[i].ranges
    ensures Disjoint(jobs[i := job])
    ensures forall slot: Slot ::
              Importing(jobs[i := job], slot) <==> Importing(jobs, slot) && !(job.Finished() && Covers(job.ranges, slot))
  {
    var next := jobs[i := job];
    forall slot: Slot
      ensures Importing(next, slot) <==> Importing(jobs, slot) && !(job.Finished() && Covers(job.ranges, slot))
    {
      ImportingMeans(jobs, slot);
      ImportingMeans(next, slot);
      if k: nat :| Holds(jobs, k, slot) { assert k == i || Holds(next, k, slot); }
      if k: nat :| Holds(next, k, slot) { assert Holds(jobs, k, slot); }
      if Covers(job.ranges, slot) { assert Holds(jobs, i, slot) && (!job.Finished() ==> Holds(next, i, slot)); }
    }
  }

  lemma DropJob(jobs: seq<Job>, i: nat)
    requires Disjoint(jobs) && i < |jobs| && jobs[i].Finished()
    ensures Disjoint(jobs[..i] + jobs[i + 1..])
    ensures forall slot: Slot :: Importing(jobs[..i] + jobs[i + 1..], slot) <==> Importing(jobs, slot)
  {
    var next := jobs[..i] + jobs[i + 1..];
    assert forall k: nat | k < |next| :: next[k] == jobs[if k < i then k else k + 1];
    forall slot: Slot ensures Importing(next, slot) <==> Importing(jobs, slot) {
      ImportingMeans(jobs, slot);
      ImportingMeans(next, slot);
      if k: nat :| Holds(jobs, k, slot) { assert Holds(next, if k < i then k else k - 1, slot); }
      if k: nat :| Holds(next, k, slot) { assert Holds(jobs, if k < i then k else k + 1, slot); }
    }
  }
}

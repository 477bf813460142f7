/**
 * Moving a slot key by key: MIGRATE moves keys from source to target while clients
 * are routed by `Routing`, which sends them on with ASK when the source no longer
 * has their keys. Proves that no run puts one key on both nodes.
 */
module Resharding {
  import opened Common
  import opened Routing

  const SOURCE := "source"
  const TARGET := "target"

  /** The slot's keys on each node, what each node believes, and the requests that were answered ASK. */
  datatype Cluster = Cluster(src: Data, tgt: Data, migrating: bool, importing: bool,
                             srcOwner: string, tgtOwner: string, asked: set<Request>)

  /** The parts of a node's state that only make it refuse more. */
  datatype Health = Health(healthy: bool, readsWhenDown: bool, pubsubWhenDown: bool)

  datatype Event =
    | SetImporting | SetMigrating
    | AtSource(r: Request, health: Health, after: Data)
    | AtTarget(r: Request, health: Health, after: Data)
    | MigrateKeys(keys: Data)
    | TargetTakesSlot | SourceGivesSlot

  function Start(keys: Data): Cluster {
    Cluster(keys, {}, false, false, SOURCE, SOURCE, {})
  }

  function SourceView(c: Cluster, h: Health): View {
    View(SOURCE, SOURCE, Some(c.srcOwner), if c.migrating then Some(TARGET) else None, None,
         h.healthy, h.readsWhenDown, h.pubsubWhenDown, false)
  }

  function TargetView(c: Cluster, h: Health): View {
    View(TARGET, TARGET, Some(c.tgtOwner), None, if c.importing then Some(SOURCE) else None,
         h.healthy, h.readsWhenDown, h.pubsubWhenDown, false)
  }

  // ---- Requests --------------------------------------------------------------------------

  /** Shard channels are no keys: what names one touches nothing. */
  function WithoutChannels(cmds: seq<Command>): (bare: seq<Command>)
    ensures |bare| == |cmds|
    ensures forall i: nat | i < |cmds| :: bare[i] == if cmds[i].pubsub then cmds[i].(keys := []) else cmds[i]
  {
    seq(|cmds|, i requires 0 <= i < |cmds| => if cmds[i].pubsub then cmds[i].(keys := []) else cmds[i])
  }

  /** The commands that run now: none while a transaction is queued or an EXEC has no MULTI. */
  function Runs(r: Request): seq<Command> {
    if r.cmd.kind.Exec? != r.multi then [] else WithoutChannels(Commands(r))
  }

  /** A proper request runs what it says, or works on shard channels only. */
  lemma RunsIs(r: Request)
    requires Proper(r)
    ensures if Runs(r) == [] || Pubsub(r) then forall k :: !Names(Runs(r), r.db, k) else Runs(r) == Commands(r)
  {
    var cmds := Commands(r);
    if Runs(r) != [] && Pubsub(r) {
      forall i: nat | i < |cmds| ensures Runs(r)[i].keys == [] {
        assert cmds[i] in cmds;
      }
    } else if Runs(r) != [] {
      assert forall i: nat | i < |cmds| :: !cmds[i].pubsub;
      assert Runs(r) == cmds;
    }
  }

  /**
   * A client's request for this slot. A command has a slot exactly when it has
   * keys; MIGRATE and its RESTORE-ASKING are the event `MigrateKeys`; a transaction
   * with a shard channel names no keys.
   */
  ghost predicate Proper(r: Request) {
    && (forall c | c in Commands(r) :: (c.slot == -1 <==> c.keys == []) && !c.kind.Migrate?)
    && (r.cmd.kind.Exec? ==> r.cmd.slot == -1 && r.cmd.keys == [])
    && !r.cmd.asks && !r.crossSlot
    && (RunsTransaction(r) && Pubsub(r) ==> forall c | c in r.queue && !c.pubsub :: c.keys == [])
  }

  /** A request may only touch the keys it names. */
  ghost predicate TouchesNamed(r: Request, before: Data, after: Data) {
    forall k | !Names(Runs(r), r.db, k) :: k in before <==> k in after
  }

  /** A client sends ASKING only with a request it was asked to send on. */
  predicate MayAsk(c: Cluster, r: Request) {
    r.asking ==> r.(asking := false) in c.asked
  }

  // ---- Steps ------------------------------------------------------------------------------

  ghost predicate Enabled(c: Cluster, e: Event) {
    match e
    case SetImporting => c.tgtOwner == SOURCE
    case SetMigrating => c.srcOwner == SOURCE && c.importing
    case AtSource(r, _, after) => Proper(r) && !r.asking && TouchesNamed(r, c.src, after)
    case AtTarget(r, _, after) => Proper(r) && MayAsk(c, r) && TouchesNamed(r, c.tgt, after)
    case MigrateKeys(keys) => c.migrating && c.importing && keys <= c.src
    case TargetTakesSlot => c.migrating && c.src == {}
    case SourceGivesSlot => c.migrating && c.src == {}
  }

  function Step(c: Cluster, e: Event): Cluster {
    match e
    case SetImporting => c.(importing := true)
    case SetMigrating => c.(migrating := true)
    case AtSource(r, h, after) =>
      (match RouteOf(SourceView(c, h), r, c.src)
       case Here => c.(src := after)
       case Ask(_) => c.(asked := c.asked + {r})
       case _ => c)
    case AtTarget(r, h, after) =>
      if RouteOf(TargetView(c, h), r, c.tgt).Here? then c.(tgt := after) else c
    case MigrateKeys(keys) => c.(src := c.src - keys, tgt := c.tgt + keys)
    case TargetTakesSlot => c.(importing := false, tgtOwner := TARGET)
    case SourceGivesSlot => c.(migrating := false, srcOwner := TARGET)
  }

  function Run(c: Cluster, events: seq<Event>): Cluster {
    if |events| == 0 then c else Step(Run(c, events[..|events| - 1]), events[|events| - 1])
  }

  ghost predicate Allowed(c: Cluster, events: seq<Event>) {
    forall i: nat | i < |events| :: Enabled(Run(c, events[..i]), events[i])
  }

  // ---- The invariant --------------------------------------------------------------------------

  /** The source gains no key any more. */
  predicate Leaving(c: Cluster) {
    c.migrating || c.srcOwner == TARGET
  }

  ghost predicate Inv(c: Cluster) {
    && c.src !! c.tgt
    && (c.srcOwner == SOURCE || (c.srcOwner == TARGET && c.src == {}))
    && (c.tgtOwner == SOURCE || (c.tgtOwner == TARGET && c.src == {} && Leaving(c)))
    && (!Leaving(c) ==> c.tgt == {} && c.asked == {})
    && (forall r, k | r in c.asked && Names(Commands(r), r.db, k) :: k !in c.src)
  }

  lemma NamedKeys(cmds: seq<Command>, db: nat, data: Data)
    ensures !HasMissing(cmds, db, data) ==> forall k | Names(cmds, db, k) :: k in data
    ensures !HasExisting(cmds, db, data) ==> forall k | Names(cmds, db, k) :: k !in data
  {
    forall k | Names(cmds, db, k)
      ensures (!HasMissing(cmds, db, data) ==> k in data) && (!HasExisting(cmds, db, data) ==> k !in data)
    {
      var i: nat :| i < |cmds| && k.1 in cmds[i].keys && k.0 == DbAt(cmds, i, db);
      var j: nat :| j < |cmds[i].keys| && cmds[i].keys[j] == k.1;
      assert Holds(cmds, db, data, i, j) <==> k in data;
    }
  }

  lemma {:induction false} NoSlotNoKeys(queue: seq<Command>)
    requires forall c | c in queue :: c.slot == -1 <==> c.keys == []
    requires QueueSlot(queue) == -1
    ensures forall c | c in queue :: c.keys == []
  {
    if |queue| > 0 {
      var front := queue[..|queue| - 1];
      NoSlotNoKeys(front);
      assert forall c | c in queue :: c in front || c == queue[|queue| - 1];
    }
  }

  /** A request without a slot touches nothing. */
  lemma NoSlotNoNames(r: Request)
    requires Proper(r) && SlotOfRequest(r) == -1
    ensures forall k :: !Names(Runs(r), r.db, k)
  {
    RunsIs(r);
    if Runs(r) != [] && !Pubsub(r) {
      if r.cmd.kind.Exec? {
        NoSlotNoKeys(r.queue);
      } else {
        assert r.cmd in Commands(r);
      }
      assert forall c | c in Runs(r) :: c.keys == [];
    }
  }

  /** A source on its way out serves only requests whose keys it has, and asks only for ones it lacks. */
  lemma SourceRoute(c: Cluster, r: Request, h: Health)
    requires Inv(c) && Proper(r) && !r.asking && Leaving(c)
    ensures var route := RouteOf(SourceView(c, h), r, c.src);
            && (route.Here? ==> forall k | Names(Runs(r), r.db, k) :: k in c.src)
            && (route.Ask? ==> forall k | Names(Commands(r), r.db, k) :: k !in c.src)
  {
    hide HasMissing, HasExisting, HasSeveral, HasForbidden, QueueConflict, QueueSlot, Names, WithoutChannels;
    NamedKeys(Commands(r), r.db, c.src);
    RunsIs(r);
    if SlotOfRequest(r) == -1 {
      NoSlotNoNames(r);
    } else if Runs(r) != [] {
      assert !r.cmd.kind.Migrate? by { if !r.cmd.kind.Exec? { assert r.cmd in Commands(r); } }
    }
  }

  lemma NothingNamed(db: nat)
    ensures forall k :: !Names([], db, k)
  {
  }

  /** The target serves named keys only to clients that were asked, until the slot is its own. */
  lemma TargetRoute(c: Cluster, r: Request, h: Health)
    requires Inv(c) && Proper(r) && RouteOf(TargetView(c, h), r, c.tgt).Here?
    ensures r.asking || c.tgtOwner == TARGET || forall k :: !Names(Runs(r), r.db, k)
  {
    hide HasMissing, HasExisting, HasSeveral, HasForbidden, QueueConflict, QueueSlot, Names, WithoutChannels;
    RunsIs(r);
    if SlotOfRequest(r) == -1 {
      NoSlotNoNames(r);
    } else if Runs(r) != [] {
      assert !r.cmd.kind.Migrate? by { if !r.cmd.kind.Exec? { assert r.cmd in Commands(r); } }
    }
  }

  lemma SourceStepKeeps(c: Cluster, r: Request, h: Health, after: Data)
    requires Inv(c) && Enabled(c, AtSource(r, h, after))
    ensures Inv(Step(c, AtSource(r, h, after)))
    ensures Leaving(c) ==> Step(c, AtSource(r, h, after)).src <= c.src
  {
    hide RouteOf, Names, Proper;
    if Leaving(c) {
      SourceRoute(c, r, h);
    } else {
      NotLeavingNoAsk(c, r, h);
    }
  }

  lemma NotLeavingNoAsk(c: Cluster, r: Request, h: Health)
    requires Inv(c) && !Leaving(c)
    ensures !RouteOf(SourceView(c, h), r, c.src).Ask?
  {
    hide HasMissing, HasExisting, HasSeveral, HasForbidden, QueueConflict, QueueSlot;
  }

  lemma TargetStepKeeps(c: Cluster, r: Request, h: Health, after: Data)
    requires Inv(c) && Enabled(c, AtTarget(r, h, after))
    ensures Inv(Step(c, AtTarget(r, h, after)))
  {
    hide RouteOf, Names, Proper, HasMissing, Runs;
    if RouteOf(TargetView(c, h), r, c.tgt).Here? {
      TargetRoute(c, r, h);
      NothingNamed(r.db);
      assert Runs(r) == Commands(r) || forall k :: !Names(Runs(r), r.db, k) by { RunsIs(r); }
      forall k | k in after && k !in c.tgt ensures k !in c.src {
        assert Names(Runs(r), r.db, k);
        if r.asking {
          var plain := r.(asking := false);
          assert plain in c.asked && Commands(plain) == Commands(r) && Names(Commands(plain), plain.db, k);
        }
      }
      if !Leaving(c) {
        assert after == {} by { assert forall k :: !Names(Runs(r), r.db, k); }
      }
    }
  }

  lemma StepKeeps(c: Cluster, e: Event)
    requires Inv(c) && Enabled(c, e)
    ensures Inv(Step(c, e))
  {
    hide RouteOf, Names, Proper;
    match e {
      case AtSource(r, h, after) => SourceStepKeeps(c, r, h, after);
      case AtTarget(r, h, after) => TargetStepKeeps(c, r, h, after);
      case _ =>
    }
  }

  lemma {:induction false} RunKeeps(keys: Data, events: seq<Event>)
    requires Allowed(Start(keys), events)
    ensures Inv(Run(Start(keys), events))
  {
    if |events| > 0 {
      var front := events[..|events| - 1];
      assert forall i: nat | i < |front| :: front[..i] == events[..i];
      RunKeeps(keys, front);
      StepKeeps(Run(Start(keys), front), events[|events| - 1]);
    }
  }

  // ---- The theorems ------------------------------------------------------------------------------

  /** No run puts the same key on both nodes. */
  lemma OneNodePerKey(keys: Data, events: seq<Event>)
    requires Allowed(Start(keys), events)
    ensures Run(Start(keys), events).src !! Run(Start(keys), events).tgt
  {
    RunKeeps(keys, events);
  }

  /** Once the slot is migrating, the source never gains a key. */
  lemma MigratingSourceNeverGains(keys: Data, events: seq<Event>, e: Event)
    requires Allowed(Start(keys), events) && Enabled(Run(Start(keys), events), e)
    requires Leaving(Run(Start(keys), events))
    ensures Step(Run(Start(keys), events), e).src <= Run(Start(keys), events).src
    ensures Leaving(Step(Run(Start(keys), events), e))
  {
    hide Run, RouteOf, Names, Proper;
    RunKeeps(keys, events);
    var c := Run(Start(keys), events);
    match e {
      case AtSource(r, h, after) => SourceStepKeeps(c, r, h, after);
      case _ =>
    }
  }

  /**
   * Why a transaction must not mix shard channels with keys: with one such command
   * the keys are not counted, and a migrating source serves keys it does not have.
   */
  lemma ShardChannelSkipsTheCount(c: Cluster, h: Health, r: Request)
    requires c.migrating && c.srcOwner == SOURCE && h.healthy && RunsTransaction(r) && Pubsub(r)
    requires !QueueConflict(r.queue) && !HasForbidden(r.queue, r.db)
    ensures RouteOf(SourceView(c, h), r, c.src).Here?
  {
  }

  /** So any key of such a transaction that was moved away comes to be on both nodes. */
  lemma ShardChannelSplitsKey(c: Cluster, h: Health, r: Request, k: (nat, string))
    requires c.migrating && c.srcOwner == SOURCE && h.healthy && RunsTransaction(r) && Pubsub(r)
    requires !QueueConflict(r.queue) && !HasForbidden(r.queue, r.db) && Names(Runs(r), r.db, k) && k in c.tgt
    ensures TouchesNamed(r, c.src, c.src + {k})
    ensures var next := Step(c, AtSource(r, h, c.src + {k})); k in next.src && k in next.tgt
  {
    ShardChannelSkipsTheCount(c, h, r);
    hide RouteOf, Names, Runs;
  }

  /**
   * Why the slot is handed over only when the source is empty: otherwise the new owner
   * serves any request for a key that the source still has, and it is on both nodes.
   */
  lemma EarlyHandoverSplitsKey(c: Cluster, h: Health, r: Request, k: (nat, string))
    requires h.healthy && Proper(r) && !r.asking && SlotOfRequest(r) != -1 && !(RunsTransaction(r) && QueueConflict(r.queue))
    requires Names(Runs(r), r.db, k) && k in c.src
    ensures var taken := Step(c, TargetTakesSlot);
            var e := AtTarget(r, h, taken.tgt + {k});
            Enabled(taken, e) && k in Step(taken, e).src && k in Step(taken, e).tgt
  {
    hide HasMissing, HasExisting, HasSeveral, HasForbidden, QueueConflict, QueueSlot, Names, WithoutChannels;
    NothingNamed(r.db);
  }

  /** A transaction that publishes to a shard channel and writes a key of its slot. */
  function PublishAndSet(channel: string, key: string, slot: nat): Request {
    Request(Command(Exec, [], -1, false, false, false),
            [Command(Plain, [channel], slot, false, true, false), Command(Plain, [key], slot, true, false, false)],
            true, false, false, false, 0)
  }

  /** The run: the key is moved, then written at the source by such a transaction. */
  lemma ShardChannelRun(channel: string, key: string, slot: nat)
    ensures var k, r, h := (0, key), PublishAndSet(channel, key, slot), Health(true, false, false);
            var moved := Step(Step(Step(Start({k}), SetImporting), SetMigrating), MigrateKeys({k}));
            var next := Step(moved, AtSource(r, h, {k}));
            && Allowed(Start({k}), [SetImporting, SetMigrating, MigrateKeys({k})])
            && Run(Start({k}), [SetImporting, SetMigrating, MigrateKeys({k})]) == moved
            && TouchesNamed(r, moved.src, {k}) && k in next.src && k in next.tgt
  {
    var k, r, h := (0, key), PublishAndSet(channel, key, slot), Health(true, false, false);
    var s, es := Start({k}), [SetImporting, SetMigrating, MigrateKeys({k})];
    assert es[..2][..1] == es[..1] && es[..1][..0] == [];
    assert Run(s, es[..0]) == s && Run(s, es[..1]) == Step(s, es[0]) && Run(s, es[..2]) == Step(Step(s, es[0]), es[1]);
    var moved := Step(Step(Step(s, SetImporting), SetMigrating), MigrateKeys({k}));
    assert es[..3] == es;
    assert Pubsub(r) by { assert r.queue[0].pubsub; }
    assert Names(Runs(r), 0, k) by { assert key in Runs(r)[1].keys && DbAt(Runs(r), 1, 0) == 0; }
    ShardChannelSplitsKey(moved, h, r, k);
    assert moved.src + {k} == {k};
  }
}

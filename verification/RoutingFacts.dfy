/**
 * What the routing decision tells a client (src/cluster.c:1002-1305): where each answer
 * points, and exactly when each answer is given.
 */
module RoutingFacts {
  import opened Common
  import opened Routing

  // ---- The slot of a request -----------------------------------------------------------------

  /** The commands name keys of two different slots. */
  predicate CrossesSlots(r: Request) {
    if r.cmd.kind.Exec? && r.multi then
      exists i: nat, j: nat | i < j < |r.queue| ::
        r.queue[i].slot != -1 && r.queue[j].slot != -1 && r.queue[i].slot != r.queue[j].slot
    else r.crossSlot
  }

  /** No command of the request has a slot. */
  predicate HasNoSlot(r: Request) {
    if r.cmd.kind.Exec? && r.multi then forall c | c in r.queue :: c.slot == -1 else r.cmd.slot == -1
  }

  lemma {:induction false} QueueSlotMeans(queue: seq<Command>)
    ensures QueueSlot(queue) == -1 <==> forall c | c in queue :: c.slot == -1
    ensures QueueSlot(queue) != -1 ==> exists c | c in queue :: c.slot == QueueSlot(queue)
  {
    if |queue| > 0 {
      var front, last := queue[..|queue| - 1], queue[|queue| - 1];
      QueueSlotMeans(front);
      assert last in queue && forall c | c in queue :: c in front || c == last;
      assert forall c | c in front :: c in queue;
    }
  }

  /** The request is about one slot, and the node looks where that is served. */
  predicate Addressed(v: View, r: Request) {
    !v.noRedirection && !CrossesSlots(r) && !HasNoSlot(r)
  }

  lemma AddressedMeans(v: View, r: Request)
    ensures Addressed(v, r) <==> && !v.noRedirection && !(RunsTransaction(r) && QueueConflict(r.queue))
                                 && !(!RunsTransaction(r) && r.crossSlot) && SlotOfRequest(r) != -1
  {
    QueueSlotMeans(r.queue);
  }

  // ---- Where an answer points -----------------------------------------------------------------

  /** A redirect never points back: MOVED names the slot's owner, ASK the node it is moving to. */
  lemma RedirectsPointOn(v: View, r: Request, data: Data)
    ensures var route := RouteOf(v, r, data);
            && (route.Moved? ==> v.owner == Some(route.node) && route.node != v.myself)
            && (route.Ask? ==> v.migratingTo == Some(route.node) && v.owner == Some(v.primary))
  {
    hide HasMissing, HasExisting, HasSeveral, HasForbidden, QueueConflict, QueueSlot;
  }

  /** The slot is neither leaving this node nor coming to it. */
  predicate Settled(v: View) {
    v.migratingTo == None && v.importingFrom == None
  }

  /** The node is a replica of the slot's owner and the client may read from it. */
  predicate ReplicaMayServe(v: View, r: Request) {
    v.myself != v.primary && v.owner == Some(v.primary) && (r.readonly || Pubsub(r)) && !Writes(r)
  }

  /** With a healthy cluster and a slot at rest: the owner serves, or its replica a read; everybody else sends on to the owner. */
  lemma SettledRoute(v: View, r: Request, data: Data)
    requires Addressed(v, r) && Settled(v) && v.healthy && v.owner.Some?
    ensures RouteOf(v, r, data) == if v.owner == Some(v.myself) || ReplicaMayServe(v, r) then Here else Moved(v.owner.value)
  {
    AddressedMeans(v, r);
    hide HasMissing, HasExisting, HasSeveral, HasForbidden, QueueConflict, QueueSlot, CrossesSlots;
  }

  lemma NoSlotIsServed(v: View, r: Request, data: Data)
    requires v.noRedirection || (!CrossesSlots(r) && HasNoSlot(r))
    ensures RouteOf(v, r, data) == Here
  {
    QueueSlotMeans(r.queue);
    hide HasMissing, HasExisting, HasSeveral, HasForbidden, QueueSlot;
  }

  // ---- When a request is refused -----------------------------------------------------------------

  /** The slot is leaving this node, as far as this client is concerned. */
  predicate Leaving(v: View, r: Request) {
    (v.myself == v.primary || r.readonly) && v.owner == Some(v.primary) && v.migratingTo.Some?
  }

  predicate Arriving(v: View, r: Request) {
    (v.myself == v.primary || r.readonly) && !Leaving(v, r) && v.importingFrom.Some?
  }

  /** The keys are looked at: the commands are about to run. */
  predicate Looks(v: View, r: Request) {
    (Leaving(v, r) || Arriving(v, r)) && !(r.cmd.kind.Exec? && !r.multi)
  }

  /** A cluster that is down still answers this request. */
  predicate AnswersWhenDown(v: View, r: Request) {
    if Pubsub(r) then v.pubsubWhenDown else v.readsWhenDown && !r.cmd.writes
  }

  /** An open slot and an EXEC without MULTI, which runs nothing. */
  predicate Idle(v: View, r: Request) {
    (Leaving(v, r) || Arriving(v, r)) && r.cmd.kind.Exec? && !r.multi
  }

  /** MIGRATE itself is served by the primary that is moving the slot. */
  predicate MovesKeys(v: View, r: Request) {
    (Leaving(v, r) || Arriving(v, r)) && r.cmd.kind.Migrate? && v.myself == v.primary
  }

  lemma CrossSlotExactly(v: View, r: Request, data: Data)
    ensures RouteOf(v, r, data) == Refused(CrossSlot) <==> !v.noRedirection && CrossesSlots(r)
  {
    hide HasMissing, HasExisting, HasSeveral, HasForbidden, QueueSlot;
  }

  lemma UnboundExactly(v: View, r: Request, data: Data)
    ensures RouteOf(v, r, data) == Refused(DownUnbound) <==> Addressed(v, r) && v.owner == None
  {
    AddressedMeans(v, r);
    hide HasMissing, HasExisting, HasSeveral, HasForbidden, QueueSlot, QueueConflict, CrossesSlots;
  }

  /** A cluster that is down refuses what it may not answer, unless keys would leave the database of an open slot. */
  lemma DownExactly(v: View, r: Request, data: Data)
    ensures RouteOf(v, r, data) in {Refused(DownState), Refused(DownReadOnly)} <==>
              && Addressed(v, r) && v.owner.Some? && !Idle(v, r) && !(Looks(v, r) && HasForbidden(Commands(r), r.db))
              && !v.healthy && !AnswersWhenDown(v, r)
    ensures RouteOf(v, r, data) == Refused(DownReadOnly) ==> !Pubsub(r) && v.readsWhenDown && r.cmd.writes
    ensures RouteOf(v, r, data) == Refused(DownState) ==> if Pubsub(r) then !v.pubsubWhenDown else !v.readsWhenDown
  {
    AddressedMeans(v, r);
    hide HasMissing, HasExisting, HasSeveral, HasForbidden, QueueSlot, QueueConflict, CrossesSlots, Pubsub;
  }

  /** The slot is moving and the request cannot be decided by one node. */
  lemma UnstableExactly(v: View, r: Request, data: Data)
    ensures var cmds := Commands(r);
            RouteOf(v, r, data) == Refused(Unstable) <==>
              && Addressed(v, r) && v.owner.Some? && Looks(v, r)
              && (|| HasForbidden(cmds, r.db)
                  || (&& (v.healthy || AnswersWhenDown(v, r)) && !MovesKeys(v, r) && Counts(r) && HasMissing(cmds, r.db, data)
                      && if Leaving(v, r) then HasExisting(cmds, r.db, data)
                         else (r.asking || r.cmd.asks) && HasSeveral(cmds)))
  {
    AddressedMeans(v, r);
    hide HasMissing, HasExisting, HasSeveral, HasForbidden, QueueSlot, QueueConflict, CrossesSlots, Pubsub;
  }

  /** ASK is the answer exactly if the slot is leaving and none of the keys is here any more. */
  lemma AskExactly(v: View, r: Request, data: Data)
    ensures var cmds := Commands(r);
            RouteOf(v, r, data).Ask? <==>
              && Addressed(v, r) && Looks(v, r) && Leaving(v, r) && !HasForbidden(cmds, r.db)
              && (v.healthy || AnswersWhenDown(v, r)) && !MovesKeys(v, r)
              && Counts(r) && HasMissing(cmds, r.db, data) && !HasExisting(cmds, r.db, data)
  {
    AddressedMeans(v, r);
    hide HasMissing, HasExisting, HasSeveral, HasForbidden, QueueSlot, QueueConflict, CrossesSlots, Pubsub;
  }

  /** The client was sent here by an ASK. */
  predicate Asked(v: View, r: Request) {
    Arriving(v, r) && (r.asking || r.cmd.asks)
  }

  /** MOVED is the answer exactly if somebody else owns the slot and nothing above lets this node answer. */
  lemma MovedExactly(v: View, r: Request, data: Data)
    ensures var cmds := Commands(r);
            RouteOf(v, r, data).Moved? <==>
              && Addressed(v, r) && v.owner.Some? && v.owner != Some(v.myself)
              && !Idle(v, r) && !(Looks(v, r) && HasForbidden(cmds, r.db)) && (v.healthy || AnswersWhenDown(v, r))
              && !MovesKeys(v, r) && !(Leaving(v, r) && Counts(r) && HasMissing(cmds, r.db, data))
              && !Asked(v, r) && !ReplicaMayServe(v, r)
  {
    AddressedMeans(v, r);
    hide HasMissing, HasExisting, HasSeveral, HasForbidden, QueueSlot, QueueConflict, CrossesSlots, Pubsub;
  }

  /** When the keys of a request are counted: no shard channel is named, and the commands run now. */
  lemma CountsMeans(r: Request)
    ensures Counts(r) <==> && (!r.multi || r.cmd.kind.Exec?) && !r.cmd.pubsub
                           && (r.cmd.kind.Exec? ==> forall c | c in r.queue :: !c.pubsub)
  {
    if !Pubsub(r) && r.cmd.kind.Exec? {
      forall c | c in r.queue ensures !c.pubsub {
        var i: nat :| i < |r.queue| && r.queue[i] == c;
      }
    }
  }

  // ---- Databases inside a transaction ---------------------------------------------------------------

  predicate Selects(c: Command) {
    c.kind.Select? && c.kind.db.Some?
  }

  /** Without a valid SELECT before, the client's own database is in use. */
  lemma {:induction false} DbAtStart(cmds: seq<Command>, i: nat, db: nat)
    requires i <= |cmds| && forall k: nat | k < i :: !Selects(cmds[k])
    ensures DbAt(cmds, i, db) == db
    decreases i
  {
    if i > 0 { DbAtStart(cmds, i - 1, db); }
  }

  /** Otherwise that of the last one. */
  lemma {:induction false} DbAtLast(cmds: seq<Command>, i: nat, db: nat, k: nat)
    requires k < i <= |cmds| && Selects(cmds[k]) && forall j: nat | k < j < i :: !Selects(cmds[j])
    ensures DbAt(cmds, i, db) == cmds[k].kind.db.value
    decreases i
  {
    if k < i - 1 { DbAtLast(cmds, i - 1, db, k); }
  }

  /** What an open slot does not allow: MOVE, and COPY into another database or one that cannot be read. */
  lemma ForbiddenMeans(cmds: seq<Command>, db: nat)
    ensures HasForbidden(cmds, db) <==>
              exists i: nat | i < |cmds| ::
                && cmds[i].keys != []
                && (cmds[i].kind.Move? || (cmds[i].kind.CopyToDb? && cmds[i].kind.db != Some(DbAt(cmds, i, db))))
  {
    hide DbAt;
  }
}

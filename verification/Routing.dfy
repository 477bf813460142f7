/**
 * The routing decision of a cluster node (src/cluster.c:981-1289): the slot of a
 * command, and where a request is served, redirected or refused while its slot
 * may be on the move.
 */
module Routing {
  import opened Common

  /** The commands the decision treats specially. COPY's DB argument may be absent or malformed. */
  datatype Kind = Plain | Exec | Migrate | Move | Copy | CopyToDb(db: Option<nat>) | Select(db: Option<nat>)

  datatype Command = Command(kind: Kind, keys: seq<string>, slot: int, writes: bool, pubsub: bool, asks: bool)

  /** What a client brings: its command, the queue behind an EXEC, its flags and database. */
  datatype Request = Request(cmd: Command, queue: seq<Command>, multi: bool, asking: bool, readonly: bool,
                             crossSlot: bool, db: nat)

  /** What the node knows about the slot and the cluster. */
  datatype View = View(myself: string, primary: string, owner: Option<string>,
                       migratingTo: Option<string>, importingFrom: Option<string>,
                       healthy: bool, readsWhenDown: bool, pubsubWhenDown: bool, noRedirection: bool)

  datatype Refusal = CrossSlot | Unstable | DownUnbound | DownState | DownReadOnly

  datatype Route = Here | Ask(node: string) | Moved(node: string) | Refused(why: Refusal)

  type Data = set<(nat, string)>

  // ---- The slot of a command -----------------------------------------------------------

  /** All keys of a command, hashed: one slot, none, or a conflict. */
  ghost predicate IsCommandSlot(hash: string -> nat, keys: seq<string>, slot: int, noKeys: bool, crossSlot: bool) {
    && noKeys == (|keys| == 0)
    && crossSlot == (exists i: nat, j: nat | i < j < |keys| :: hash(keys[i]) != hash(keys[j]))
    && (slot == -1 <==> noKeys || crossSlot)
    && (slot != -1 ==> forall i: nat | i < |keys| :: slot == hash(keys[i]))
  }

  method SlotByCommand(hash: string -> nat, keys: seq<string>) returns (slot: int, noKeys: bool, crossSlot: bool)
    ensures IsCommandSlot(hash, keys, slot, noKeys, crossSlot)
  {
    slot, noKeys, crossSlot := -1, |keys| == 0, false;
    for i := 0 to |keys|
      invariant !crossSlot && (slot == -1 <==> i == 0)
      invariant forall j: nat | j < i :: slot == hash(keys[j])
    {
      var keySlot := hash(keys[i]);
      if slot == -1 {
        slot := keySlot;
      } else if keySlot != slot {
        slot, crossSlot := -1, true;
        assert hash(keys[0]) != hash(keys[i]);
        return;
      }
    }
  }

  // ---- What a request asks for ----------------------------------------------------------

  /** The commands a request runs: the queue of a transaction, or the command itself. */
  function Commands(r: Request): seq<Command> {
    if r.cmd.kind.Exec? then r.queue else [r.cmd]
  }

  /** The database in use at command `i`, after the valid SELECTs before it. */
  function DbAt(cmds: seq<Command>, i: nat, db: nat): nat
    requires i <= |cmds|
  {
    if i == 0 then db
    else match cmds[i - 1].kind
      case Select(Some(id)) => id
      case _ => DbAt(cmds, i - 1, db)
  }

  /** Some command of the request names this key in this database. */
  predicate Names(cmds: seq<Command>, db: nat, key: (nat, string)) {
    exists i: nat | i < |cmds| :: key.1 in cmds[i].keys && key.0 == DbAt(cmds, i, db)
  }

  /** Key `j` of command `i`, if there is one, in the database in use there. */
  predicate At(cmds: seq<Command>, i: nat, j: nat) {
    i < |cmds| && j < |cmds[i].keys|
  }

  predicate Holds(cmds: seq<Command>, db: nat, data: Data, i: nat, j: nat)
    requires At(cmds, i, j)
  {
    (DbAt(cmds, i, db), cmds[i].keys[j]) in data
  }

  predicate HasMissing(cmds: seq<Command>, db: nat, data: Data) {
    exists i: nat, j: nat | i < |cmds| && j < |cmds[i].keys| :: !Holds(cmds, db, data, i, j)
  }

  predicate HasExisting(cmds: seq<Command>, db: nat, data: Data) {
    exists i: nat, j: nat | i < |cmds| && j < |cmds[i].keys| :: Holds(cmds, db, data, i, j)
  }

  /** Keys with two different names. */
  predicate HasSeveral(cmds: seq<Command>) {
    exists i: nat, j: nat, k: nat, l: nat | i < |cmds| && j < |cmds[i].keys| && k < |cmds| && l < |cmds[k].keys| ::
      cmds[i].keys[j] != cmds[k].keys[l]
  }

  /** A MOVE, or a COPY that leaves the database in use. */
  predicate LeavesDb(cmd: Command, db: nat) {
    cmd.kind.Move? || (cmd.kind.CopyToDb? && cmd.kind.db != Some(db))
  }

  predicate HasForbidden(cmds: seq<Command>, db: nat) {
    exists i: nat | i < |cmds| :: cmds[i].keys != [] && LeavesDb(cmds[i], DbAt(cmds, i, db))
  }

  /** The slot a transaction is about: that of its first command with keys, if all agree. */
  function QueueSlot(queue: seq<Command>): int {
    if |queue| == 0 then -1
    else if QueueSlot(queue[..|queue| - 1]) != -1 then QueueSlot(queue[..|queue| - 1])
    else queue[|queue| - 1].slot
  }

  predicate QueueConflict(queue: seq<Command>) {
    exists i: nat, j: nat | i < j < |queue| :: queue[i].slot != -1 && queue[j].slot != -1 && queue[i].slot != queue[j].slot
  }

  predicate RunsTransaction(r: Request) {
    r.cmd.kind.Exec? && r.multi
  }

  function SlotOfRequest(r: Request): int {
    if RunsTransaction(r) then QueueSlot(r.queue) else r.cmd.slot
  }

  predicate Pubsub(r: Request) {
    r.cmd.pubsub || (r.cmd.kind.Exec? && exists i: nat | i < |r.queue| :: r.queue[i].pubsub)
  }

  predicate Writes(r: Request) {
    r.cmd.writes || (r.cmd.kind.Exec? && exists i: nat | i < |r.queue| :: r.queue[i].writes)
  }

  predicate LooksAtSlot(v: View, r: Request) {
    v.myself == v.primary || r.readonly
  }

  predicate Migrating(v: View, r: Request) {
    LooksAtSlot(v, r) && v.owner == Some(v.primary) && v.migratingTo.Some?
  }

  predicate Importing(v: View, r: Request) {
    LooksAtSlot(v, r) && !Migrating(v, r) && v.importingFrom.Some?
  }

  /** Keys are looked up when the commands are about to run, and never for shard channels. */
  predicate Counts(r: Request) {
    !Pubsub(r) && (!r.multi || r.cmd.kind.Exec?)
  }

  // ---- The decision ---------------------------------------------------------------------

  function DownRoute(v: View, r: Request): Option<Route> {
    if v.healthy then None
    else if Pubsub(r) then (if v.pubsubWhenDown then None else Some(Refused(DownState)))
    else if !v.readsWhenDown then Some(Refused(DownState))
    else if r.cmd.writes then Some(Refused(DownReadOnly))
    else None
  }

  /** The decision by what the request names and what the node holds. */
  function RouteOf(v: View, r: Request, data: Data): Route {
    var cmds := Commands(r);
    if v.noRedirection then Here
    else if RunsTransaction(r) && QueueConflict(r.queue) then Refused(CrossSlot)
    else if !RunsTransaction(r) && r.crossSlot then Refused(CrossSlot)
    else if SlotOfRequest(r) == -1 then Here
    else if v.owner == None then Refused(DownUnbound)
    else
      var open := Migrating(v, r) || Importing(v, r);
      var missing := open && Counts(r) && HasMissing(cmds, r.db, data);
      var existing := open && Counts(r) && HasExisting(cmds, r.db, data);
      if open && r.cmd.kind.Exec? && !r.multi then Here
      else if open && HasForbidden(cmds, r.db) then Refused(Unstable)
      else if DownRoute(v, r).Some? then DownRoute(v, r).value
      else if open && r.cmd.kind.Migrate? && v.myself == v.primary then Here
      else if Migrating(v, r) && missing then (if existing then Refused(Unstable) else Ask(v.migratingTo.value))
      else if Importing(v, r) && (r.asking || r.cmd.asks) then
        (if HasSeveral(cmds) && missing then Refused(Unstable) else Here)
      else if (r.readonly || Pubsub(r)) && !Writes(r) && v.myself != v.primary && v.owner == Some(v.primary) then Here
      else if v.owner == Some(v.myself) then Here
      else Moved(v.owner.value)
  }

  // ---- The decision as the node computes it -------------------------------------------------

  method TransactionSlot(queue: seq<Command>) returns (slot: int, conflict: bool)
    ensures conflict == QueueConflict(queue)
    ensures !conflict ==> slot == QueueSlot(queue)
  {
    slot, conflict := -1, false;
    ghost var first: nat := 0;
    for i := 0 to |queue|
      invariant slot == QueueSlot(queue[..i])
      invariant slot == -1 ==> forall j: nat | j < i :: queue[j].slot == -1
      invariant slot != -1 ==> first < i && queue[first].slot == slot
      invariant forall j: nat | j < i :: queue[j].slot == -1 || queue[j].slot == slot
    {
      assert queue[..i + 1][..i] == queue[..i];
      if slot == -1 {
        slot := queue[i].slot;
        first := i;
      } else if queue[i].slot != -1 && queue[i].slot != slot {
        return slot, true;
      }
    }
    assert queue[..|queue|] == queue;
  }

  /** Position (a, b) comes before (i, j) in the walk over commands and keys. */
  predicate Before(a: nat, b: nat, i: nat, j: nat) {
    a < i || (a == i && b < j)
  }

  ghost predicate SomeMissing(cmds: seq<Command>, db: nat, data: Data, i: nat, j: nat) {
    exists a: nat, b: nat | At(cmds, a, b) && Before(a, b, i, j) :: !Holds(cmds, db, data, a, b)
  }

  ghost predicate SomeExisting(cmds: seq<Command>, db: nat, data: Data, i: nat, j: nat) {
    exists a: nat, b: nat | At(cmds, a, b) && Before(a, b, i, j) :: Holds(cmds, db, data, a, b)
  }

  /** All keys so far have the name `first`. */
  ghost predicate AllNamed(cmds: seq<Command>, first: Option<string>, i: nat, j: nat) {
    forall a: nat, b: nat | At(cmds, a, b) && Before(a, b, i, j) :: first == Some(cmds[a].keys[b])
  }

  ghost predicate OneOf(cmds: seq<Command>, first: Option<string>) {
    first.Some? ==> exists a: nat, b: nat | At(cmds, a, b) :: first.value == cmds[a].keys[b]
  }

  lemma KeyDone(cmds: seq<Command>, db: nat, data: Data, i: nat, j: nat)
    requires At(cmds, i, j)
    ensures SomeMissing(cmds, db, data, i, j + 1) <==> SomeMissing(cmds, db, data, i, j) || !Holds(cmds, db, data, i, j)
    ensures SomeExisting(cmds, db, data, i, j + 1) <==> SomeExisting(cmds, db, data, i, j) || Holds(cmds, db, data, i, j)
  {
    hide Holds;
    assert forall a: nat, b: nat | At(cmds, a, b) && Before(a, b, i, j) :: Before(a, b, i, j + 1);
    assert Before(i, j, i, j + 1);
  }

  lemma CommandDone(cmds: seq<Command>, db: nat, data: Data, i: nat, first: Option<string>)
    requires i < |cmds|
    ensures SomeMissing(cmds, db, data, i + 1, 0) <==> SomeMissing(cmds, db, data, i, |cmds[i].keys|)
    ensures SomeExisting(cmds, db, data, i + 1, 0) <==> SomeExisting(cmds, db, data, i, |cmds[i].keys|)
    ensures AllNamed(cmds, first, i, |cmds[i].keys|) ==> AllNamed(cmds, first, i + 1, 0)
  {
    hide Holds;
    assert forall a: nat, b: nat | At(cmds, a, b) :: Before(a, b, i, |cmds[i].keys|) <==> Before(a, b, i + 1, 0);
  }

  /** The loop over every key of every command, with its counters and its early exits. */
  method CheckKeys(importing: bool, counts: bool, cmds: seq<Command>, db: nat, data: Data)
    returns (forbidden: bool, missing: nat, existing: nat, several: bool)
    requires forall c | c in cmds && c.kind.Select? :: c.keys == []
    ensures forbidden == HasForbidden(cmds, db)
    ensures !forbidden ==> (missing > 0 <==> counts && HasMissing(cmds, db, data))
    ensures !forbidden ==> (existing > 0 <==> counts && HasExisting(cmds, db, data))
    ensures !forbidden ==> several == (importing && HasSeveral(cmds))
  {
    hide SomeMissing, SomeExisting, Holds, HasSeveral;
    forbidden, missing, existing, several := false, 0, 0, false;
    var current := db;
    var firstKey: Option<string> := None;
    Nothing(cmds, db, data);
    for i := 0 to |cmds|
      invariant !forbidden && current == DbAt(cmds, i, db)
      invariant forall a: nat | a < i :: cmds[a].keys == [] || !LeavesDb(cmds[a], DbAt(cmds, a, db))
      invariant missing > 0 <==> counts && SomeMissing(cmds, db, data, i, 0)
      invariant existing > 0 <==> counts && SomeExisting(cmds, db, data, i, 0)
      invariant OneOf(cmds, firstKey) && (several ==> importing && HasSeveral(cmds))
      invariant importing && !several ==> AllNamed(cmds, firstKey, i, 0)
      invariant firstKey == None ==> AllNamed(cmds, firstKey, i, 0)
    {
      var cmd := cmds[i];
      assert cmd in cmds;
      if cmd.kind.Select? && cmd.kind.db.Some? { current := cmd.kind.db.value; }
      for j := 0 to |cmd.keys|
        invariant !forbidden && (|cmd.keys| > 0 ==> current == DbAt(cmds, i, db))
        invariant j > 0 ==> !LeavesDb(cmd, DbAt(cmds, i, db))
        invariant missing > 0 <==> counts && SomeMissing(cmds, db, data, i, j)
        invariant existing > 0 <==> counts && SomeExisting(cmds, db, data, i, j)
        invariant OneOf(cmds, firstKey) && (several ==> importing && HasSeveral(cmds))
        invariant importing && !several ==> AllNamed(cmds, firstKey, i, j)
        invariant firstKey == None ==> AllNamed(cmds, firstKey, i, j)
      {
        var key := cmd.keys[j];
        assert At(cmds, i, j);
        if firstKey == None {
          firstKey := Some(key);
        } else if importing && !several && firstKey != Some(key) {
          several := true;
          Different(cmds, firstKey.value, i, j);
        }
        if LeavesDb(cmd, current) {
          forbidden := true;
          return;
        }
        KeyDone(cmds, db, data, i, j);
        if counts {
          assert Holds(cmds, db, data, i, j) <==> (current, key) in data by { HoldsMeans(cmds, db, data, i, j); }
          if (current, key) !in data { missing := missing + 1; } else { existing := existing + 1; }
        }
      }
      CommandDone(cmds, db, data, i, firstKey);
    }
    Everything(cmds, db, data, firstKey);
  }

  lemma HoldsMeans(cmds: seq<Command>, db: nat, data: Data, i: nat, j: nat)
    requires At(cmds, i, j)
    ensures Holds(cmds, db, data, i, j) <==> (DbAt(cmds, i, db), cmds[i].keys[j]) in data
  {
  }

  lemma Nothing(cmds: seq<Command>, db: nat, data: Data)
    ensures !SomeMissing(cmds, db, data, 0, 0) && !SomeExisting(cmds, db, data, 0, 0)
  {
  }

  lemma Different(cmds: seq<Command>, first: string, i: nat, j: nat)
    requires OneOf(cmds, Some(first)) && At(cmds, i, j) && cmds[i].keys[j] != first
    ensures HasSeveral(cmds)
  {
    var a: nat, b: nat :| At(cmds, a, b) && cmds[a].keys[b] == first;
    assert cmds[a].keys[b] != cmds[i].keys[j];
  }

  lemma Everything(cmds: seq<Command>, db: nat, data: Data, first: Option<string>)
    ensures SomeMissing(cmds, db, data, |cmds|, 0) <==> HasMissing(cmds, db, data)
    ensures SomeExisting(cmds, db, data, |cmds|, 0) <==> HasExisting(cmds, db, data)
    ensures AllNamed(cmds, first, |cmds|, 0) ==> !HasSeveral(cmds)
  {
    hide Holds;
    assert forall a: nat, b: nat | At(cmds, a, b) :: Before(a, b, |cmds|, 0);
    if AllNamed(cmds, first, |cmds|, 0) {
      forall i: nat, j: nat | At(cmds, i, j) ensures first == Some(cmds[i].keys[j]) {
        assert Before(i, j, |cmds|, 0);
      }
    }
  }

  method GetNodeByQuery(v: View, r: Request, data: Data) returns (route: Route, slot: int)
    requires forall c | c in Commands(r) && c.kind.Select? :: c.keys == []
    ensures route == RouteOf(v, r, data)
    ensures route.Ask? || route.Moved? ==> slot == SlotOfRequest(r) && slot != -1
  {
    hide HasMissing, HasExisting, HasSeveral, HasForbidden, QueueConflict, QueueSlot;
    slot := r.cmd.slot;
    if v.noRedirection { return Here, slot; }
    if r.cmd.kind.Exec? && r.multi {
      var s, conflict := TransactionSlot(r.queue);
      if conflict { return Refused(CrossSlot), slot; }
      slot := s;
    } else if r.crossSlot {
      return Refused(CrossSlot), slot;
    }
    if slot == -1 { return Here, slot; }
    if v.owner == None { return Refused(DownUnbound), slot; }
    var migrating, importing := false, false;
    if v.myself == v.primary || r.readonly {
      if v.owner == Some(v.primary) && v.migratingTo.Some? {
        migrating := true;
      } else if v.importingFrom.Some? {
        importing := true;
      }
    }
    var missing, existing, several := 0, 0, false;
    if migrating || importing {
      if r.cmd.kind.Exec? && !r.multi { return Here, slot; }
      var forbidden;
      forbidden, missing, existing, several := CheckKeys(importing, Counts(r), Commands(r), r.db, data);
      if forbidden { return Refused(Unstable), slot; }
    }
    if DownRoute(v, r).Some? { return DownRoute(v, r).value, slot; }
    if (migrating || importing) && r.cmd.kind.Migrate? && v.myself == v.primary { return Here, slot; }
    if migrating && missing > 0 {
      if existing > 0 { return Refused(Unstable), slot; }
      return Ask(v.migratingTo.value), slot;
    }
    if importing && (r.asking || r.cmd.asks) {
      if several && missing > 0 { return Refused(Unstable), slot; }
      return Here, slot;
    }
    if (r.readonly || Pubsub(r)) && !Writes(r) && v.myself != v.primary && v.owner == Some(v.primary) {
      return Here, slot;
    }
    if v.owner != Some(v.myself) { return Moved(v.owner.value), slot; }
    return Here, slot;
  }
}

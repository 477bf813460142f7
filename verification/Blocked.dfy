/**
 * The index of clients blocked on keys (src/blocked.c): each client knows its list
 * node for every key it waits on, each key knows its waiting list, and counters
 * are kept per blocking type and for clients that also want to hear of deletions.
 */
module Blocked {
  import opened Common

  type ClientId = nat
  type NodeId = nat
  /** A database and a key name. */
  type Key = (nat, string)

  datatype Kind = NotBlocked | OnList | OnZset | OnStream | OnWait | OnModule | OnPostpone | OnShutdown

  datatype ObjectType = ListObject | ZsetObject | StreamObject | ModuleObject | OtherObject

  /** A node of a waiting list; its identity is what clients store. */
  datatype Node = Node(id: NodeId, client: ClientId)

  datatype Client = Client(db: nat, isModule: bool, kind: Kind, nokey: bool, keys: map<string, NodeId>)

  // ---- What the index promises -------------------------------------------------------------

  predicate DistinctIds(l: seq<Node>) {
    forall i: nat, j: nat | i < j < |l| :: l[i].id != l[j].id
  }

  /** The client waits on the key, at this list node. */
  predicate WaitsAt(clients: map<ClientId, Client>, key: Key, n: Node) {
    && n.client in clients && clients[n.client].db == key.0
    && key.1 in clients[n.client].keys && clients[n.client].keys[key.1] == n.id
  }

  predicate InList(waiting: map<Key, seq<Node>>, key: Key, n: Node) {
    key in waiting && n in waiting[key]
  }

  /**
   * Both sides agree: a node is in a key's list exactly when its client stores it
   * for that key. Lists are not empty and hold no node twice.
   */
  ghost predicate Linked(clients: map<ClientId, Client>, waiting: map<Key, seq<Node>>) {
    && (forall key | key in waiting :: waiting[key] != [] && DistinctIds(waiting[key]))
    && (forall key: Key, n: Node :: InList(waiting, key, n) <==> WaitsAt(clients, key, n))
  }

  /** Clients waiting on a key that asked to be woken when it is deleted. */
  ghost function Wanting(clients: map<ClientId, Client>, key: Key): set<ClientId> {
    set c | c in clients && clients[c].db == key.0 && key.1 in clients[c].keys && clients[c].nokey
  }

  /** The count of a key is the number of such clients, and is kept only while there are any. */
  ghost predicate CountedAt(clients: map<ClientId, Client>, nokey: map<Key, nat>, key: Key) {
    (key in nokey <==> Wanting(clients, key) != {}) && (key in nokey ==> nokey[key] == |Wanting(clients, key)|)
  }

  ghost predicate Counted(clients: map<ClientId, Client>, nokey: map<Key, nat>) {
    forall key: Key :: CountedAt(clients, nokey, key)
  }

  ghost function OfKind(clients: map<ClientId, Client>, kind: Kind): set<ClientId> {
    set c | c in clients && clients[c].kind == kind
  }

  ghost predicate TalliedAt(clients: map<ClientId, Client>, byKind: map<Kind, nat>, kind: Kind) {
    kind in byKind && byKind[kind] == |OfKind(clients, kind)|
  }

  ghost predicate Tallied(clients: map<ClientId, Client>, byKind: map<Kind, nat>) {
    forall kind: Kind | kind != NotBlocked :: TalliedAt(clients, byKind, kind)
  }

  /** Regular clients that are blocked. */
  ghost function Regular(clients: map<ClientId, Client>): set<ClientId> {
    set c | c in clients && clients[c].kind != NotBlocked && !clients[c].isModule
  }

  predicate WaitsForData(kind: Kind) {
    kind.OnList? || kind.OnZset? || kind.OnStream? || kind.OnModule?
  }

  /** Only clients blocked on data have keys, and only blocked ones a wish about deletions. */
  ghost predicate Tidy(clients: map<ClientId, Client>) {
    forall c | c in clients :: TidyClient(clients[c])
  }

  ghost predicate TidyClient(client: Client) {
    (client.keys != map[] ==> WaitsForData(client.kind)) && (client.kind == NotBlocked ==> !client.nokey)
  }

  ghost predicate FreshIds(clients: map<ClientId, Client>, next: NodeId) {
    forall c, k | c in clients && k in clients[c].keys :: clients[c].keys[k] < next
  }

  /** A client stands in a key's list exactly once, at the place it stores. */
  lemma ExactlyOnce(clients: map<ClientId, Client>, waiting: map<Key, seq<Node>>, c: ClientId, k: string)
    requires Linked(clients, waiting) && c in clients
    ensures var key := (clients[c].db, k);
            k in clients[c].keys <==> key in waiting && exists i: nat | i < |waiting[key]| :: waiting[key][i].client == c
    ensures var key := (clients[c].db, k);
            key in waiting ==> forall i: nat, j: nat | i < j < |waiting[key]| ::
              !(waiting[key][i].client == c && waiting[key][j].client == c)
  {
    var key := (clients[c].db, k);
    if k in clients[c].keys {
      assert WaitsAt(clients, key, Node(clients[c].keys[k], c));
    }
    if key in waiting {
      forall i: nat | i < |waiting[key]| && waiting[key][i].client == c ensures k in clients[c].keys && waiting[key][i].id == clients[c].keys[k] {
        assert InList(waiting, key, waiting[key][i]);
      }
    }
  }

  // ---- One entry ---------------------------------------------------------------------------------

  function Unlink(l: seq<Node>, id: NodeId): seq<Node> {
    if |l| == 0 then [] else if l[0].id == id then Unlink(l[1..], id) else [l[0]] + Unlink(l[1..], id)
  }

  lemma {:induction false} UnlinkIs(l: seq<Node>, id: NodeId)
    requires DistinctIds(l)
    ensures DistinctIds(Unlink(l, id))
    ensures forall n :: n in Unlink(l, id) <==> n in l && n.id != id
  {
    if |l| > 0 {
      assert l == [l[0]] + l[1..];
      UnlinkIs(l[1..], id);
      assert forall n | n in l[1..] :: n.id != l[0].id;
    }
  }

  function SetKeys(clients: map<ClientId, Client>, c: ClientId, keys: map<string, NodeId>): map<ClientId, Client>
    requires c in clients
  {
    clients[c := clients[c].(keys := keys)]
  }

  /** A new last node for a key the client did not wait on. */
  lemma EntryAdded(clients: map<ClientId, Client>, waiting: map<Key, seq<Node>>, c: ClientId, k: string, id: NodeId)
    requires Linked(clients, waiting) && c in clients && k !in clients[c].keys && FreshIds(clients, id)
    ensures var key := (clients[c].db, k);
            var l := if key in waiting then waiting[key] else [];
            Linked(SetKeys(clients, c, clients[c].keys[k := id]), waiting[key := l + [Node(id, c)]])
            && FreshIds(SetKeys(clients, c, clients[c].keys[k := id]), id + 1)
  {
    var key := (clients[c].db, k);
    var l := if key in waiting then waiting[key] else [];
    var after := SetKeys(clients, c, clients[c].keys[k := id]);
    var next := waiting[key := l + [Node(id, c)]];
    forall n | n in l ensures n.id < id {
      assert InList(waiting, key, n);
    }
    forall key': Key, n: Node ensures InList(next, key', n) <==> WaitsAt(after, key', n) {
      assert InList(waiting, key', n) <==> WaitsAt(clients, key', n);
    }
  }

  /** Without an entry: its node is gone, and the list with it when it was the last. */
  lemma EntryRemoved(clients: map<ClientId, Client>, waiting: map<Key, seq<Node>>, c: ClientId, k: string)
    requires Linked(clients, waiting) && c in clients && k in clients[c].keys
    ensures var key := (clients[c].db, k);
            && key in waiting
            && var l := Unlink(waiting[key], clients[c].keys[k]);
               Linked(SetKeys(clients, c, clients[c].keys - {k}), if l == [] then waiting - {key} else waiting[key := l])
  {
    var key := (clients[c].db, k);
    assert WaitsAt(clients, key, Node(clients[c].keys[k], c));
    var l := Unlink(waiting[key], clients[c].keys[k]);
    UnlinkIs(waiting[key], clients[c].keys[k]);
    var after := SetKeys(clients, c, clients[c].keys - {k});
    var next := if l == [] then waiting - {key} else waiting[key := l];
    forall key': Key, n: Node ensures InList(next, key', n) <==> WaitsAt(after, key', n) {
      assert InList(waiting, key', n) <==> WaitsAt(clients, key', n);
    }
  }

  function SetNokey(clients: map<ClientId, Client>, c: ClientId, nokey: bool): map<ClientId, Client>
    requires c in clients
  {
    clients[c := clients[c].(nokey := nokey)]
  }

  function Bump(m: map<Key, nat>, key: Key): map<Key, nat> {
    m[key := if key in m then m[key] + 1 else 1]
  }

  function Drop(m: map<Key, nat>, key: Key): map<Key, nat> {
    if key in m && m[key] > 1 then m[key := m[key] - 1] else m - {key}
  }

  lemma WantingAdded(clients: map<ClientId, Client>, c: ClientId, k: string, id: NodeId, key: Key)
    requires c in clients && k !in clients[c].keys
    ensures var hit := key == (clients[c].db, k) && clients[c].nokey;
            && Wanting(SetKeys(clients, c, clients[c].keys[k := id]), key) == Wanting(clients, key) + (if hit then {c} else {})
            && (hit ==> c !in Wanting(clients, key))
  {
  }

  lemma WantingRemoved(clients: map<ClientId, Client>, c: ClientId, k: string, key: Key)
    requires c in clients && k in clients[c].keys
    ensures var hit := key == (clients[c].db, k) && clients[c].nokey;
            && Wanting(SetKeys(clients, c, clients[c].keys - {k}), key) == Wanting(clients, key) - (if hit then {c} else {})
            && (hit ==> c in Wanting(clients, key))
  {
  }

  /** One more client that wants to hear of deletions is one more in the count. */
  lemma CountAdded(clients: map<ClientId, Client>, nokey: map<Key, nat>, c: ClientId, k: string, id: NodeId)
    requires Counted(clients, nokey) && c in clients && k !in clients[c].keys
    ensures var key := (clients[c].db, k);
            Counted(SetKeys(clients, c, clients[c].keys[k := id]), if clients[c].nokey then Bump(nokey, key) else nokey)
  {
    hide Wanting, SetKeys;
    var after, next := SetKeys(clients, c, clients[c].keys[k := id]),
                       if clients[c].nokey then Bump(nokey, (clients[c].db, k)) else nokey;
    forall key: Key ensures CountedAt(after, next, key) {
      assert CountedAt(clients, nokey, key);
      WantingAdded(clients, c, k, id, key);
    }
  }

  lemma CountRemoved(clients: map<ClientId, Client>, nokey: map<Key, nat>, c: ClientId, k: string)
    requires Counted(clients, nokey) && c in clients && k in clients[c].keys
    ensures var key := (clients[c].db, k);
            && Counted(SetKeys(clients, c, clients[c].keys - {k}), if clients[c].nokey then Drop(nokey, key) else nokey)
            && (clients[c].nokey ==> key in nokey && nokey[key] > 0)
  {
    hide Wanting, SetKeys;
    var after, next := SetKeys(clients, c, clients[c].keys - {k}),
                       if clients[c].nokey then Drop(nokey, (clients[c].db, k)) else nokey;
    forall key: Key ensures CountedAt(after, next, key) {
      assert CountedAt(clients, nokey, key);
      WantingRemoved(clients, c, k, key);
      if clients[c].nokey && key == (clients[c].db, k) { LessOne(Wanting(clients, key), c); }
    }
    assert CountedAt(clients, nokey, (clients[c].db, k));
    WantingRemoved(clients, c, k, (clients[c].db, k));
  }

  lemma MoreOne(s: set<ClientId>, c: ClientId)
    requires c !in s
    ensures s - {c} == s && |s - {c} + {c}| == |s| + 1
  {
  }

  lemma LessOne(s: set<ClientId>, c: ClientId)
    requires c in s
    ensures |s - {c}| == |s| - 1 && (s - {c} == {} <==> |s| == 1)
  {
  }

  /** An empty waiting list leaves nobody to count. */
  lemma NobodyWants(clients: map<ClientId, Client>, waiting: map<Key, seq<Node>>, nokey: map<Key, nat>, key: Key)
    requires Linked(clients, waiting) && Counted(clients, nokey) && key !in waiting
    ensures key !in nokey
  {
    assert CountedAt(clients, nokey, key);
    assert forall c | c in Wanting(clients, key) :: WaitsAt(clients, key, Node(clients[c].keys[key.1], c));
    forall n: Node ensures !WaitsAt(clients, key, n) {
      assert !InList(waiting, key, n);
    }
  }

  // ---- The tables in place ------------------------------------------------------------------------

  class Blocking {
    var clients: map<ClientId, Client>
    var waiting: map<Key, seq<Node>>
    var nokey: map<Key, nat>
    var byKind: map<Kind, nat>
    var blocked: nat
    var nextNode: NodeId
    var readyKeys: set<Key>
    var readyList: seq<Key>
    /** The rest of the list being handled; empty between two passes. */
    var handling: seq<Key>
    /** Signals that somebody waited for, and keys that were handled, in order. */
    ghost var log: seq<Note>

    ghost predicate Indexed()
      reads this
    {
      Linked(clients, waiting) && Counted(clients, nokey) && FreshIds(clients, nextNode)
    }

    ghost predicate Valid()
      reads this
    {
      && Indexed() && Tidy(clients)
      && Tallied(clients, byKind) && blocked == |Regular(clients)|
      && QueuedOnce(readyKeys, handling, readyList) && NoneLost(log, handling + readyList)
    }

    constructor ()
      ensures Valid() && clients == map[] && handling == [] && readyList == []
    {
      clients, waiting, nokey, blocked, nextNode := map[], map[], map[], 0, 0;
      readyKeys, readyList, handling, log := {}, [], [], [];
      byKind := map[OnList := 0, OnZset := 0, OnStream := 0, OnWait := 0, OnModule := 0, OnPostpone := 0, OnShutdown := 0];
      new;
      assert forall key: Key :: Wanting(clients, key) == {};
      assert forall kind: Kind :: OfKind(clients, kind) == {};
      assert Regular(clients) == {};
    }

    method NewClient(c: ClientId, db: nat, isModule: bool)
      requires Valid() && c !in clients
      modifies this`clients
      ensures Valid() && clients == old(clients)[c := Client(db, isModule, NotBlocked, false, map[])]
    {
      clients := clients[c := Client(db, isModule, NotBlocked, false, map[])];
      ghost var before := old(clients);
      forall key: Key, n: Node ensures InList(waiting, key, n) <==> WaitsAt(clients, key, n) {
        assert InList(waiting, key, n) <==> WaitsAt(before, key, n);
      }
      forall key: Key ensures CountedAt(clients, nokey, key) {
        assert CountedAt(before, nokey, key) && Wanting(clients, key) == Wanting(before, key);
      }
      forall kind: Kind | kind != NotBlocked ensures TalliedAt(clients, byKind, kind) {
        assert TalliedAt(before, byKind, kind) && OfKind(clients, kind) == OfKind(before, kind);
      }
      assert Regular(clients) == Regular(before);
    }

    /**
     * Takes one entry out of the key's list and out of the count. The entry stays in
     * the client's own table; `left` is that table without the entries released so far.
     */
    method ReleaseEntry(c: ClientId, k: string, ghost left: map<string, NodeId>)
      requires c in clients && k in clients[c].keys && k in left && left[k] == clients[c].keys[k]
      requires Linked(SetKeys(clients, c, left), waiting) && Counted(SetKeys(clients, c, left), nokey)
      modifies this`waiting, this`nokey
      ensures Linked(SetKeys(clients, c, left - {k}), waiting) && Counted(SetKeys(clients, c, left - {k}), nokey)
      ensures GoneAt(old(waiting), waiting, (clients[c].db, k), clients[c].keys[k])
      ensures forall key: Key | key != (clients[c].db, k) :: SameAt(old(waiting), waiting, key)
    {
      hide Linked, Counted;
      ghost var view := SetKeys(clients, c, left);
      ghost var after := SetKeys(view, c, left - {k});
      assert after == SetKeys(clients, c, left - {k});
      EntryRemoved(view, waiting, c, k);
      CountRemoved(view, nokey, c, k);
      var key := (clients[c].db, k);
      var l := Unlink(waiting[key], clients[c].keys[k]);
      if |l| == 0 {
        waiting := waiting - {key};
        assert Linked(after, waiting);
        NobodyWants(after, waiting, if clients[c].nokey then Drop(nokey, key) else nokey, key);
        nokey := nokey - {key};
        assert nokey == old(if clients[c].nokey then Drop(nokey, key) else nokey);
      } else {
        waiting := waiting[key := l];
        if clients[c].nokey {
          nokey := nokey[key := nokey[key] - 1];
          if nokey[key] == 0 { nokey := nokey - {key}; }
          assert nokey == Drop(old(nokey), key);
        }
      }
    }

    /** Marks the client as blocked and counts it. */
    method BlockClient(c: ClientId, kind: Kind)
      requires c in clients && clients[c].kind == NotBlocked && kind != NotBlocked
      requires Tallied(clients, byKind) && blocked == |Regular(clients)|
      modifies this`clients, this`byKind, this`blocked
      ensures clients == old(clients)[c := old(clients)[c].(kind := kind)]
      ensures Tallied(clients, byKind) && blocked == |Regular(clients)|
    {
      hide Tallied, Regular;
      OneMore(clients, byKind, c, kind);
      if !clients[c].isModule { blocked := blocked + 1; }
      byKind := byKind[kind := (if kind in byKind then byKind[kind] else 0) + 1];
      clients := clients[c := clients[c].(kind := kind)];
    }

    /** One key of a blocking command: a new last node, and one more count if deletions matter. */
    method AddEntry(c: ClientId, k: string, unblockOnNokey: bool)
      requires c in clients && k !in clients[c].keys && FreshIds(clients, nextNode)
      requires Linked(clients, waiting) && Counted(SetNokey(clients, c, unblockOnNokey), nokey)
      modifies this`clients, this`waiting, this`nokey, this`nextNode
      ensures clients == SetKeys(old(clients), c, old(clients)[c].keys[k := old(nextNode)]) && nextNode == old(nextNode) + 1
      ensures Linked(clients, waiting) && Counted(SetNokey(clients, c, unblockOnNokey), nokey) && FreshIds(clients, nextNode)
      ensures var key := (clients[c].db, k);
              waiting == old(waiting)[key := (if key in old(waiting) then old(waiting)[key] else []) + [Node(old(nextNode), c)]]
    {
      hide Linked, Counted, FreshIds;
      EntryAdded(clients, waiting, c, k, nextNode);
      CountAdded(SetNokey(clients, c, unblockOnNokey), nokey, c, k, nextNode);
      var key := (clients[c].db, k);
      var l := if key in waiting then waiting[key] else [];
      waiting := waiting[key := l + [Node(nextNode, c)]];
      clients := clients[c := clients[c].(keys := clients[c].keys[k := nextNode])];
      nextNode := nextNode + 1;
      if unblockOnNokey {
        nokey := if key in nokey then nokey[key := nokey[key] + 1] else nokey[key := 1];
      }
      assert SetNokey(clients, c, unblockOnNokey)
          == SetKeys(SetNokey(old(clients), c, unblockOnNokey), c, old(clients)[c].keys[k := old(nextNode)]);
    }

    /** WAIT, postponed and shutdown clients block without keys. */
    method BlockWithoutKeys(c: ClientId, kind: Kind)
      requires Valid() && c in clients && clients[c].kind == NotBlocked && kind != NotBlocked && !WaitsForData(kind)
      modifies this`clients, this`byKind, this`blocked
      ensures Valid() && clients == old(clients)[c := old(clients)[c].(kind := kind)]
    {
      hide Linked, Counted, FreshIds, Tallied, Regular, OfKind, Tidy;
      TidyIs(clients, c);
      KindIrrelevant(clients, waiting, nokey, nextNode, c, kind);
      BlockClient(c, kind);
      TidyKept(old(clients), c, clients[c]);
    }

    /** The loop over the keys; a key named twice counts once. */
    method AddEntries(c: ClientId, keys: seq<string>, unblockOnNokey: bool)
      requires c in clients && clients[c].keys == map[] && FreshIds(clients, nextNode)
      requires Linked(clients, waiting) && Counted(SetNokey(clients, c, unblockOnNokey), nokey)
      modifies this`clients, this`waiting, this`nokey, this`nextNode
      ensures c in clients && clients == SetKeys(old(clients), c, clients[c].keys)
      ensures Linked(clients, waiting) && Counted(SetNokey(clients, c, unblockOnNokey), nokey) && FreshIds(clients, nextNode)
      ensures forall k :: k in clients[c].keys <==> k in keys
      ensures Queued(old(waiting), waiting, c, clients[c])
    {
      hide Linked, Counted, FreshIds, Queued;
      assert Queued(waiting, waiting, c, clients[c]) by { NothingQueued(waiting, c, clients[c]); }
      for j := 0 to |keys|
        invariant c in clients && clients == SetKeys(old(clients), c, clients[c].keys)
        invariant Linked(clients, waiting) && Counted(SetNokey(clients, c, unblockOnNokey), nokey) && FreshIds(clients, nextNode)
        invariant forall k :: k in clients[c].keys <==> k in keys[..j]
        invariant Queued(old(waiting), waiting, c, clients[c])
      {
        assert keys[..j + 1] == keys[..j] + [keys[j]];
        if keys[j] !in clients[c].keys {
          QueueNext(old(waiting), waiting, c, clients[c], keys[j], nextNode);
          AddEntry(c, keys[j], unblockOnNokey);
        }
      }
      assert keys[..|keys|] == keys;
    }

    /** Blocks a client on some keys, behind everyone who waits on them already. */
    method BlockForKeys(c: ClientId, kind: Kind, keys: seq<string>, unblockOnNokey: bool)
      requires Valid() && c in clients && clients[c].kind == NotBlocked && WaitsForData(kind)
      modifies this`clients, this`waiting, this`nokey, this`byKind, this`blocked, this`nextNode
      ensures Valid()
      ensures c in clients && clients == old(clients)[c := old(clients)[c].(kind := kind, nokey := unblockOnNokey, keys := clients[c].keys)]
      ensures forall k :: k in clients[c].keys <==> k in keys
      ensures Queued(old(waiting), waiting, c, clients[c])
    {
      hide Linked, Counted, FreshIds, Tallied, Regular, OfKind, Queued, Tidy;
      TidyIs(clients, c);
      NokeyIrrelevant(clients, nokey, c, unblockOnNokey);
      AddEntries(c, keys, unblockOnNokey);
      ghost var queued := clients[c];
      FlagIrrelevant(clients, waiting, nextNode, c, unblockOnNokey);
      clients := clients[c := clients[c].(nokey := unblockOnNokey)];
      SameTallies(old(clients), clients, byKind, c);
      KindIrrelevant(clients, waiting, nokey, nextNode, c, kind);
      BlockClient(c, kind);
      QueuedKeys(old(waiting), waiting, c, queued, clients[c]);
      TidyKept(old(clients), c, clients[c]);
      assert clients == old(clients)[c := clients[c]];
    }

    /** Takes the client out of the list of every key it waits on. */
    method UnblockWaitingData(c: ClientId)
      requires c in clients && Indexed()
      modifies this`clients, this`waiting, this`nokey
      ensures Indexed() && clients == SetKeys(old(clients), c, map[])
      ensures Left(old(waiting), waiting, old(clients)[c], map[])
    {
      hide Linked, Counted, FreshIds, Left, GoneAt, SameAt;
      if |clients[c].keys| == 0 {
        assert clients[c].keys == map[] && clients == SetKeys(clients, c, map[]);
        NobodyLeft(waiting, clients[c]);
        return;
      }
      var todo := clients[c].keys.Keys;
      ghost var left := clients[c].keys;
      assert SetKeys(clients, c, left) == clients;
      NobodyLeft(waiting, clients[c]);
      while todo != {}
        invariant c in clients && clients == old(clients) && nextNode == old(nextNode)
        invariant todo == left.Keys && (forall k | k in left :: k in clients[c].keys && left[k] == clients[c].keys[k])
        invariant Linked(SetKeys(clients, c, left), waiting) && Counted(SetKeys(clients, c, left), nokey)
        invariant Left(old(waiting), waiting, clients[c], left)
        decreases |todo|
      {
        var k :| k in todo;
        ghost var mid := waiting;
        ReleaseEntry(c, k, left);
        LeaveNext(old(waiting), mid, waiting, clients[c], left, k);
        todo, left := todo - {k}, left - {k};
      }
      assert left == map[];
      clients := clients[c := clients[c].(keys := map[])];
      FewerIds(old(clients), nextNode, c);
    }

    /** Unblocks a client: it leaves all lists and counts. */
    method UnblockClient(c: ClientId)
      requires Valid() && c in clients && clients[c].kind != NotBlocked
      modifies this`clients, this`waiting, this`nokey, this`byKind, this`blocked, this`nextNode
      ensures Valid()
      ensures clients == old(clients)[c := Client(old(clients)[c].db, old(clients)[c].isModule, NotBlocked, false, map[])]
      ensures Left(old(waiting), waiting, old(clients)[c], map[])
    {
      hide Linked, Counted, FreshIds, Tallied, Regular, OfKind, Tidy, Left;
      if WaitsForData(clients[c].kind) {
        UnblockWaitingData(c);
      } else {
        NoKeys(clients, c);
        assert clients[c].keys == map[] && SetKeys(clients, c, map[]) == clients;
        NobodyLeft(waiting, clients[c]);
      }
      SameTallies(old(clients), clients, byKind, c);
      ClearBlocked(c);
      TidyKept(old(clients), c, clients[c]);
      assert clients == old(clients)[c := clients[c]];
    }

    /** The counters and flags of a client that waits on no key any more. */
    method ClearBlocked(c: ClientId)
      requires c in clients && clients[c].kind != NotBlocked && clients[c].keys == map[]
      requires Indexed() && Tallied(clients, byKind) && blocked == |Regular(clients)|
      modifies this`clients, this`byKind, this`blocked
      ensures Indexed() && Tallied(clients, byKind) && blocked == |Regular(clients)|
      ensures clients == old(clients)[c := old(clients)[c].(kind := NotBlocked, nokey := false)]
    {
      hide Linked, Counted, FreshIds, Tallied, Regular, OfKind;
      OneLess(clients, byKind, c);
      if !clients[c].isModule { blocked := blocked - 1; }
      byKind := byKind[clients[c].kind := byKind[clients[c].kind] - 1];
      KindIrrelevant(clients, waiting, nokey, nextNode, c, NotBlocked);
      clients := clients[c := clients[c].(kind := NotBlocked)];
      NokeyIrrelevant(clients, nokey, c, false);
      FlagIrrelevant(clients, waiting, nextNode, c, false);
      SameTallies(clients, clients[c := clients[c].(nokey := false)], byKind, c);
      clients := clients[c := clients[c].(nokey := false)];
    }

    /** One of its keys is ready: the client leaves that key first, then the others. */
    method UnblockClientOnKey(c: ClientId, k: string)
      requires Valid() && c in clients && clients[c].kind != NotBlocked && k in clients[c].keys
      modifies this`clients, this`waiting, this`nokey, this`byKind, this`blocked, this`nextNode
      ensures Valid()
      ensures clients == old(clients)[c := Client(old(clients)[c].db, old(clients)[c].isModule, NotBlocked, false, map[])]
      ensures Left(old(waiting), waiting, old(clients)[c], map[])
    {
      hide Linked, Counted, FreshIds, Tallied, Regular, OfKind, Tidy, Left;
      ghost var before := clients[c];
      assert SetKeys(clients, c, before.keys) == clients;
      ReleaseEntry(c, k, before.keys);
      clients := clients[c := clients[c].(keys := clients[c].keys - {k})];
      SameTallies(old(clients), clients, byKind, c);
      FewerKeys(old(clients), nextNode, c, k);
      ghost var mid := waiting;
      UnblockClient(c);
      LeaveBoth(old(waiting), mid, waiting, before, k);
    }

    /** A key changed or was deleted: queue it unless nobody can be waiting for that. */
    method SignalKeyAsReady(key: Key, objectType: ObjectType, deleted: bool)
      requires Valid()
      modifies this`readyKeys, this`readyList, this`log
      ensures Valid()
      ensures readyList == old(readyList) || readyList == old(readyList) + [key]
      ensures readyList != old(readyList) ==> (if deleted then key in nokey else key in waiting) && key !in old(handling + readyList)
      ensures Interested(clients, key, KindOf(objectType), deleted) != {} ==> key in handling || key in readyList
      ensures log == old(log) + if Interested(clients, key, KindOf(objectType), deleted) != {} then [Woke(key)] else []
    {
      hide Linked, Counted, FreshIds, Tallied, Regular, Tidy, NoneLost;
      var kind := KindOf(objectType);
      SomebodyInterested(clients, waiting, nokey, byKind, key, kind, deleted);
      ghost var awaited := Interested(clients, key, kind, deleted) != {};
      var useless := kind == NotBlocked
                     || ((kind in byKind ==> byKind[kind] == 0) && (OnModule in byKind ==> byKind[OnModule] == 0))
                     || (if deleted then key !in nokey else key !in waiting);
      if useless { return; }
      if key !in readyKeys {
        QueueMore(readyKeys, handling, readyList, key);
        MorePending(log, handling + readyList, handling + (readyList + [key]));
        readyKeys := readyKeys + {key};
        readyList := readyList + [key];
      }
      if awaited {
        WokeKeeps(log, handling + readyList, key);
        log := log + [Woke(key)];
      }
    }

    /**
     * The command of a client that gets its turn: it leaves the index, changes keys, and
     * may block again behind everyone else. `between` is the lists once it has left. A
     * module's client keeps its place.
     */
    method TakeTurn(c: ClientId, k: string, turn: Turn) returns (ghost between: map<Key, seq<Node>>)
      requires Valid() && c in clients && clients[c].kind != NotBlocked && k in clients[c].keys
      modifies this
      ensures Valid() && handling == old(handling) && old(log) <= log
      ensures forall d :: d in clients <==> d in old(clients)
      ensures forall d | d in old(clients) && d != c :: clients[d] == old(clients)[d]
      ensures c in clients && AfterTurn(old(clients)[c], clients[c], turn)
      ensures old(clients)[c].kind == OnModule ==> between == waiting == old(waiting)
      ensures old(clients)[c].kind != OnModule ==>
                Left(old(waiting), between, old(clients)[c], map[]) && Queued(between, waiting, c, clients[c])
    {
      hide Linked, Counted, FreshIds, Tallied, Regular, Left, Queued, Tidy, NoneLost, QueuedOnce;
      if clients[c].kind != OnModule { UnblockClientOnKey(c, k); }
      between := waiting;
      ghost var left := clients;
      for i := 0 to |turn.signals|
        invariant Valid() && clients == left && waiting == between && handling == old(handling) && old(log) <= log
      {
        var signal := turn.signals[i];
        SignalKeyAsReady(signal.key, signal.objectType, signal.deleted);
      }
      NothingQueued(waiting, c, clients[c].(keys := map[]));
      if clients[c].kind == NotBlocked && turn.again.Some? && WaitsForData(turn.again.value.kind) {
        BlockForKeys(c, turn.again.value.kind, turn.again.value.keys, turn.again.value.nokey);
      }
    }

    /** One waiter, with those before and behind it in the key's list. */
    method ServeOne(key: Key, node: Node, found: Option<ObjectType>, turn: Turn, ghost front: seq<Node>, ghost rest: seq<Node>)
      returns (took: bool, ghost added: seq<Node>)
      requires Valid() && ListOf(waiting, key) == front + [node] + rest && node.client in clients
      modifies this
      ensures Valid() && handling == old(handling) && old(log) <= log
      ensures took == Eligible(old(clients)[node.client], found)
      ensures TurnTaken(old(clients), clients, node.client, took, turn)
      ensures ListOf(waiting, key)
              == front + (if took && old(clients)[node.client].kind != OnModule then [] else [node]) + rest + added
      ensures forall n | n in added :: took && n.client == node.client
    {
      hide Linked, Counted, FreshIds, Tallied, Regular, Left, Queued, Tidy, NoneLost, QueuedOnce, AfterTurn, Unlink;
      Stands(clients, waiting, key, node, front, rest);
      var c := node.client;
      KeysMeanBlocked(clients, c, key.1);
      added := [];
      assert front + [node] + rest + [] == front + [node] + rest;
      took := Eligible(clients[c], found);
      if took {
        ghost var between := TakeTurn(c, key.1, turn);
        if old(clients)[c].kind != OnModule {
          TurnAt(old(waiting), between, waiting, key, old(clients)[c], clients[c], node, front, rest);
          added := AddedAt(key, c, clients[c]);
          assert front + [] + rest == front + rest;
        }
      }
    }

    /**
     * A ready key: its waiters get one turn each, in the order they came. A client
     * that is served leaves the index; its command may block it again, behind the rest.
     */
    method ServeKey(key: Key, objects: nat -> Option<ObjectType>, turns: ClientId -> Turn)
      returns (served: seq<ClientId>, ghost behind: seq<Node>)
      requires Valid()
      modifies this
      ensures Valid() && handling == old(handling) && old(log) <= log
      ensures served == if key in old(waiting) then Chosen(old(clients), old(waiting)[key], objects, |old(waiting)[key]|) else []
      ensures TurnsTaken(old(clients), clients, served, turns)
      ensures ListOf(waiting, key)
              == Staying(old(clients), ListOf(old(waiting), key), objects, |ListOf(old(waiting), key)|) + behind
      ensures forall n | n in behind :: n.client in served
    {
      hide Valid, AfterTurn, TurnsTaken, TurnTaken, Eligible, Chosen, Staying;
      served, behind := [], [];
      NoTurns(clients, turns);
      var list := if key in waiting then waiting[key] else [];
      NobodyServed(clients, list, objects);
      if key !in waiting { return; }
      Waiters(key);
      assert [] + list[0..] + [] == list;
      for i := 0 to |list|
        invariant Valid() && handling == old(handling) && old(log) <= log
        invariant served == Chosen(old(clients), list, objects, i)
        invariant TurnsTaken(old(clients), clients, served, turns)
        invariant ListOf(waiting, key) == Staying(old(clients), list, objects, i) + list[i..] + behind
        invariant forall n | n in behind :: n.client in served
      {
        ghost var before, kept := clients, Staying(old(clients), list, objects, i);
        NotYet(old(clients), clients, list, objects, i, served, turns);
        Middle(kept, list, i, behind);
        var took, added := ServeOne(key, list[i], objects(i), turns(list[i].client), kept, list[i + 1..] + behind);
        TurnNext(old(clients), before, clients, served, list[i].client, took, turns);
        ServedNext(old(clients), list, objects, i);
        Regroup(Staying(old(clients), list, objects, i + 1), list[i + 1..], behind, added);
        if took { served := served + [list[i].client]; }
        behind := behind + added;
      }
      assert list[|list|..] == [];
    }

    lemma Waiters(key: Key)
      requires Valid() && key in waiting
      ensures forall i: nat, j: nat | i < j < |waiting[key]| :: waiting[key][i].client != waiting[key][j].client
      ensures forall i: nat | i < |waiting[key]| :: waiting[key][i].client in clients
    {
      WaitersDiffer(clients, waiting, key);
    }

    /** Takes the next key off the list being handled and out of the dictionary. */
    method NextReady() returns (key: Key)
      requires Valid() && |handling| > 0
      modifies this`readyKeys, this`handling, this`log
      ensures Valid() && key == old(handling)[0] && handling == old(handling)[1..] && log == old(log) + [Handled(key)]
    {
      hide Linked, Counted, FreshIds, Tallied, Regular, Tidy, NoneLost;
      key := handling[0];
      Dequeue(readyKeys, handling, readyList);
      HandledKeeps(log, handling + readyList, handling[1..] + readyList, key);
      readyKeys := readyKeys - {key};
      handling := handling[1..];
      log := log + [Handled(key)];
    }

    /** The list of ready keys is taken over, and a new one begun. */
    method TakeReady()
      requires Valid() && handling == []
      modifies this`readyList, this`handling
      ensures Valid() && handling == old(readyList) && readyList == []
    {
      hide Linked, Counted, FreshIds, Tallied, Regular, Tidy, NoneLost;
      TakeOver(readyKeys, readyList);
      assert [] + readyList == readyList && readyList + [] == readyList;
      handling, readyList := readyList, [];
    }

    /**
     * One pass over the ready keys: the list is taken over, and each of its keys is
     * handled once, in order. Keys signalled meanwhile are in the rest or in the new list.
     */
    method HandlePass(objects: (Key, nat) -> Option<ObjectType>, turns: (Key, ClientId) -> Turn) returns (handled: seq<Key>)
      requires Valid() && handling == []
      modifies this
      ensures Valid() && handling == [] && handled == old(readyList) && old(log) <= log
    {
      hide Valid, TurnsTaken;
      handled := [];
      TakeReady();
      while |handling| > 0
        invariant Valid() && handled + handling == old(readyList) && old(log) <= log
        decreases |handling|
      {
        var key := NextReady();
        handled := handled + [key];
        var served, behind := ServeKey(key, (i: nat) => objects(key, i), (c: ClientId) => turns(key, c));
      }
    }

    /**
     * Passes until no key is ready, at most `rounds` of them. When it ends with no key
     * ready, every signal that somebody waited for was followed by the handling of its key.
     */
    method HandleBlockedOnKeys(rounds: nat, objects: (nat, Key, nat) -> Option<ObjectType>, turns: (nat, Key, ClientId) -> Turn)
      returns (passes: nat)
      requires Valid() && handling == []
      modifies this
      ensures Valid() && handling == [] && old(log) <= log
      ensures passes == rounds || readyList == []
      ensures readyList == [] ==> forall i: nat | i < |log| && log[i].Woke? :: HandledAfter(log, i, log[i].key)
    {
      hide Linked, Counted, FreshIds, Tallied, Regular, Tidy, QueuedOnce;
      passes := 0;
      while |readyList| > 0 && passes < rounds
        invariant Valid() && handling == [] && passes <= rounds && old(log) <= log
        decreases rounds - passes
      {
        var handled := HandlePass((key: Key, i: nat) => objects(passes, key, i), (key: Key, c: ClientId) => turns(passes, key, c));
        passes := passes + 1;
      }
    }
  }

  // ---- Ready keys ----------------------------------------------------------------------------------

  datatype Note = Woke(key: Key) | Handled(key: Key)

  /** A key that a command touches. */
  datatype Signal = Signal(key: Key, objectType: ObjectType, deleted: bool)

  /** What a client does when it gets its turn: the keys it touches, and whether it blocks again. */
  datatype Turn = Turn(signals: seq<Signal>, again: Option<Again>)

  /** What becomes of a client that gets its turn. */
  predicate AfterTurn(before: Client, after: Client, turn: Turn) {
    if before.kind == OnModule then after == before
    else
      && after.db == before.db && after.isModule == before.isModule
      && if turn.again.Some? && turn.again.value.kind in {OnList, OnZset, OnStream, OnModule} then
           && after.kind == turn.again.value.kind && after.nokey == turn.again.value.nokey
           && (forall k | k in after.keys :: k in turn.again.value.keys) && (forall k | k in turn.again.value.keys :: k in after.keys)
         else after.kind == NotBlocked && !after.nokey && after.keys == map[]
  }

  /** Every client that was served had its turn, and nobody else changed. */
  ghost predicate TurnsTaken(before: map<ClientId, Client>, after: map<ClientId, Client>, served: seq<ClientId>, turns: ClientId -> Turn) {
    && (forall d :: d in after <==> d in before)
    && forall d | d in before :: if d in served then AfterTurn(before[d], after[d], turns(d)) else after[d] == before[d]
  }

  ghost predicate TurnTaken(before: map<ClientId, Client>, after: map<ClientId, Client>, c: ClientId, took: bool, turn: Turn) {
    && (forall d :: d in after <==> d in before)
    && forall d | d in before :: if d == c && took then AfterTurn(before[d], after[d], turn) else after[d] == before[d]
  }

  lemma NoTurns(clients: map<ClientId, Client>, turns: ClientId -> Turn)
    ensures TurnsTaken(clients, clients, [], turns)
  {
  }

  lemma TurnNext(first: map<ClientId, Client>, before: map<ClientId, Client>, after: map<ClientId, Client>,
                 served: seq<ClientId>, c: ClientId, took: bool, turns: ClientId -> Turn)
    requires TurnsTaken(first, before, served, turns) && c in first && c !in served
    requires TurnTaken(before, after, c, took, turns(c))
    ensures TurnsTaken(first, after, if took then served + [c] else served, turns)
  {
    hide AfterTurn;
  }

  lemma NobodyServed(clients: map<ClientId, Client>, list: seq<Node>, objects: nat -> Option<ObjectType>)
    ensures Chosen(clients, list, objects, 0) == [] && Staying(clients, list, objects, 0) == []
  {
  }

  lemma ServedNext(clients: map<ClientId, Client>, list: seq<Node>, objects: nat -> Option<ObjectType>, i: nat)
    requires i < |list| && list[i].client in clients
    ensures var c := list[i].client;
            var takes := Eligible(clients[c], objects(i));
            && Chosen(clients, list, objects, i + 1) == Chosen(clients, list, objects, i) + (if takes then [c] else [])
            && Staying(clients, list, objects, i + 1)
               == Staying(clients, list, objects, i) + (if takes && clients[c].kind != OnModule then [] else [list[i]])
  {
    hide Eligible;
  }

  lemma Middle(kept: seq<Node>, list: seq<Node>, i: nat, behind: seq<Node>)
    requires i < |list|
    ensures kept + list[i..] + behind == kept + [list[i]] + (list[i + 1..] + behind)
  {
  }

  lemma Regroup(a: seq<Node>, b: seq<Node>, c: seq<Node>, d: seq<Node>)
    ensures a + (b + c) + d == a + b + (c + d)
  {
  }

  /** The next waiter has not changed since the pass over the list began. */
  lemma NotYet(first: map<ClientId, Client>, clients: map<ClientId, Client>, list: seq<Node>,
               objects: nat -> Option<ObjectType>, i: nat, served: seq<ClientId>, turns: ClientId -> Turn)
    requires i < |list| && served == Chosen(first, list, objects, i) && TurnsTaken(first, clients, served, turns)
    requires (forall j: nat, k: nat | j < k < |list| :: list[j].client != list[k].client) && list[i].client in first
    ensures list[i].client !in served && list[i].client in clients && clients[list[i].client] == first[list[i].client]
  {
    hide AfterTurn, Eligible;
    ChosenBefore(first, list, objects, i);
  }

  function ListOf(waiting: map<Key, seq<Node>>, key: Key): seq<Node> {
    if key in waiting then waiting[key] else []
  }

  /** The first `n` waiters without those that get a turn and leave: all in their old order. */
  function Staying(clients: map<ClientId, Client>, list: seq<Node>, objects: nat -> Option<ObjectType>, n: nat): seq<Node>
    requires n <= |list|
  {
    if n == 0 then []
    else
      var node := list[n - 1];
      Staying(clients, list, objects, n - 1)
      + if node.client in clients && Eligible(clients[node.client], objects(n - 1)) && clients[node.client].kind != OnModule
        then [] else [node]
  }

  /** Who may get a turn: by the type of the object, any object for a module, or anything at all. */
  lemma EligibleMeans(client: Client, found: Option<ObjectType>)
    requires client.kind != NotBlocked
    ensures Eligible(client, found) <==>
              || client.nokey
              || (found == Some(ListObject) && client.kind == OnList)
              || (found == Some(ZsetObject) && client.kind == OnZset)
              || (found == Some(StreamObject) && client.kind == OnStream)
              || (found.Some? && client.kind == OnModule)
  {
  }

  /** The waiters served so far are among the first ones. */
  lemma {:induction false} ChosenBefore(clients: map<ClientId, Client>, list: seq<Node>, objects: nat -> Option<ObjectType>, n: nat)
    requires n <= |list|
    ensures forall c | c in Chosen(clients, list, objects, n) :: exists i: nat | i < n :: list[i].client == c
  {
    if n > 0 { ChosenBefore(clients, list, objects, n - 1); }
  }

  /** The node added for a client that blocks again on this key. */
  function AddedAt(key: Key, c: ClientId, client: Client): seq<Node> {
    if key.0 == client.db && key.1 in client.keys then [Node(client.keys[key.1], c)] else []
  }

  /** A waiter's node is the one it stores, and it is nowhere else in the list. */
  lemma Stands(clients: map<ClientId, Client>, waiting: map<Key, seq<Node>>, key: Key, node: Node, front: seq<Node>, rest: seq<Node>)
    requires Linked(clients, waiting) && ListOf(waiting, key) == front + [node] + rest
    ensures key in waiting && WaitsAt(clients, key, node)
    ensures Unlink(front + [node] + rest, node.id) == front + rest
  {
    var list := waiting[key];
    assert list[|front|] == node;
    assert InList(waiting, key, node);
    forall i: nat | i < |front| ensures front[i].id != node.id { assert front[i] == list[i]; }
    forall i: nat | i < |rest| ensures rest[i].id != node.id { assert rest[i] == list[|front| + 1 + i]; }
    UnlinkConcat(front + [node], rest, node.id);
    UnlinkConcat(front, [node], node.id);
    UnlinkNone(front, node.id);
    UnlinkNone(rest, node.id);
    assert Unlink([node], node.id) == [] by { assert [node][1..] == []; }
    assert front + [] == front;
  }

  lemma UnlinkFirst(first: Node, more: seq<Node>, id: NodeId)
    ensures Unlink([first] + more, id) == (if first.id == id then [] else [first]) + Unlink(more, id)
  {
    assert ([first] + more)[1..] == more;
  }

  lemma {:induction false} UnlinkConcat(a: seq<Node>, b: seq<Node>, id: NodeId)
    ensures Unlink(a + b, id) == Unlink(a, id) + Unlink(b, id)
  {
    if |a| == 0 {
      assert a + b == b && Unlink(a, id) == [];
    } else {
      hide Unlink;
      UnlinkConcat(a[1..], b, id);
      UnlinkFirst(a[0], a[1..], id);
      UnlinkFirst(a[0], a[1..] + b, id);
      assert a == [a[0]] + a[1..] && a + b == [a[0]] + (a[1..] + b);
    }
  }

  lemma {:induction false} UnlinkNone(l: seq<Node>, id: NodeId)
    requires forall i: nat | i < |l| :: l[i].id != id
    ensures Unlink(l, id) == l
  {
    if |l| > 0 {
      UnlinkNone(l[1..], id);
      assert [l[0]] + l[1..] == l;
    }
  }

  /** The key's list after a turn: the client's node is gone, and a new one may stand at the end. */
  lemma TurnAt(before: map<Key, seq<Node>>, between: map<Key, seq<Node>>, after: map<Key, seq<Node>>, key: Key,
               client: Client, next: Client, node: Node, front: seq<Node>, rest: seq<Node>)
    requires ListOf(before, key) == front + [node] + rest && Unlink(front + [node] + rest, node.id) == front + rest
    requires key in before && key.0 == client.db && key.1 in client.keys && client.keys[key.1] == node.id
    requires Left(before, between, client, map[]) && Queued(between, after, node.client, next)
    ensures ListOf(after, key) == front + rest + AddedAt(key, node.client, next)
  {
    hide Unlink;
    assert GoneAt(before, between, key, client.keys[key.1]);
    assert ListOf(between, key) == front + rest;
  }

  /** The dictionary holds exactly what the two lists hold, and nothing is queued twice. */
  ghost predicate QueuedOnce(readyKeys: set<Key>, handling: seq<Key>, readyList: seq<Key>) {
    && (forall key :: key in readyKeys <==> key in handling || key in readyList)
    && Different(handling + readyList)
  }

  ghost predicate Different(l: seq<Key>) {
    forall i: nat, j: nat | i < j < |l| :: l[i] != l[j]
  }

  predicate HandledAfter(log: seq<Note>, i: nat, key: Key) {
    exists j: nat | i < j < |log| :: log[j] == Handled(key)
  }

  /** A signalled key is still queued or was handled after the signal. */
  ghost predicate NoneLost(log: seq<Note>, pending: seq<Key>) {
    forall i: nat | i < |log| && log[i].Woke? :: log[i].key in pending || HandledAfter(log, i, log[i].key)
  }

  lemma MorePending(log: seq<Note>, before: seq<Key>, after: seq<Key>)
    requires NoneLost(log, before) && forall key | key in before :: key in after
    ensures NoneLost(log, after)
  {
  }

  lemma WokeKeeps(log: seq<Note>, pending: seq<Key>, key: Key)
    requires NoneLost(log, pending) && key in pending
    ensures NoneLost(log + [Woke(key)], pending)
  {
    LaterNotes(log, Woke(key));
  }

  lemma HandledKeeps(log: seq<Note>, before: seq<Key>, after: seq<Key>, key: Key)
    requires NoneLost(log, before) && forall k | k in before :: k == key || k in after
    ensures NoneLost(log + [Handled(key)], after)
  {
    LaterNotes(log, Handled(key));
    var more := log + [Handled(key)];
    forall i: nat | i < |log| ensures HandledAfter(more, i, key) {
      assert more[|log|] == Handled(key);
    }
  }

  /** A longer log handles no less. */
  lemma LaterNotes(log: seq<Note>, note: Note)
    ensures forall i: nat, key | i < |log| && HandledAfter(log, i, key) :: HandledAfter(log + [note], i, key)
  {
    forall i: nat, key | i < |log| && HandledAfter(log, i, key) ensures HandledAfter(log + [note], i, key) {
      var j: nat :| i < j < |log| && log[j] == Handled(key);
      assert (log + [note])[j] == Handled(key);
    }
  }

  lemma QueueMore(readyKeys: set<Key>, handling: seq<Key>, readyList: seq<Key>, key: Key)
    requires QueuedOnce(readyKeys, handling, readyList) && key !in readyKeys
    ensures QueuedOnce(readyKeys + {key}, handling, readyList + [key])
  {
    var all, more := handling + readyList, handling + (readyList + [key]);
    assert more == all + [key];
    assert key !in all;
  }

  lemma TakeOver(readyKeys: set<Key>, readyList: seq<Key>)
    requires QueuedOnce(readyKeys, [], readyList)
    ensures QueuedOnce(readyKeys, readyList, [])
  {
    assert [] + readyList == readyList + [];
  }

  lemma Dequeue(readyKeys: set<Key>, handling: seq<Key>, readyList: seq<Key>)
    requires QueuedOnce(readyKeys, handling, readyList) && |handling| > 0
    ensures QueuedOnce(readyKeys - {handling[0]}, handling[1..], readyList)
    ensures forall k | k in handling + readyList :: k == handling[0] || k in handling[1..] + readyList
  {
    var all := handling + readyList;
    assert handling == [handling[0]] + handling[1..];
    assert all == [handling[0]] + (handling[1..] + readyList);
    var rest := handling[1..] + readyList;
    forall i: nat | i < |rest| ensures rest[i] != handling[0] {
      assert rest[i] == all[i + 1] && all[0] != all[i + 1];
    }
    assert handling[0] !in rest;
    assert forall k :: k in rest <==> k in handling[1..] || k in readyList;
    assert forall k :: k in handling <==> k == handling[0] || k in handling[1..];
    forall i: nat, j: nat | i < j < |rest| ensures rest[i] != rest[j] {
      assert rest[i] == all[i + 1] && rest[j] == all[j + 1];
    }
  }

  /** The re-executed command of a served client blocks again. */
  datatype Again = Again(kind: Kind, keys: seq<string>, nokey: bool)

  function KindOf(t: ObjectType): Kind {
    match t
    case ListObject => OnList
    case ZsetObject => OnZset
    case StreamObject => OnStream
    case ModuleObject => OnModule
    case OtherObject => NotBlocked
  }

  /** Clients that wait on the key for such an object (modules wait for any), or want to hear of its deletion. */
  ghost function Interested(clients: map<ClientId, Client>, key: Key, kind: Kind, deleted: bool): set<ClientId> {
    set c | c in clients && clients[c].db == key.0 && key.1 in clients[c].keys && kind != NotBlocked
            && (clients[c].kind == kind || clients[c].kind == OnModule) && (deleted ==> clients[c].nokey)
  }

  /** The quick checks pass whenever somebody is interested: no wake-up is lost. */
  lemma SomebodyInterested(clients: map<ClientId, Client>, waiting: map<Key, seq<Node>>, nokey: map<Key, nat>,
                           byKind: map<Kind, nat>, key: Key, kind: Kind, deleted: bool)
    requires Linked(clients, waiting) && Counted(clients, nokey) && Tallied(clients, byKind)
    ensures Interested(clients, key, kind, deleted) != {} ==>
              && kind != NotBlocked
              && ((kind in byKind && byKind[kind] > 0) || (OnModule in byKind && byKind[OnModule] > 0))
              && (if deleted then key in nokey else key in waiting)
  {
    if c :| c in Interested(clients, key, kind, deleted) {
      assert WaitsAt(clients, key, Node(clients[c].keys[key.1], c));
      assert InList(waiting, key, Node(clients[c].keys[key.1], c));
      assert TalliedAt(clients, byKind, clients[c].kind) && c in OfKind(clients, clients[c].kind);
      assert CountedAt(clients, nokey, key);
      assert deleted ==> c in Wanting(clients, key);
    }
  }

  predicate Eligible(client: Client, found: Option<ObjectType>) {
    (found.Some? && (client.kind == KindOf(found.value) || client.kind == OnModule)) || client.nokey
  }

  /** The first `n` waiters that get their turn. */
  function Chosen(clients: map<ClientId, Client>, list: seq<Node>, objects: nat -> Option<ObjectType>, n: nat): seq<ClientId>
    requires n <= |list|
  {
    if n == 0 then []
    else Chosen(clients, list, objects, n - 1)
         + if list[n - 1].client in clients && Eligible(clients[list[n - 1].client], objects(n - 1))
           then [list[n - 1].client] else []
  }

  lemma WaitersDiffer(clients: map<ClientId, Client>, waiting: map<Key, seq<Node>>, key: Key)
    requires Linked(clients, waiting) && key in waiting
    ensures forall i: nat, j: nat | i < j < |waiting[key]| :: waiting[key][i].client != waiting[key][j].client
    ensures forall i: nat | i < |waiting[key]| ::
              waiting[key][i].client in clients && key.0 == clients[waiting[key][i].client].db
              && key.1 in clients[waiting[key][i].client].keys
  {
    forall i: nat | i < |waiting[key]| ensures WaitsAt(clients, key, waiting[key][i]) {
      assert InList(waiting, key, waiting[key][i]);
    }
  }

  lemma KeysMeanBlocked(clients: map<ClientId, Client>, c: ClientId, k: string)
    requires Tidy(clients) && c in clients && k in clients[c].keys
    ensures clients[c].kind != NotBlocked
  {
    assert TidyClient(clients[c]);
  }

  lemma NoKeys(clients: map<ClientId, Client>, c: ClientId)
    requires Tidy(clients) && c in clients && !WaitsForData(clients[c].kind)
    ensures clients[c].keys == map[]
  {
  }

  lemma FewerKeys(clients: map<ClientId, Client>, next: NodeId, c: ClientId, k: string)
    requires c in clients && FreshIds(clients, next) && Tidy(clients) && k in clients[c].keys
    ensures FreshIds(SetKeys(clients, c, clients[c].keys - {k}), next) && Tidy(SetKeys(clients, c, clients[c].keys - {k}))
  {
    assert TidyClient(clients[c]);
  }

  /** Leaving one list and then the rest is leaving them all. */
  lemma LeaveBoth(before: map<Key, seq<Node>>, mid: map<Key, seq<Node>>, after: map<Key, seq<Node>>, client: Client, k: string)
    requires k in client.keys && GoneAt(before, mid, (client.db, k), client.keys[k])
    requires forall key: Key | key != (client.db, k) :: SameAt(before, mid, key)
    requires Left(mid, after, client.(keys := client.keys - {k}), map[])
    ensures Left(before, after, client, map[])
  {
    var rest := client.(keys := client.keys - {k});
    forall key: Key
      ensures if key.0 == client.db && key.1 in client.keys then GoneAt(before, after, key, client.keys[key.1]) else SameAt(before, after, key)
    {
      assert if key.0 == rest.db && key.1 in rest.keys then GoneAt(mid, after, key, rest.keys[key.1]) else SameAt(mid, after, key);
      assert key == (client.db, k) || SameAt(before, mid, key);
    }
  }

  predicate SameAt(before: map<Key, seq<Node>>, after: map<Key, seq<Node>>, key: Key) {
    (key in after <==> key in before) && (key in after ==> after[key] == before[key])
  }

  /** The node is out of the key's list, and the list is gone if that was its last node. */
  predicate GoneAt(before: map<Key, seq<Node>>, after: map<Key, seq<Node>>, key: Key, id: NodeId) {
    key in before &&
    var l := Unlink(before[key], id);
    (key in after <==> l != []) && (key in after ==> after[key] == l)
  }

  /** The client has left the lists of all its keys but those in `still`; other lists are as before. */
  ghost predicate Left(before: map<Key, seq<Node>>, after: map<Key, seq<Node>>, client: Client, still: map<string, NodeId>) {
    forall key: Key ::
      if key.0 == client.db && key.1 in client.keys && key.1 !in still
      then GoneAt(before, after, key, client.keys[key.1])
      else SameAt(before, after, key)
  }

  lemma NobodyLeft(waiting: map<Key, seq<Node>>, client: Client)
    ensures Left(waiting, waiting, client, client.keys)
  {
  }

  lemma LeaveNext(before: map<Key, seq<Node>>, mid: map<Key, seq<Node>>, after: map<Key, seq<Node>>,
                  client: Client, still: map<string, NodeId>, k: string)
    requires Left(before, mid, client, still) && k in still && k in client.keys
    requires GoneAt(mid, after, (client.db, k), client.keys[k])
    requires forall key: Key | key != (client.db, k) :: SameAt(mid, after, key)
    ensures Left(before, after, client, still - {k})
  {
    forall key: Key
      ensures if key.0 == client.db && key.1 in client.keys && key.1 !in still - {k}
              then GoneAt(before, after, key, client.keys[key.1]) else SameAt(before, after, key)
    {
      assert if key.0 == client.db && key.1 in client.keys && key.1 !in still
             then GoneAt(before, mid, key, client.keys[key.1]) else SameAt(before, mid, key);
      assert key == (client.db, k) || SameAt(mid, after, key);
    }
  }

  lemma FewerIds(clients: map<ClientId, Client>, next: NodeId, c: ClientId)
    requires c in clients && FreshIds(clients, next)
    ensures FreshIds(SetKeys(clients, c, map[]), next)
  {
  }

  lemma TidyIs(clients: map<ClientId, Client>, c: ClientId)
    requires Tidy(clients) && c in clients && clients[c].kind == NotBlocked
    ensures clients[c].keys == map[] && !clients[c].nokey
  {
  }

  lemma TidyKept(clients: map<ClientId, Client>, c: ClientId, client: Client)
    requires Tidy(clients) && TidyClient(client)
    ensures Tidy(clients[c := client])
  {
  }

  /** The client stands behind the others in its keys' lists, and other lists are as before. */
  ghost predicate Queued(before: map<Key, seq<Node>>, after: map<Key, seq<Node>>, c: ClientId, client: Client) {
    forall key: Key ::
      if key.0 == client.db && key.1 in client.keys then
        key in after && after[key] == (if key in before then before[key] else []) + [Node(client.keys[key.1], c)]
      else
        (key in after <==> key in before) && (key in after ==> after[key] == before[key])
  }

  lemma NothingQueued(waiting: map<Key, seq<Node>>, c: ClientId, client: Client)
    requires client.keys == map[]
    ensures Queued(waiting, waiting, c, client)
  {
  }

  lemma QueueNext(before: map<Key, seq<Node>>, after: map<Key, seq<Node>>, c: ClientId, client: Client, k: string, id: NodeId)
    requires Queued(before, after, c, client) && k !in client.keys
    ensures var key := (client.db, k);
            Queued(before, after[key := (if key in after then after[key] else []) + [Node(id, c)]], c,
                   client.(keys := client.keys[k := id]))
  {
  }

  lemma QueuedKeys(before: map<Key, seq<Node>>, after: map<Key, seq<Node>>, c: ClientId, client: Client, other: Client)
    requires Queued(before, after, c, client) && other.db == client.db && other.keys == client.keys
    ensures Queued(before, after, c, other)
  {
  }

  /** The links do not depend on a client's wish about deletions, */
  lemma FlagIrrelevant(clients: map<ClientId, Client>, waiting: map<Key, seq<Node>>, next: NodeId, c: ClientId, b: bool)
    requires c in clients && Linked(clients, waiting) && FreshIds(clients, next)
    ensures Linked(SetNokey(clients, c, b), waiting) && FreshIds(SetNokey(clients, c, b), next)
  {
    var after := SetNokey(clients, c, b);
    forall key: Key, n: Node ensures InList(waiting, key, n) <==> WaitsAt(after, key, n) {
      assert InList(waiting, key, n) <==> WaitsAt(clients, key, n);
    }
  }

  /** nor does the index depend on the kind of blocking, */
  lemma KindIrrelevant(clients: map<ClientId, Client>, waiting: map<Key, seq<Node>>, nokey: map<Key, nat>,
                       next: NodeId, c: ClientId, kind: Kind)
    requires c in clients && Linked(clients, waiting) && Counted(clients, nokey) && FreshIds(clients, next)
    ensures var after := clients[c := clients[c].(kind := kind)];
            Linked(after, waiting) && Counted(after, nokey) && FreshIds(after, next)
  {
    var after := clients[c := clients[c].(kind := kind)];
    forall key: Key, n: Node ensures InList(waiting, key, n) <==> WaitsAt(after, key, n) {
      assert InList(waiting, key, n) <==> WaitsAt(clients, key, n);
    }
    forall key: Key ensures CountedAt(after, nokey, key) {
      assert CountedAt(clients, nokey, key);
      assert Wanting(after, key) == Wanting(clients, key);
    }
  }

  /** nor do the tallies depend on keys and wishes. */
  lemma SameTallies(before: map<ClientId, Client>, after: map<ClientId, Client>, byKind: map<Kind, nat>, c: ClientId)
    requires c in before && c in after && after == before[c := after[c]]
    requires before[c].kind == after[c].kind && before[c].isModule == after[c].isModule
    ensures (Tallied(before, byKind) <==> Tallied(after, byKind)) && Regular(after) == Regular(before)
  {
    forall k: Kind ensures TalliedAt(before, byKind, k) <==> TalliedAt(after, byKind, k) {
      assert OfKind(after, k) == OfKind(before, k);
    }
  }

  lemma KindChanged(clients: map<ClientId, Client>, c: ClientId, kind: Kind, k: Kind)
    requires c in clients
    ensures OfKind(clients[c := clients[c].(kind := kind)], k) == OfKind(clients, k) - {c} + (if k == kind then {c} else {})
    ensures c in OfKind(clients, k) <==> k == clients[c].kind
  {
  }

  lemma RegularChanged(clients: map<ClientId, Client>, c: ClientId, kind: Kind)
    requires c in clients
    ensures Regular(clients[c := clients[c].(kind := kind)])
         == Regular(clients) - {c} + (if kind != NotBlocked && !clients[c].isModule then {c} else {})
    ensures c in Regular(clients) <==> clients[c].kind != NotBlocked && !clients[c].isModule
  {
  }

  /** A client that gets blocked is one more of its kind. */
  lemma OneMore(clients: map<ClientId, Client>, byKind: map<Kind, nat>, c: ClientId, kind: Kind)
    requires c in clients && clients[c].kind == NotBlocked && kind != NotBlocked && Tallied(clients, byKind)
    ensures kind in byKind
    ensures var after := clients[c := clients[c].(kind := kind)];
            && Tallied(after, byKind[kind := byKind[kind] + 1])
            && |Regular(after)| == |Regular(clients)| + if clients[c].isModule then 0 else 1
  {
    hide OfKind, Regular;
    assert TalliedAt(clients, byKind, kind);
    var after, next := clients[c := clients[c].(kind := kind)], byKind[kind := byKind[kind] + 1];
    forall k: Kind | k != NotBlocked ensures TalliedAt(after, next, k) {
      assert TalliedAt(clients, byKind, k);
      KindChanged(clients, c, kind, k);
      MoreOne(OfKind(clients, k), c);
    }
    RegularChanged(clients, c, kind);
    MoreOne(Regular(clients), c);
  }

  lemma OneLessAt(clients: map<ClientId, Client>, byKind: map<Kind, nat>, c: ClientId, k: Kind)
    requires c in clients && clients[c].kind != NotBlocked && k != NotBlocked
    requires TalliedAt(clients, byKind, k) && TalliedAt(clients, byKind, clients[c].kind) && byKind[clients[c].kind] > 0
    ensures var kind := clients[c].kind;
            TalliedAt(clients[c := clients[c].(kind := NotBlocked)], byKind[kind := byKind[kind] - 1], k)
  {
    hide OfKind;
    KindChanged(clients, c, NotBlocked, k);
    var s := OfKind(clients, k);
    assert s - {c} + {} == s - {c};
    if k == clients[c].kind { LessOne(s, c); } else { assert s - {c} == s; }
  }

  lemma RegularLess(clients: map<ClientId, Client>, c: ClientId)
    requires c in clients && clients[c].kind != NotBlocked
    ensures |Regular(clients)| == |Regular(clients[c := clients[c].(kind := NotBlocked)])| + if clients[c].isModule then 0 else 1
  {
    hide Regular;
    RegularChanged(clients, c, NotBlocked);
    var s := Regular(clients);
    assert s - {c} + {} == s - {c};
    if clients[c].isModule { assert s - {c} == s; } else { LessOne(s, c); }
  }

  /** And one that gets unblocked is one less. */
  lemma OneLess(clients: map<ClientId, Client>, byKind: map<Kind, nat>, c: ClientId)
    requires c in clients && clients[c].kind != NotBlocked && Tallied(clients, byKind)
    ensures var after, kind := clients[c := clients[c].(kind := NotBlocked)], clients[c].kind;
            && kind in byKind && byKind[kind] > 0 && Tallied(after, byKind[kind := byKind[kind] - 1])
            && |Regular(clients)| == |Regular(after)| + if clients[c].isModule then 0 else 1
  {
    var kind := clients[c].kind;
    assert TalliedAt(clients, byKind, kind);
    KindChanged(clients, c, NotBlocked, kind);
    assert byKind[kind] > 0 by { LessOne(OfKind(clients, kind), c); }
    hide TalliedAt, Regular;
    var after, next := clients[c := clients[c].(kind := NotBlocked)], byKind[kind := byKind[kind] - 1];
    forall k: Kind | k != NotBlocked ensures TalliedAt(after, next, k) {
      OneLessAt(clients, byKind, c, k);
    }
    RegularLess(clients, c);
  }

  /** A client without keys has no say in any count. */
  lemma NokeyIrrelevant(clients: map<ClientId, Client>, nokey: map<Key, nat>, c: ClientId, b: bool)
    requires Counted(clients, nokey) && c in clients && clients[c].keys == map[]
    ensures Counted(SetNokey(clients, c, b), nokey)
  {
    forall key: Key ensures CountedAt(SetNokey(clients, c, b), nokey, key) {
      assert CountedAt(clients, nokey, key);
      assert Wanting(SetNokey(clients, c, b), key) == Wanting(clients, key);
    }
  }
}

/**
 * Which database a replayed command runs in (src/aof.c:946, 1321-1357, 2475-2482):
 * the feed writes SELECT only when the database changes, and a rewrite makes it
 * forget the current one because a new INCR file starts.
 */
module AofSelect {
  import opened AofBuffer
  import opened AofLoader
  import opened AofTransactions

  /** What is fed: a SELECT, or a command meant for a database (-1 if it has none). */
  datatype Entry = Select(chosen: nat) | Fed(db: int, cmd: Command)

  /** The database in use after entries. */
  function DbAfter(l: seq<Entry>, db: nat): nat {
    if |l| == 0 then db
    else if l[|l| - 1].Select? then l[|l| - 1].chosen
    else DbAfter(l[..|l| - 1], db)
  }

  /** Replayed from database `db`, every command runs in the database it was fed for. */
  ghost predicate Faithful(l: seq<Entry>, db: nat) {
    forall i: nat | i < |l| && l[i].Fed? && l[i].db >= 0 :: l[i].db == DbAfter(l[..i], db)
  }

  lemma {:induction false} DbAfterConcat(a: seq<Entry>, b: seq<Entry>, db: nat)
    ensures DbAfter(a + b, db) == DbAfter(b, DbAfter(a, db))
    decreases |b|
  {
    if |b| == 0 {
      assert a + b == a;
    } else {
      DbAfterConcat(a, b[..|b| - 1], db);
      assert (a + b)[..|a + b| - 1] == a + b[..|b| - 1];
    }
  }

  lemma FaithfulConcat(a: seq<Entry>, b: seq<Entry>, db: nat)
    ensures Faithful(a + b, db) <==> Faithful(a, db) && Faithful(b, DbAfter(a, db))
  {
    var c := a + b;
    forall i: nat | i < |a| ensures c[i] == a[i] && c[..i] == a[..i] {
    }
    forall i: nat | i < |b| ensures c[|a| + i] == b[i] && DbAfter(c[..|a| + i], db) == DbAfter(b[..i], DbAfter(a, db)) {
      DbAfterConcat(a, b[..i], db);
      assert c[..|a| + i] == a + b[..i];
    }
    if Faithful(a, db) && Faithful(b, DbAfter(a, db)) {
      forall i: nat | i < |c| && c[i].Fed? && c[i].db >= 0 ensures c[i].db == DbAfter(c[..i], db) {
        if i >= |a| { assert c[i] == b[i - |a|]; }
      }
    }
    if Faithful(c, db) {
      forall i: nat | i < |b| && b[i].Fed? && b[i].db >= 0 ensures b[i].db == DbAfter(b[..i], DbAfter(a, db)) {
        assert c[|a| + i] == b[i];
      }
    }
  }

  /** Commands meant for a database that stand before any SELECT. */
  ghost predicate UsesOuterDb(l: seq<Entry>) {
    exists i: nat | i < |l| :: l[i].Fed? && l[i].db >= 0 && forall j: nat | j < i :: !l[j].Select?
  }

  lemma {:induction false} NoSelectKeepsDb(l: seq<Entry>, db: nat)
    requires forall i: nat | i < |l| :: !l[i].Select?
    ensures DbAfter(l, db) == db
  {
    if |l| > 0 { NoSelectKeepsDb(l[..|l| - 1], db); }
  }

  lemma {:induction false} SelectHidesDb(l: seq<Entry>, db: nat, other: nat)
    requires exists i: nat | i < |l| :: l[i].Select?
    ensures DbAfter(l, db) == DbAfter(l, other)
  {
    if !l[|l| - 1].Select? {
      var i: nat :| i < |l| && l[i].Select?;
      assert l[..|l| - 1][i].Select?;
      SelectHidesDb(l[..|l| - 1], db, other);
    }
  }

  /** Entries faithful in one database are so in another exactly when no command relies on it. */
  lemma FaithfulElsewhere(l: seq<Entry>, db: nat, other: nat)
    requires Faithful(l, db)
    ensures Faithful(l, other) <==> db == other || !UsesOuterDb(l)
  {
    if UsesOuterDb(l) {
      var i: nat :| i < |l| && l[i].Fed? && l[i].db >= 0 && forall j: nat | j < i :: !l[j].Select?;
      NoSelectKeepsDb(l[..i], db);
      NoSelectKeepsDb(l[..i], other);
    } else {
      forall i: nat | i < |l| && l[i].Fed? && l[i].db >= 0 ensures l[i].db == DbAfter(l[..i], other) {
        var j: nat :| j < i && l[j].Select?;
        assert l[..i][j].Select?;
        SelectHidesDb(l[..i], db, other);
      }
    }
  }

  // ---- The feed ------------------------------------------------------------------------------------

  class Feed {
    var selectedDb: int
    /** The INCR file being written, the buffer, and the INCR files before. */
    var file: seq<Entry>
    var buf: seq<Entry>
    ghost var older: seq<seq<Entry>>

    ghost predicate Valid()
      reads this
    {
      && Faithful(file + buf, 0)
      && (selectedDb == -1 || (selectedDb >= 0 && DbAfter(file + buf, 0) == selectedDb))
      && (forall i: nat | i < |older| :: Faithful(older[i], 0))
    }

    constructor ()
      ensures Valid() && file == [] && buf == [] && selectedDb == -1
    {
      selectedDb, file, buf, older := -1, [], [], [];
    }

    method Append(dictid: int, cmd: Command)
      requires Valid() && dictid >= -1
      modifies this
      ensures Valid() && file == old(file) && older == old(older)
      ensures selectedDb == if dictid == -1 then old(selectedDb) else dictid
      ensures buf == old(buf) + (if dictid != -1 && dictid != old(selectedDb) then [Select(dictid)] else []) + [Fed(dictid, cmd)]
    {
      hide Faithful, DbAfter;
      ghost var before := file + buf;
      var added: seq<Entry> := [];
      if dictid != -1 && dictid != selectedDb {
        added := [Select(dictid)];
        selectedDb := dictid;
      }
      added := added + [Fed(dictid, cmd)];
      buf := buf + added;
      assert file + buf == before + added;
      assert buf == old(buf) + added;
      FaithfulConcat(before, added, 0);
      DbAfterConcat(before, added, 0);
      AddedIsFaithful(added, dictid, cmd, DbAfter(before, 0));
    }

    /** The buffer reaches the file, all of it or its first part. */
    method Flush(n: nat)
      requires Valid() && n <= |buf|
      modifies this
      ensures Valid() && file == old(file) + old(buf)[..n] && buf == old(buf)[n..] && selectedDb == old(selectedDb)
      ensures older == old(older)
    {
      assert file + buf == file + buf[..n] + buf[n..];
      file := file + buf[..n];
      buf := buf[n..];
    }

    /**
     * A rewrite starts: the database is forgotten, the buffer flushed as far as `n`,
     * and a new INCR file opened if `openOk`. What is left in the buffer goes to it.
     */
    method BeginRewrite(n: nat, openOk: bool)
      requires Valid() && n <= |buf|
      modifies this
      ensures selectedDb == -1 && buf == old(buf)[n..]
      ensures openOk ==> file == [] && older == old(older) + [old(file) + old(buf)[..n]]
      ensures !openOk ==> Valid() && file == old(file) + old(buf)[..n] && older == old(older)
      ensures openOk ==> (Valid() <==> DbAfter(old(file) + old(buf)[..n], 0) == 0 || !UsesOuterDb(buf))
      ensures n == |old(buf)| ==> Valid()
    {
      hide Faithful, DbAfter, UsesOuterDb;
      selectedDb := -1;
      Flush(n);
      Moved(file, buf);
      NoUse();
      if openOk {
        older := older + [file];
        file := [];
        assert file + buf == buf;
      }
    }
  }

  /** A file and a rest that belong together: what each is by itself. */
  lemma Moved(file: seq<Entry>, rest: seq<Entry>)
    requires Faithful(file + rest, 0)
    ensures Faithful(file, 0) && (Faithful(rest, 0) <==> DbAfter(file, 0) == 0 || !UsesOuterDb(rest))
  {
    hide Faithful, UsesOuterDb;
    FaithfulConcat(file, rest, 0);
    FaithfulElsewhere(rest, DbAfter(file, 0), 0);
  }

  lemma NoUse()
    ensures !UsesOuterDb([])
  {
  }

  /**
   * Where the database is lost: a command in database 1 is on disk behind its SELECT,
   * another one for that database is still in the buffer, and a rewrite starts that
   * does not get it out. The new file runs it in database 0.
   */
  method LeftoverLosesDatabase(first: Command, second: Command) returns (feed: Feed)
    ensures fresh(feed) && !feed.Valid()
    ensures feed.file == [] && feed.buf == [Fed(1, second)] && DbAfter([], 0) == 0
  {
    feed := new Feed();
    feed.Append(1, first);
    assert feed.buf == [Select(1), Fed(1, first)];
    feed.Flush(2);
    assert feed.file == [Select(1), Fed(1, first)] && feed.buf == [];
    feed.Append(1, second);
    assert feed.buf == [Fed(1, second)];
    ghost var file := feed.file;
    assert DbAfter(file, 0) == 1 by { assert file[..1] == [Select(1)]; }
    assert feed.file + feed.buf[..0] == file;
    feed.BeginRewrite(0, true);
    assert feed.buf == [Fed(1, second)];
    assert UsesOuterDb(feed.buf) by { assert feed.buf[0].Fed? && feed.buf[0].db >= 0; }
  }

  lemma AddedIsFaithful(added: seq<Entry>, dictid: int, cmd: Command, db: nat)
    requires dictid >= -1
    requires (added == [Fed(dictid, cmd)] && (dictid == -1 || dictid == db))
             || (dictid >= 0 && added == [Select(dictid), Fed(dictid, cmd)])
    ensures Faithful(added, db) && DbAfter(added, db) == if |added| == 2 then dictid else db
  {
    if |added| == 2 {
      assert added[..1] == [Select(dictid)] && added[..0] == [];
    } else {
      assert added[..0] == [];
    }
  }

  // ---- From bytes back to databases ----------------------------------------------------------------

  /** The name that the feed writes, and the one that commands are looked up by. */
  const SELECT: Argument := [83, 69, 76, 69, 67, 84]
  const SELECT_NAME: Argument := [115, 101, 108, 101, 99, 116]

  function AsCommand(e: Entry): Command {
    match e
    case Select(db) => [SELECT, Dec(db)]
    case Fed(_, cmd) => cmd
  }

  function AsCommands(l: seq<Entry>): (cmds: seq<Command>)
    ensures |cmds| == |l| && forall i: nat | i < |l| :: cmds[i] == AsCommand(l[i])
  {
    seq(|l|, i requires 0 <= i < |l| => AsCommand(l[i]))
  }

  predicate IsSelect(c: Command) {
    |c| == 2 && Lower(c[0]) == SELECT_NAME
  }

  /** The database of a client that ran the commands, starting in `db`. */
  function ReplayDb(cmds: seq<Command>, db: nat): nat {
    if |cmds| == 0 then db
    else if IsSelect(cmds[|cmds| - 1]) then Value(cmds[|cmds| - 1][1])
    else ReplayDb(cmds[..|cmds| - 1], db)
  }

  /** Fed commands are no SELECTs of their own, and everything has a size that fits. */
  ghost predicate Ordinary(l: seq<Entry>) {
    forall i: nat | i < |l| :: Fits(AsCommand(l[i])) && (l[i].Fed? ==> !IsSelect(l[i].cmd))
  }

  lemma {:induction false} ReplayDbIs(l: seq<Entry>, db: nat)
    requires Ordinary(l)
    ensures ReplayDb(AsCommands(l), db) == DbAfter(l, db)
  {
    hide Dec, Value;
    if |l| > 0 {
      var front, last := l[..|l| - 1], l[|l| - 1];
      ReplayDbIs(front, db);
      assert AsCommands(l)[..|l| - 1] == AsCommands(front);
      if last.Select? {
        DecIsDigits(last.chosen);
        assert Lower(SELECT) == SELECT_NAME;
      }
    }
  }

  // ---- Transactions ----------------------------------------------------------------------------------

  /** The entries without MULTI and EXEC. */
  function Bare(l: seq<Entry>): seq<Entry> {
    if |l| == 0 then []
    else Bare(l[..|l| - 1]) + if Plain(AsCommand(l[|l| - 1])) then [l[|l| - 1]] else []
  }

  /** MULTI and EXEC change no database. */
  lemma {:induction false} BareFaithful(l: seq<Entry>, db: nat)
    ensures DbAfter(Bare(l), db) == DbAfter(l, db)
    ensures Faithful(l, db) ==> Faithful(Bare(l), db)
  {
    hide Faithful, DbAfter, Plain, AsCommand;
    if |l| > 0 {
      var front, last := l[..|l| - 1], l[|l| - 1];
      var more := if Plain(AsCommand(last)) then [last] else [];
      BareFaithful(front, db);
      assert l == front + [last] && Bare(l) == Bare(front) + more;
      FaithfulConcat(front, [last], db);
      FaithfulConcat(Bare(front), more, db);
      DbAfterConcat(front, [last], db);
      DbAfterConcat(Bare(front), more, db);
      if more == [] { MarkerIsFed(last, DbAfter(front, db)); }
      NoEntries(DbAfter(front, db));
    }
  }

  lemma {:induction false} BareCommands(l: seq<Entry>)
    requires Ordinary(l)
    ensures Ordinary(Bare(l)) && AsCommands(Bare(l)) == PlainOf(AsCommands(l))
  {
    hide Plain, PlainOf, AsCommand, Fits, IsSelect;
    if |l| == 0 {
      NonePlain();
      assert AsCommands(l) == [];
    } else {
      var front, last := l[..|l| - 1], l[|l| - 1];
      var more := if Plain(AsCommand(last)) then [last] else [];
      BareCommands(front);
      assert AsCommands(l) == AsCommands(front) + [AsCommand(last)];
      PlainOfConcat(AsCommands(front), [AsCommand(last)]);
      OnePlain(AsCommand(last));
      assert AsCommands(Bare(l)) == AsCommands(Bare(front)) + AsCommands(more);
    }
  }

  lemma OnePlain(c: Command)
    ensures PlainOf([c]) == if Plain(c) then [c] else []
  {
    assert [c][1..] == [];
  }

  lemma MarkerIsFed(e: Entry, db: nat)
    requires !Plain(AsCommand(e))
    ensures DbAfter([e], db) == db
  {
    assert [e][..0] == [];
  }

  lemma NoEntries(db: nat)
    ensures DbAfter([], db) == db && Faithful([], db)
  {
  }

  /**
   * Loading an INCR file, or any part of it that a crash left, with a fresh client in
   * database 0: what runs is what was fed up to the end of the last complete command
   * or transaction, and every command runs in the database it was fed for.
   */
  lemma ReplayRunsInOwnDatabase(l: seq<Entry>, units: seq<Unit>, n: nat) returns (done: nat)
    requires Faithful(l, 0) && Ordinary(l) && Proper(units) && AsCommands(l) == LogOf(units) && n <= |Encode(AsCommands(l))|
    ensures done == |LogOf(units[..WholeUnits(units, Complete(LogOf(units), n))])| <= |l|
    ensures n == |Encode(AsCommands(l))| ==> done == |l|
    ensures var ran, kept := LoadFile(Encode(AsCommands(l))[..n]).ran, Bare(l[..done]);
            && ran == AsCommands(kept)
            && forall i: nat | i < |kept| && kept[i].Fed? && kept[i].db >= 0 :: ran[i] == kept[i].cmd && ReplayDb(ran[..i], 0) == kept[i].db
  {
    hide LoadFile, Encode, ReplayDb, DbAfter, WholeUnits, LogOf, PlainOf, Complete, Fits, IsSelect, Bare, Proper, Faithful;
    done := RunsPlainPrefix(units, n);
    var part := l[..done];
    assert AsCommands(part) == LogOf(units)[..done];
    BareFaithful(part, 0);
    BareCommands(part);
    assert l == part + l[done..];
    FaithfulConcat(part, l[done..], 0);
    EachInOwn(Bare(part));
  }

  lemma EachInOwn(l: seq<Entry>)
    requires Faithful(l, 0) && Ordinary(l)
    ensures var ran := AsCommands(l);
            forall i: nat | i < |l| && l[i].Fed? && l[i].db >= 0 :: ran[i] == l[i].cmd && ReplayDb(ran[..i], 0) == l[i].db
  {
    hide ReplayDb, DbAfter;
    forall i: nat | i < |l| && l[i].Fed? && l[i].db >= 0 ensures ReplayDb(AsCommands(l)[..i], 0) == l[i].db {
      assert AsCommands(l)[..i] == AsCommands(l[..i]);
      ReplayDbIs(l[..i], 0);
    }
  }
}

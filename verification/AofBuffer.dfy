/**
 * The write buffer of the append-only log (src/aof.c:1015-1032, 1122-1231) over a
 * file whose write(2) may be interrupted, fail or write short, and whose
 * ftruncate(2) may fail. The fsync policy is not `always`.
 */
module AofBuffer {
  newtype Byte = x: int | 0 <= x < 256

  /** What one write(2) returns. */
  datatype Result = Interrupted | Failed | Wrote(n: nat)

  function Zeros(n: nat): (z: seq<Byte>)
    ensures |z| == n
  {
    seq(n, _ => 0)
  }

  /** The contents of a file after a write at an offset; a gap is filled with zeros. */
  function WrittenAt(file: seq<Byte>, pos: nat, data: seq<Byte>): seq<Byte> {
    if |data| == 0 then file
    else
      (if pos <= |file| then file[..pos] else file + Zeros(pos - |file|)) + data
      + (if pos + |data| <= |file| then file[pos + |data|..] else [])
  }

  /** How many of `len` bytes get written before the results run into an error. */
  function Progress(results: seq<Result>, done: nat, len: nat): (n: nat)
    requires done <= len
    ensures done <= n <= len
  {
    if done == len || |results| == 0 || results[0].Failed? then done
    else if results[0].Interrupted? then Progress(results[1..], done, len)
    else Progress(results[1..], if results[0].n <= len - done then done + results[0].n else len, len)
  }

  /** The results up to the first error. */
  function BeforeError(results: seq<Result>): (good: seq<Result>)
    ensures |good| <= |results| && good == results[..|good|]
    ensures forall i: nat | i < |good| :: !good[i].Failed?
    ensures |good| < |results| ==> results[|good|].Failed?
  {
    if |results| == 0 || results[0].Failed? then [] else [results[0]] + BeforeError(results[1..])
  }

  /** The bytes that the results report; an interrupted write reports none. */
  function Reported(results: seq<Result>): nat {
    if |results| == 0 then 0 else (if results[0].Wrote? then results[0].n else 0) + Reported(results[1..])
  }

  /** Writing goes on through interruptions and short writes: everything reported before an error, up to the length. */
  lemma {:induction false} ProgressMeans(results: seq<Result>, done: nat, len: nat)
    requires done <= len
    ensures var all := done + Reported(BeforeError(results)); Progress(results, done, len) == if all <= len then all else len
    decreases |results|
  {
    if done < len && |results| > 0 && !results[0].Failed? {
      var good := BeforeError(results);
      assert good[1..] == BeforeError(results[1..]);
      var next := if results[0].Interrupted? then done else if results[0].n <= len - done then done + results[0].n else len;
      ProgressMeans(results[1..], next, len);
    }
  }

  /** A write at or past the end keeps what is there and adds a gap as long as the distance. */
  lemma WrittenPastEnd(file: seq<Byte>, pos: nat, data: seq<Byte>)
    requires pos >= |file| && |data| > 0
    ensures WrittenAt(file, pos, data) == file + Zeros(pos - |file|) + data
    ensures WrittenAt(file, pos, data)[..|file|] == file
    ensures WrittenAt(file, pos, data) == file + data <==> pos == |file|
  {
    assert file + Zeros(pos - |file|) + data + [] == file + Zeros(pos - |file|) + data;
    assert |WrittenAt(file, pos, data)| == pos + |data|;
    if pos == |file| { assert file + Zeros(0) == file; }
  }

  lemma Nothing(file: seq<Byte>, pos: nat)
    ensures WrittenAt(file, pos, []) == file
  {
  }

  /** Two writes in a row are one write. */
  lemma WrittenTwice(file: seq<Byte>, pos: nat, a: seq<Byte>, b: seq<Byte>)
    requires pos >= |file|
    ensures WrittenAt(WrittenAt(file, pos, a), pos + |a|, b) == WrittenAt(file, pos, a + b)
  {
    hide WrittenAt, Zeros;
    if |a| == 0 {
      assert a == [] && a + b == b;
      Nothing(file, pos);
    } else if |b| == 0 {
      assert b == [] && a + b == a;
      Nothing(WrittenAt(file, pos, a), pos + |a|);
    } else {
      var once, gap := WrittenAt(file, pos, a), Zeros(pos - |file|);
      WrittenPastEnd(file, pos, a);
      WrittenPastEnd(once, pos + |a|, b);
      WrittenPastEnd(file, pos, a + b);
      assert file + gap + a + b == file + gap + (a + b);
    }
  }

  /** A file opened for writing, with or without O_APPEND. */
  class LogFile {
    const append: bool
    var contents: seq<Byte>
    var pos: nat

    /** Where the next write goes. */
    function Offset(): nat
      reads this
    {
      if append then |contents| else pos
    }

    /** The next write continues the file. */
    ghost predicate AtEnd()
      reads this
    {
      Offset() == |contents|
    }

    constructor (append: bool)
      ensures this.append == append && contents == [] && pos == 0
    {
      this.append := append;
      contents, pos := [], 0;
    }

    method Write(data: seq<Byte>)
      modifies this
      ensures contents == WrittenAt(old(contents), old(Offset()), data)
      ensures pos == old(Offset()) + |data|
    {
      if append { pos := |contents|; }
      contents := WrittenAt(contents, pos, data);
      pos := pos + |data|;
    }

    method Truncate(len: nat)
      requires len <= |contents|
      modifies this
      ensures contents == old(contents)[..len] && pos == old(pos)
    {
      contents := contents[..len];
    }
  }

  class Aof {
    const file: LogFile
    var buf: seq<Byte>
    var lastIncrSize: nat
    /** Everything fed since the file was opened. */
    ghost var fed: seq<Byte>

    /** Nothing is lost or doubled, and the recorded size is the file's. */
    ghost predicate Complete()
      reads this, file
    {
      file.contents + buf == fed && lastIncrSize == |file.contents|
    }

    /** No write ever goes inside the file. */
    ghost predicate Outside()
      reads this, file
    {
      file.Offset() >= |file.contents|
    }

    constructor (append: bool)
      ensures Complete() && Outside() && file.AtEnd() && fresh(file) && fed == [] && buf == [] && file.append == append
    {
      file := new LogFile(append);
      buf, lastIncrSize, fed := [], 0, [];
    }

    method Feed(data: seq<Byte>)
      requires Complete()
      modifies this
      ensures Complete() && fed == old(fed) + data && buf == old(buf) + data
    {
      buf := buf + data;
      fed := fed + data;
      assert file.contents + (old(buf) + data) == file.contents + old(buf) + data;
    }

    /** Writes the buffer, retrying interrupted and short writes until an error; -1 if nothing was written. */
    method AofWrite(results: seq<Result>) returns (n: int)
      requires Outside()
      modifies file
      ensures Outside() && -1 <= n <= |buf|
      ensures n == if Progress(results, 0, |buf|) == 0 && |buf| > 0 then -1 else Progress(results, 0, |buf|)
      ensures file.contents == WrittenAt(old(file.contents), old(file.Offset()), buf[..if n < 0 then 0 else n])
      ensures if n > 0 then file.pos == old(file.Offset()) + n else file.pos == old(file.pos)
    {
      hide WrittenAt;
      var total := 0;
      var i := 0;
      assert buf[..0] == [];
      Nothing(file.contents, file.Offset());
      while total < |buf|
        invariant 0 <= total <= |buf| && i <= |results| && Outside()
        invariant file.contents == WrittenAt(old(file.contents), old(file.Offset()), buf[..total])
        invariant if total > 0 then file.pos == |file.contents| == old(file.Offset()) + total
                  else file.pos == old(file.pos) && file.contents == old(file.contents)
        invariant Progress(results, 0, |buf|) == Progress(results[i..], total, |buf|)
        decreases |results| - i
      {
        var r := if i < |results| then results[i] else Failed;
        if i == |results| || r.Failed? {
          return if total > 0 then total else -1;
        }
        assert results[i..][1..] == results[i + 1..];
        i := i + 1;
        if r.Wrote? && r.n > 0 {
          var k := if r.n <= |buf| - total then r.n else |buf| - total;
          var part := buf[total..total + k];
          assert file.Offset() == old(file.Offset()) + total;
          file.Write(part);
          assert buf[..total] + part == buf[..total + k];
          WrittenTwice(old(file.contents), old(file.Offset()), buf[..total], part);
          total := total + k;
          WrittenPastEnd(old(file.contents), old(file.Offset()), buf[..total]);
        }
      }
      n := total;
    }

    /**
     * Flushes the buffer unless the flush is postponed. After a short write the rest
     * stays buffered: the file is cut back, or the written part leaves the buffer.
     * `undone` says that a short write was cut back, `kept` that bytes stay in the
     * file. Nothing is lost exactly if the file was at its end or no byte was kept;
     * otherwise the gap stands between what was there and what was written.
     */
    method Flush(postpone: bool, results: seq<Result>, truncateOk: bool) returns (undone: bool, kept: bool)
      requires Complete() && Outside()
      modifies this, file
      ensures Outside() && fed == old(fed)
      ensures undone <==> !postpone && truncateOk && 0 < Progress(results, 0, |old(buf)|) < |old(buf)|
      ensures kept <==> !postpone && !undone && 0 < Progress(results, 0, |old(buf)|)
      ensures Complete() <==> old(file.AtEnd()) || !kept
      ensures file.AtEnd() <==> file.append || kept || (old(file.AtEnd()) && !undone)
      ensures kept ==> var n := Progress(results, 0, |old(buf)|);
                       && buf == old(buf)[n..]
                       && file.contents == old(file.contents) + Zeros(old(file.Offset()) - |old(file.contents)|) + old(buf)[..n]
      ensures !kept ==> buf == old(buf) && file.contents == old(file.contents)
      ensures undone && !file.append ==> file.pos == old(file.pos) + Progress(results, 0, |old(buf)|)
    {
      hide WrittenAt, Zeros;
      undone, kept := false, false;
      if |buf| == 0 || postpone { return; }
      ghost var size, gap := |file.contents|, file.Offset() - |file.contents|;
      var n := AofWrite(results);
      if n > 0 {
        WrittenPastEnd(old(file.contents), old(file.Offset()), buf[..n]);
        SameEnd(old(file.contents), file.contents, gap, old(buf)[..n], old(buf)[n..], fed);
        assert buf[..n] + buf[n..] == buf;
      } else {
        Nothing(old(file.contents), old(file.Offset()));
        assert buf[..0] == [];
      }
      if n != |buf| {
        if n != -1 {
          if truncateOk {
            file.Truncate(lastIncrSize);
            n := -1;
            undone := true;
          }
        }
        if n > 0 {
          lastIncrSize := lastIncrSize + n;
          buf := buf[n..];
          kept := true;
        }
        return;
      }
      assert buf[n..] == [];
      lastIncrSize := lastIncrSize + n;
      buf := [];
      kept := true;
    }
  }

  /** With a gap the bytes written and the rest do not make up what was fed. */
  lemma SameEnd(file: seq<Byte>, after: seq<Byte>, gap: nat, part: seq<Byte>, rest: seq<Byte>, fed: seq<Byte>)
    requires after == file + Zeros(gap) + part && fed == file + (part + rest)
    ensures after + rest == fed <==> gap == 0
    ensures |after| == |file| + gap + |part|
  {
    if gap == 0 {
      assert file + Zeros(0) == file;
      assert file + part + rest == file + (part + rest);
    }
  }

  /**
   * A file without O_APPEND loses bytes this way: `k` bytes of a buffer are written,
   * the short write is cut back, and the next flush writes the whole buffer behind a
   * gap of `k` zeros. Nothing went wrong that the flush does not handle.
   */
  method CutBackThenFlushed(data: seq<Byte>, k: nat) returns (log: Aof)
    requires 0 < k < |data|
    ensures fresh(log) && fresh(log.file) && log.fed == data && log.buf == []
    ensures log.file.contents == Zeros(k) + data && !log.Complete()
  {
    hide Zeros;
    log := new Aof(false);
    log.Feed(data);
    assert [] + data == data;
    var short := [Wrote(k), Failed];
    assert short[1..] == [Failed] && Progress([Failed], k, |data|) == k;
    assert Progress(short, 0, |data|) == k;
    var undone, kept := log.Flush(false, short, true);
    assert [Wrote(|data|)][1..] == [] && Progress([Wrote(|data|)], 0, |data|) == |data|;
    undone, kept := log.Flush(false, [Wrote(|data|)], true);
    assert data[..|data|] == data && [] + Zeros(k) == Zeros(k);
  }
}

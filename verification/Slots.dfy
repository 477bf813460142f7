/**
 * Hash slots of keys and of glob patterns (src/cluster.c:57-106) and the glob
 * matcher they must agree with (src/util.c:61-193, case sensitive). CRC16 is a
 * parameter: nothing depends on which function it is.
 */
module Slots {
  import opened Common

  type Hash = string -> nat

  function SlotOf(crc: Hash, bytes: string): (slot: nat)
    ensures slot < SLOTS
  {
    crc(bytes) % SLOTS
  }

  // ---- Hash tags ----------------------------------------------------------------

  /** The first '{' of `key` is at `s` and the first '}' after it is at `e`. */
  ghost predicate Braces(key: string, s: nat, e: nat) {
    && s < e < |key| && key[s] == '{' && key[e] == '}'
    && (forall i: nat | i < s :: key[i] != '{')
    && (forall i: nat | s < i < e :: key[i] != '}')
  }

  /** `key[s + 1..e]` is the hash tag of `key`: there is something between the braces. */
  ghost predicate IsTag(key: string, s: nat, e: nat) {
    Braces(key, s, e) && s + 1 < e
  }

  ghost predicate EmptyBraces(key: string, s: nat) {
    Braces(key, s, s + 1)
  }

  ghost predicate HasTag(key: string) {
    exists s: nat, e: nat :: IsTag(key, s, e)
  }

  /** The rule of the cluster specification: hash the tag if there is one, else the key. */
  ghost predicate IsKeySlot(crc: Hash, key: string, slot: nat) {
    && (forall s: nat, e: nat | IsTag(key, s, e) :: slot == SlotOf(crc, key[s + 1..e]))
    && (!HasTag(key) ==> slot == SlotOf(crc, key))
  }

  lemma BracesAreUnique(key: string, s: nat, e: nat, s': nat, e': nat)
    requires Braces(key, s, e) && Braces(key, s', e')
    ensures s == s' && e == e'
  {
  }

  method KeyHashSlot(crc: Hash, key: string) returns (slot: nat)
    ensures slot < SLOTS && IsKeySlot(crc, key, slot)
  {
    var s := 0;
    while s < |key| && key[s] != '{'
      invariant s <= |key| && forall i: nat | i < s :: key[i] != '{'
    {
      s := s + 1;
    }
    if s == |key| { return SlotOf(crc, key); }
    var e := s + 1;
    while e < |key| && key[e] != '}'
      invariant s < e <= |key| && forall i: nat | s < i < e :: key[i] != '}'
    {
      e := e + 1;
    }
    if e == |key| { return SlotOf(crc, key); }
    assert Braces(key, s, e);
    forall s': nat, e': nat | Braces(key, s', e') ensures s' == s && e' == e {
      BracesAreUnique(key, s, e, s', e');
    }
    if e == s + 1 { return SlotOf(crc, key); }
    assert IsTag(key, s, e);
    slot := SlotOf(crc, key[s + 1..e]);
  }

  lemma KeySlotIsUnique(crc: Hash, key: string, a: nat, b: nat)
    requires IsKeySlot(crc, key, a) && IsKeySlot(crc, key, b)
    ensures a == b
  {
    if HasTag(key) {
      var s: nat, e: nat :| IsTag(key, s, e);
    }
  }

  // ---- The glob matcher -----------------------------------------------------------

  datatype Match = Match(matched: bool, skip: bool)

  const MAX_NESTING := 1000

  /** A byte as the signed char that class ranges compare. */
  function Rank(c: char): int {
    if c as int < 128 then c as int else c as int - 256
  }

  /** A character class after its '[' and '^': whether it holds `c`, and what follows the ']'. */
  function Class(p: string, c: char): (r: (bool, string))
    ensures |r.1| <= |p|
  {
    if |p| >= 2 && p[0] == '\\' then
      var rest := Class(p[2..], c);
      (p[1] == c || rest.0, rest.1)
    else if |p| == 0 then (false, p)
    else if p[0] == ']' then (false, p[1..])
    else if |p| >= 3 && p[1] == '-' then
      var lo, hi := if Rank(p[0]) <= Rank(p[2]) then p[0] else p[2], if Rank(p[0]) <= Rank(p[2]) then p[2] else p[0];
      var rest := Class(p[3..], c);
      (Rank(lo) <= Rank(c) <= Rank(hi) || rest.0, rest.1)
    else
      var rest := Class(p[1..], c);
      (p[0] == c || rest.0, rest.1)
  }

  function SkipStars(p: string): (r: string)
    ensures |r| <= |p|
  {
    if |p| > 0 && p[0] == '*' then SkipStars(p[1..]) else p
  }

  /** One pass of the matcher's loop body: `nesting` counts the stars entered so far. */
  function Glob(p: string, s: string, skip: bool, nesting: nat): Match
    decreases |p|, |s|, 0
  {
    if nesting > MAX_NESTING then Match(false, skip)
    else if |p| == 0 || |s| == 0 then Match(|p| == 0 && |s| == 0, skip)
    else if p[0] == '*' then
      var rest := SkipStars(p[1..]);
      if |rest| == 0 then Match(true, skip) else Star(rest, s, skip, nesting)
    else if p[0] == '?' then After(p[1..], s[1..], skip, nesting)
    else if p[0] == '[' then
      var negated := |p| >= 2 && p[1] == '^';
      var inside := Class(p[if negated then 2 else 1..], s[0]);
      if inside.0 == negated then Match(false, skip) else After(inside.1, s[1..], skip, nesting)
    else
      var lit := if p[0] == '\\' && |p| >= 2 then 1 else 0;
      if p[lit] != s[0] then Match(false, skip) else After(p[lit + 1..], s[1..], skip, nesting)
  }

  /** The end of the loop body: once the string is used up only stars may be left. */
  function After(p: string, s: string, skip: bool, nesting: nat): Match
    decreases |p|, |s|, 1
  {
    if |s| == 0 then Match(SkipStars(p) == [], skip) else Glob(p, s, skip, nesting)
  }

  /** The inner loop of '*': try the rest of the pattern at every later position. */
  function Star(rest: string, s: string, skip: bool, nesting: nat): Match
    decreases |rest|, |s|, 1
  {
    if |s| == 0 then Match(false, true)
    else
      var here := Glob(rest, s, skip, nesting + 1);
      if here.matched then here
      else if here.skip then here
      else Star(rest, s[1..], here.skip, nesting)
  }

  predicate Matches(p: string, s: string) {
    Glob(p, s, false, 0).matched
  }

  // ---- Soundness of pattern slots -------------------------------------------------------

  predicate Special(c: char) {
    c == '*' || c == '?' || c == '[' || c == '\\'
  }

  ghost predicate Literal(p: string) {
    forall i: nat | i < |p| :: !Special(p[i])
  }

  /** A key matched by a pattern starts with the pattern's literal prefix. */
  lemma {:induction false} LiteralPrefix(p: string, s: string, n: nat, skip: bool, nesting: nat)
    requires n <= |p| && Literal(p[..n])
    requires Glob(p, s, skip, nesting).matched
    ensures n <= |s| && s[..n] == p[..n]
    ensures n == |p| ==> s == p
    decreases n
  {
    if n > 0 {
      assert !Special(p[..n][0]);
      assert p[1..][..n - 1] == p[..n][1..];
      assert n > 1 ==> !Special(p[..n][1]) && SkipStars(p[1..]) == p[1..];
      if |s| > 1 {
        LiteralPrefix(p[1..], s[1..], n - 1, skip, nesting);
        assert s == [s[0]] + s[1..] && p == [p[0]] + p[1..];
      }
    }
  }

  /** A tag within a common prefix is the tag of both strings. */
  lemma TagOfPrefix(p: string, key: string, n: nat, s: nat, e: nat)
    requires n <= |p| && n <= |key| && key[..n] == p[..n] && e < n && IsTag(p, s, e)
    ensures IsTag(key, s, e) && key[s + 1..e] == p[s + 1..e]
  {
    forall i: nat | i < n ensures key[i] == p[i] {
      assert key[..n][i] == p[..n][i];
    }
  }

  /** The slot of a pattern is found when its first closed, non-empty tag comes before anything special. */
  ghost predicate Undetermined(p: string) {
    exists i: nat | i < |p| :: Special(p[i]) && !HasTag(p[..i])
  }

  method PatternHashSlot(crc: Hash, pattern: string) returns (slot: int)
    ensures slot == -1 <==> Undetermined(pattern)
    ensures slot != -1 ==> 0 <= slot < SLOTS
    ensures slot != -1 ==> forall key | Matches(pattern, key) :: IsKeySlot(crc, key, slot)
  {
    hide Glob;
    ghost var p := pattern;
    var s := -1;
    for i := 0 to |pattern|
      invariant -2 <= s < i
      invariant Literal(p[..i])
      invariant s == -1 ==> forall k: nat | k < i :: p[k] != '{'
      invariant s >= 0 ==> p[s] == '{' && (forall k: nat | k < s :: p[k] != '{')
                           && forall k: nat | s < k < i :: p[k] != '}'
      invariant s == -2 ==> exists k: nat | k + 1 < i :: EmptyBraces(p, k)
    {
      NoTagYet(p, i, s);
      if Special(pattern[i]) {
        return -1;
      } else if s == -1 && pattern[i] == '{' {
        s := i;
      } else if s >= 0 && pattern[i] == '}' && i == s + 1 {
        assert EmptyBraces(p, s);
        s := -2;
      } else if s >= 0 && pattern[i] == '}' {
        assert IsTag(p, s, i);
        slot := SlotOf(crc, pattern[s + 1..i]);
        TagDetermines(crc, p, s, i);
        return;
      }
    }
    NoTagYet(p, |p|, s);
    assert p[..|p|] == p;
    slot := SlotOf(crc, pattern);
    forall key | Matches(p, key) ensures IsKeySlot(crc, key, slot) {
      LiteralPrefix(p, key, |p|, false, 0);
    }
  }

  /** While the scan goes on, the part already read has no closed, non-empty tag. */
  lemma NoTagYet(p: string, i: nat, s: int)
    requires i <= |p| && -2 <= s < i
    requires s == -1 ==> forall k: nat | k < i :: p[k] != '{'
    requires s >= 0 ==> p[s] == '{' && (forall k: nat | k < s :: p[k] != '{')
                        && forall k: nat | s < k < i :: p[k] != '}'
    requires s == -2 ==> exists k: nat | k + 1 < i :: EmptyBraces(p, k)
    ensures !HasTag(p[..i])
  {
    forall s': nat, e': nat ensures !IsTag(p[..i], s', e') {
      if s == -2 {
        var k: nat :| k + 1 < i && EmptyBraces(p, k);
        if IsTag(p[..i], s', e') {
          BracesAreUnique(p, k, k + 1, s', e');
        }
      }
    }
  }

  /** Every key matching a pattern with a literal, closed, non-empty tag is in the tag's slot. */
  lemma TagDetermines(crc: Hash, p: string, s: nat, e: nat)
    requires IsTag(p, s, e) && Literal(p[..e]) && !HasTag(p[..e])
    ensures !Undetermined(p)
    ensures forall key | Matches(p, key) :: IsKeySlot(crc, key, SlotOf(crc, p[s + 1..e]))
  {
    hide Glob;
    assert Literal(p[..e + 1]) by { assert p[..e + 1] == p[..e] + ['}']; }
    assert forall i: nat | i <= e :: p[i] == p[..e + 1][i] && !Special(p[i]);
    forall i: nat | i < |p| && Special(p[i]) ensures HasTag(p[..i]) {
      assert IsTag(p[..i], s, e);
    }
    forall key | Matches(p, key) ensures IsKeySlot(crc, key, SlotOf(crc, p[s + 1..e])) {
      LiteralPrefix(p, key, e + 1, false, 0);
      TagOfPrefix(p, key, e + 1, s, e);
      forall s': nat, e': nat | IsTag(key, s', e') ensures s' == s && e' == e {
        BracesAreUnique(key, s, e, s', e');
      }
    }
  }
}

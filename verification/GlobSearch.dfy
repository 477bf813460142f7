/**
 * The glob matcher of src/util.c gives up early: once the rest of a pattern matches
 * nowhere in the string, no earlier star needs to try longer matches. Proves that
 * this search still finds exactly what plain backtracking finds.
 */
module GlobSearch {
  import opened Slots

  /** Matching by definition: a star stands for any string, and every split may be tried. */
  predicate Simple(p: string, s: string)
    decreases |p|, |s|
  {
    if |p| == 0 then |s| == 0
    else if p[0] == '*' then Simple(p[1..], s) || (|s| > 0 && Simple(p, s[1..]))
    else if |s| == 0 then false
    else
      var head := Head(p, s[0]);
      head.0 && Simple(head.1, s[1..])
  }

  /** One pattern element other than a star: whether it accepts the character, and what follows it. */
  function Head(p: string, c: char): (r: (bool, string))
    requires |p| > 0
    ensures |r.1| < |p|
  {
    if p[0] == '?' then (true, p[1..])
    else if p[0] == '[' then
      var negated := |p| >= 2 && p[1] == '^';
      var inside := Class(p[if negated then 2 else 1..], c);
      (inside.0 != negated, inside.1)
    else
      var lit := if p[0] == '\\' && |p| >= 2 then 1 else 0;
      (p[lit] == c, p[lit + 1..])
  }

  /** What follows an element does not depend on the character. */
  function Tail(p: string): (t: string)
    requires |p| > 0
    ensures |t| < |p|
  {
    Head(p, 'x').1
  }

  lemma {:induction false} ClassTail(p: string, c: char, d: char)
    ensures Class(p, c).1 == Class(p, d).1
  {
    if |p| >= 2 && p[0] == '\\' {
      ClassTail(p[2..], c, d);
    } else if |p| > 0 && p[0] != ']' {
      if |p| >= 3 && p[1] == '-' { ClassTail(p[3..], c, d); } else { ClassTail(p[1..], c, d); }
    }
  }

  lemma HeadTail(p: string, c: char)
    requires |p| > 0
    ensures Head(p, c).1 == Tail(p)
  {
    if p[0] == '[' {
      var negated := |p| >= 2 && p[1] == '^';
      ClassTail(p[if negated then 2 else 1..], c, 'x');
    }
  }

  /** The groups of stars that need a search: the last one does not if nothing follows it. */
  function Groups(p: string): nat
    decreases |p|
  {
    if |p| == 0 then 0
    else if p[0] == '*' then
      var rest := SkipStars(p[1..]);
      if |rest| == 0 then 0 else 1 + Groups(rest)
    else Groups(Tail(p))
  }

  lemma {:induction false} StarsCollapse(p: string, s: string)
    ensures Simple("*" + p, s) <==> Simple("*" + SkipStars(p), s)
    decreases |p|, |s|
  {
    if |p| > 0 && p[0] == '*' {
      assert "*" + p[1..] == p && ("*" + p)[1..] == p;
      StarsCollapse(p[1..], s);
      if |s| > 0 { StarsCollapse(p, s[1..]); StarsCollapse(p[1..], s[1..]); }
      TwoStars(p[1..], s);
    }
  }

  lemma {:induction false} TwoStars(p: string, s: string)
    ensures Simple("*" + ("*" + p), s) <==> Simple("*" + p, s)
    decreases |s|
  {
    var one, two := "*" + p, "*" + ("*" + p);
    assert two[1..] == one;
    if |s| > 0 {
      TwoStars(p, s[1..]);
      assert one[1..] == p;
    }
  }

  lemma {:induction false} EmptyString(p: string)
    ensures Simple(p, "") <==> SkipStars(p) == ""
  {
    if |p| > 0 && p[0] == '*' { EmptyString(p[1..]); }
  }

  /** A star matches when the rest of the pattern matches some suffix. */
  ghost predicate MatchesSuffix(rest: string, s: string) {
    exists i: nat | i <= |s| :: Simple(rest, s[i..])
  }

  lemma {:induction false} StarIs(rest: string, s: string)
    ensures Simple("*" + rest, s) <==> MatchesSuffix(rest, s)
    decreases |s|
  {
    assert ("*" + rest)[1..] == rest && s[0..] == s;
    if |s| > 0 {
      StarIs(rest, s[1..]);
      if i: nat :| i <= |s[1..]| && Simple(rest, s[1..][i..]) { assert s[1..][i..] == s[i + 1..]; }
      if i: nat :| 0 < i <= |s| && Simple(rest, s[i..]) { assert s[1..][i - 1..] == s[i..]; }
    }
  }

  // ---- The search ------------------------------------------------------------------------------

  /** No suffix of the string, the empty one included, matches. */
  ghost predicate Hopeless(p: string, s: string) {
    forall i: nat | i <= |s| :: !Simple(p, s[i..])
  }

  /** One element ahead of a hopeless rest is as hopeless. */
  lemma HopelessElement(p: string, s: string)
    requires |p| > 0 && p[0] != '*' && |s| > 0 && Hopeless(Tail(p), s[1..])
    ensures Hopeless(p, s)
  {
    forall i: nat | i <= |s| ensures !Simple(p, s[i..]) {
      if i < |s| {
        HeadTail(p, s[i]);
        assert s[i..][1..] == s[1..][i..];
      }
    }
  }

  /** A star ahead of a hopeless rest is as hopeless. */
  lemma HopelessStar(p: string, s: string)
    requires |p| > 0 && p[0] == '*' && Hopeless(SkipStars(p[1..]), s)
    ensures Hopeless(p, s)
  {
    var rest := SkipStars(p[1..]);
    assert p == "*" + p[1..];
    forall i: nat | i <= |s| ensures !Simple(p, s[i..]) {
      StarsCollapse(p[1..], s[i..]);
      StarIs(rest, s[i..]);
      forall j: nat | j <= |s[i..]| ensures !Simple(rest, s[i..][j..]) {
        assert s[i..][j..] == s[i + j..];
      }
    }
  }

  /** The recursive search agrees with the definition, and gives up only on hopeless strings. */
  lemma {:induction false} Search(p: string, s: string, nesting: nat)
    requires |s| > 0 && nesting + Groups(p) <= MAX_NESTING
    ensures var r := Glob(p, s, false, nesting);
            (r.matched <==> Simple(p, s)) && (!r.matched && r.skip ==> Hopeless(p, s))
    decreases |p|, |s|, 0
  {
    if |p| == 0 {
    } else if p[0] == '*' {
      var rest := SkipStars(p[1..]);
      assert p == "*" + p[1..];
      StarsCollapse(p[1..], s);
      StarIs(rest, s);
      if |rest| == 0 {
        assert s[|s|..] == "";
      } else {
        FirstIsNoStar(p[1..]);
        SearchStar(rest, s, nesting);
        if !Star(rest, s, false, nesting).matched { HopelessStar(p, s); }
      }
    } else {
      HeadTail(p, s[0]);
      if Head(p, s[0]).0 {
        SearchAfter(Tail(p), s[1..], nesting);
        var r := After(Tail(p), s[1..], false, nesting);
        if !r.matched && r.skip { HopelessElement(p, s); }
      }
    }
  }

  lemma {:induction false} FirstIsNoStar(p: string)
    ensures var r := SkipStars(p); |r| > 0 ==> r[0] != '*'
  {
    if |p| > 0 && p[0] == '*' { FirstIsNoStar(p[1..]); }
  }

  lemma {:induction false} SearchAfter(p: string, s: string, nesting: nat)
    requires nesting + Groups(p) <= MAX_NESTING
    ensures var r := After(p, s, false, nesting);
            (r.matched <==> Simple(p, s)) && (!r.matched && r.skip ==> Hopeless(p, s))
    decreases |p|, |s|, 1
  {
    if |s| == 0 {
      EmptyString(p);
      assert s == "";
    } else {
      Search(p, s, nesting);
    }
  }

  lemma {:induction false} SearchStar(rest: string, s: string, nesting: nat)
    requires |rest| > 0 && rest[0] != '*' && nesting + 1 + Groups(rest) <= MAX_NESTING
    ensures var r := Star(rest, s, false, nesting);
            if MatchesSuffix(rest, s) then r.matched else !r.matched && r.skip && Hopeless(rest, s)
    decreases |rest|, |s|, 1
  {
    if |s| > 0 {
      Search(rest, s, nesting + 1);
      assert s[0..] == s;
      var here := Glob(rest, s, false, nesting + 1);
      if !here.matched && !here.skip {
        SearchStar(rest, s[1..], nesting);
        assert forall i: nat | 0 < i <= |s| :: s[i..] == s[1..][i - 1..];
        if i: nat :| i <= |s[1..]| && Simple(rest, s[1..][i..]) { assert Simple(rest, s[i + 1..]); }
      }
    }
  }

  /**
   * For every pattern within the nesting limit the early exit changes nothing. The
   * one departure from the definition: the empty string matches only the empty
   * pattern, not a pattern of stars.
   */
  lemma MatcherIsExact(p: string, s: string)
    requires Groups(p) <= MAX_NESTING
    ensures Matches(p, s) <==> Simple(p, s) && (s != "" || p == "")
  {
    if |s| > 0 {
      Search(p, s, 0);
    } else {
      assert s == "";
    }
  }
}

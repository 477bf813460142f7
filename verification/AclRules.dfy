/**
 * The retained rules as one space-separated C string, and the removal of replaced
 * rules by moving the rest of the buffer over them (src/acl.c:591-645).
 */
module AclRules {
  import opened AclText

  // ---- Tokens and their text ---------------------------------------------------------------

  function Join(tokens: seq<string>): string {
    if |tokens| == 0 then ""
    else tokens[0] + if |tokens| == 1 then "" else " " + Join(tokens[1..])
  }

  /** Every token followed by a space. */
  function Spaced(tokens: seq<string>): string {
    if |tokens| == 0 then "" else Spaced(tokens[..|tokens| - 1]) + tokens[|tokens| - 1] + " "
  }

  ghost predicate Lacks(s: string, c: char) {
    forall i: nat | i < |s| :: s[i] != c
  }

  ghost predicate IsToken(s: string) {
    |s| > 0 && Lacks(s, ' ') && Lacks(s, '\0')
  }

  ghost predicate AreTokens(tokens: seq<string>) {
    forall i: nat | i < |tokens| :: IsToken(tokens[i])
  }

  /** A rule without its sign. */
  function Unsigned(s: string): string {
    if |s| == 0 then s else s[1..]
  }

  /** The tokens that a new body does not replace, in their order. */
  function Kept(tokens: seq<string>, body: string): seq<string> {
    if |tokens| == 0 then []
    else (if Replaces(body, Unsigned(tokens[0])) then [] else [tokens[0]]) + Kept(tokens[1..], body)
  }

  lemma JoinFirst(todo: seq<string>)
    requires |todo| > 0
    ensures Join(todo) == todo[0] + if |todo| == 1 then "" else " " + Join(todo[1..])
  {
  }

  lemma Empty()
    ensures Spaced([]) == "" && Join([]) == ""
  {
  }

  lemma Assoc(a: string, b: string, c: string, d: string)
    ensures a + b + c + d == a + (b + (c + d))
  {
  }

  lemma {:induction false} JoinAll(done: seq<string>, todo: seq<string>)
    requires |todo| > 0
    ensures Join(done + todo) == Spaced(done) + Join(todo)
    decreases |done|
  {
    if |done| == 0 {
      assert done + todo == todo;
    } else {
      var front, last := done[..|done| - 1], done[|done| - 1];
      assert done + todo == front + ([last] + todo);
      JoinAll(front, [last] + todo);
      assert Spaced(done) == Spaced(front) + last + " ";
      assert ([last] + todo)[1..] == todo;
      hide Join, Spaced;
      JoinFirst([last] + todo);
      Assoc(Spaced(front), last, " ", Join(todo));
    }
  }

  /** The tokens joined by single spaces end without one. */
  lemma {:induction false} SpacedIsJoin(done: seq<string>)
    requires |done| > 0
    ensures Spaced(done) == Join(done) + " "
  {
    var front, last := done[..|done| - 1], done[|done| - 1];
    assert Spaced(done) == Spaced(front) + last + " ";
    hide Join, Spaced;
    JoinAll(front, [last]);
    assert done == front + [last];
    JoinFirst([last]);
    assert last + "" == last;
  }

  lemma LacksConcat(a: string, b: string, c: char)
    ensures Lacks(a + b, c) <==> Lacks(a, c) && Lacks(b, c)
  {
    assert forall i: nat | i < |a| :: (a + b)[i] == a[i];
    assert forall i: nat | i < |b| :: (a + b)[|a| + i] == b[i];
  }

  // ---- C strings -----------------------------------------------------------------------------

  /** `buf` starts with `text` and a terminating zero. */
  ghost predicate Holds(buf: seq<char>, text: string) {
    |text| < |buf| && buf[..|text|] == text && buf[|text|] == '\0' && Lacks(text, '\0')
  }

  lemma HoldsAt(buf: seq<char>, text: string, i: nat)
    requires Holds(buf, text) && i <= |text|
    ensures i < |buf| && buf[i] == (if i == |text| then '\0' else text[i]) && (buf[i] == '\0' <==> i == |text|)
  {
    assert i < |text| ==> buf[..|text|][i] == text[i];
  }

  lemma HoldsSlice(buf: seq<char>, text: string, i: nat, j: nat)
    requires Holds(buf, text) && i <= j <= |text|
    ensures buf[i..j] == text[i..j]
  {
    assert forall k: nat | k < |text| :: buf[..|text|][k] == buf[k];
    assert buf[i..j] == text[i..j];
  }

  /** strchr, or strlen when the character is not there. */
  method Find(buf: array<char>, from: nat, c: char, ghost text: string) returns (i: nat)
    requires Holds(buf[..], text) && from <= |text|
    ensures from <= i <= |text| && (i < |text| ==> text[i] == c) && forall k: nat | from <= k < i :: text[k] != c
  {
    i := from;
    HoldsAt(buf[..], text, i);
    while buf[i] != '\0' && buf[i] != c
      invariant from <= i <= |text| && i < buf.Length && (buf[i] == '\0' <==> i == |text|)
      invariant i < |text| ==> buf[i] == text[i]
      invariant forall k: nat | from <= k < i :: text[k] != c
      decreases |text| - i
    {
      i := i + 1;
      HoldsAt(buf[..], text, i);
    }
  }

  /** memcmp over the shorter length, then the end or a bar. */
  method Matches(buf: array<char>, at: nat, len: nat, body: string) returns (b: bool)
    requires at + len <= buf.Length
    ensures b == Replaces(body, buf[at..at + len])
  {
    var present := buf[at..at + len];
    var n := if len < |body| then len else |body|;
    for i := 0 to n
      invariant present[..i] == body[..i]
    {
      if buf[at + i] != body[i] {
        assert present[i] != body[i];
        return false;
      }
      assert present[..i + 1] == present[..i] + [present[i]] && body[..i + 1] == body[..i] + [body[i]];
    }
    assert len <= |body| ==> present[..n] == present;
    assert |body| <= len ==> body[..n] == body;
    return len == |body| || (len > |body| && buf[at + |body|] == '|');
  }

  /** memmove of the rest of a C string, with its zero, down over what is removed. */
  method MoveDown(buf: array<char>, dst: nat, src: nat, n: nat)
    requires dst <= src && src + n <= buf.Length
    modifies buf
    ensures buf[..dst] == old(buf[..dst]) && buf[dst..dst + n] == old(buf[src..src + n])
  {
    ghost var before := buf[..];
    for i := 0 to n
      invariant buf[..dst] == before[..dst] && buf[dst..dst + i] == before[src..src + i]
      invariant buf[dst + i..] == before[dst + i..]
    {
      assert buf[dst + i..][src - dst] == buf[src + i] && before[dst + i..][src - dst] == before[src + i];
      buf[dst + i] := buf[src + i];
      assert buf[dst..dst + i + 1] == buf[dst..dst + i] + [buf[dst + i]];
      assert before[src..src + i + 1] == before[src..src + i] + [before[src + i]];
      assert before[dst + i + 1..] == before[dst + i..][1..];
    }
  }

  /** Moving the tail of a C string down cuts out what was between. */
  lemma CutOut(before: seq<char>, after: seq<char>, text: string, dst: nat, src: nat)
    requires Holds(before, text) && dst <= src <= |text| && |after| == |before|
    requires var n := |text| + 1 - src;
             after[..dst] == before[..dst] && after[dst..dst + n] == before[src..src + n]
    ensures Holds(after, text[..dst] + text[src..])
  {
    hide Lacks;
    var next, n := text[..dst] + text[src..], |text| + 1 - src;
    assert before[..dst] == before[..|text|][..dst];
    assert before[src..src + n] == before[..|text|][src..] + [before[|text|]];
    assert after[..dst + n] == after[..dst] + after[dst..dst + n];
    assert after[..dst + n] == next + ['\0'];
    assert after[..|next|] == after[..dst + n][..|next|];
    assert after[|next|] == after[..dst + n][|next|];
    assert Lacks(next, '\0') by { PartsLack(text, dst, src); }
  }

  /** The end of a removal: everything from `src` on goes to `dst`. */
  method Remove(buf: array<char>, dst: nat, src: nat, ghost text: string)
    requires Holds(buf[..], text) && dst <= src <= |text|
    modifies buf
    ensures Holds(buf[..], text[..dst] + text[src..])
  {
    ghost var before := buf[..];
    var tail := Find(buf, src, '\0', text);
    assert tail == |text| by { NoZero(text); }
    assert |text| < buf.Length;
    hide Holds;
    MoveDown(buf, dst, src, tail - src + 1);
    CutOut(before, buf[..], text, dst, src);
  }

  lemma NoZero(text: string)
    requires Lacks(text, '\0')
    ensures forall k: nat | k < |text| :: text[k] != '\0'
  {
  }

  lemma PartsLack(text: string, dst: nat, src: nat)
    requires Lacks(text, '\0') && dst <= src <= |text|
    ensures Lacks(text[..dst] + text[src..], '\0')
  {
    LacksConcat(text[..dst], text[src..], '\0');
  }

  // ---- The walk over the rules -----------------------------------------------------------------

  lemma Parts(a: string, b: string, c: string)
    ensures var s := a + (b + c);
            && s[..|a|] == a && s[|a|..|a| + |b|] == b && s[|a| + |b|..] == c
            && (|c| > 0 ==> s[|a| + |b|] == c[0] && s[|a| + |b| + 1..] == c[1..])
  {
  }

  /** Where the next token ends, and what follows it. */
  lemma NextToken(text: string, done: seq<string>, todo: seq<string>)
    requires |todo| > 0 && text == Join(done + todo)
    ensures var at, end := |Spaced(done)|, |Spaced(done)| + |todo[0]|;
            && end <= |text| && text[..at] == Spaced(done) && text[at..end] == todo[0]
            && (|todo| == 1 <==> end == |text|)
            && (|todo| > 1 ==> text[end] == ' ' && text[end + 1..] == Join(todo[1..]))
  {
    hide Join, Spaced;
    JoinAll(done, todo);
    JoinFirst(todo);
    var tail := if |todo| == 1 then "" else " " + Join(todo[1..]);
    Parts(Spaced(done), todo[0], tail);
    assert |todo| > 1 ==> tail[1..] == Join(todo[1..]);
  }

  /** The first space after a token's first character is its end. */
  lemma TokenEnd(text: string, at: nat, token: string, i: nat)
    requires IsToken(token) && at + |token| <= |text| && text[at..at + |token|] == token
    requires at + |token| == |text| || text[at + |token|] == ' '
    requires at < i <= |text| && (i < |text| ==> text[i] == ' ') && forall k: nat | at < k < i :: text[k] != ' '
    ensures i == at + |token|
  {
    assert forall k: nat | k < |token| :: token[k] == text[at + k] && text[at + k] != ' ';
    assert forall k: nat | at <= k < at + |token| :: text[k] == token[k - at];
  }

  /** Cutting a token and its space out of the text leaves the other tokens joined. */
  lemma Rejoined(text: string, done: seq<string>, todo: seq<string>, dst: nat, src: nat)
    requires |todo| > 0 && text == Join(done + todo)
    requires var at, end := |Spaced(done)|, |Spaced(done)| + |todo[0]|;
             && src == (if |todo| == 1 then end else end + 1)
             && dst == (if |todo| == 1 && |done| > 0 then at - 1 else at)
    ensures dst <= src <= |text| && Join(done + todo[1..]) == text[..dst] + text[src..]
    ensures dst == if |todo| == 1 then |Join(done)| else |Spaced(done)|
  {
    hide Join, Spaced;
    NextToken(text, done, todo);
    if |todo| > 1 {
      JoinAll(done, todo[1..]);
    } else {
      assert done + todo[1..] == done;
      Empty();
      if |done| > 0 {
        SpacedIsJoin(done);
        assert text[..dst] == (Join(done) + " ")[..dst];
      } else {
        assert done == [];
      }
    }
  }

  lemma TokenIsNotEmpty(s: string)
    requires IsToken(s)
    ensures |s| > 0
  {
  }

  lemma SpacedLength(done: seq<string>)
    ensures |Spaced(done)| == 0 <==> |done| == 0
  {
  }

  /** The walk is at the end of the text exactly when no token is left. */
  lemma AtEnd(done: seq<string>, todo: seq<string>)
    requires AreTokens(todo)
    ensures var at := if |todo| == 0 then |Join(done)| else |Spaced(done)|;
            at <= |Join(done + todo)| && (at == |Join(done + todo)| <==> |todo| == 0)
  {
    hide Join, Spaced, IsToken;
    if |todo| == 0 {
      assert done + todo == done;
    } else {
      NextToken(Join(done + todo), done, todo);
      TokenIsNotEmpty(todo[0]);
    }
  }

  lemma BodyOfToken(buf: seq<char>, text: string, at: nat, end: nat, token: string)
    requires Holds(buf, text) && at < end <= |text| && text[at..end] == token
    ensures buf[at + 1..end] == Unsigned(token)
  {
    assert buf[at + 1..end] == buf[..|text|][at + 1..end];
    assert text[at + 1..end] == token[1..];
  }

  lemma DropFirst(done: seq<string>, todo: seq<string>)
    requires |todo| > 0 && AreTokens(done + todo)
    ensures AreTokens(done + todo[1..]) && AreTokens(todo[1..])
  {
    hide IsToken;
    var all := done + todo[1..];
    assert forall i: nat | i < |all| :: all[i] == (done + todo)[if i < |done| then i else i + 1];
    assert forall i: nat | i < |todo| - 1 :: todo[1..][i] == (done + todo)[|done| + 1 + i];
  }

  lemma KeepFirst(text: string, done: seq<string>, todo: seq<string>)
    requires |todo| > 0 && AreTokens(todo) && text == Join(done + todo)
    ensures done + [todo[0]] + todo[1..] == done + todo && AreTokens(todo[1..])
    ensures Spaced(done + [todo[0]]) == Spaced(done) + todo[0] + " "
    ensures |todo| == 1 ==> Join(done + [todo[0]]) == text
  {
    assert (done + [todo[0]])[..|done|] == done;
    assert |todo| == 1 ==> todo == [todo[0]];
  }

  /** The state of the walk: tokens kept so far, and tokens still to look at, in the buffer. */
  ghost predicate Walking(buf: seq<char>, at: nat, done: seq<string>, todo: seq<string>) {
    && AreTokens(done + todo) && AreTokens(todo) && Holds(buf, Join(done + todo))
    && at == if |todo| == 0 then |Join(done)| else |Spaced(done)|
  }

  /** One rule: kept, or cut out together with its space. */
  method Step(buf: array<char>, body: string, at: nat, ghost done: seq<string>, ghost todo: seq<string>)
    returns (next: nat, matched: bool)
    requires Walking(buf[..], at, done, todo) && |todo| > 0
    modifies buf
    ensures matched == Replaces(body, Unsigned(todo[0]))
    ensures Walking(buf[..], next, if matched then done else done + [todo[0]], todo[1..])
  {
    hide Join, Spaced, IsToken, Lacks, Replaces;
    ghost var text := Join(done + todo);
    NextToken(text, done, todo);
    TokenIsNotEmpty(todo[0]);
    var dst := at;
    var start := at + 1;
    var end := Find(buf, start, ' ', text);
    TokenEnd(text, at, todo[0], end);
    HoldsAt(buf[..], text, end);
    SpacedLength(done);
    if buf[end] == '\0' {
      if dst != 0 { dst := dst - 1; }
    }
    var src := end;
    if buf[src] == ' ' { src := src + 1; }
    BodyOfToken(buf[..], text, at, end, todo[0]);
    matched := Matches(buf, start, end - start, body);
    DropFirst(done, todo);
    if matched {
      Rejoined(text, done, todo, dst, src);
      Remove(buf, dst, src, text);
      next := dst;
    } else {
      KeepFirst(text, done, todo);
      next := src;
    }
  }

  lemma WalkStarts(buf: seq<char>, tokens: seq<string>)
    requires AreTokens(tokens) && Holds(buf, Join(tokens))
    ensures Walking(buf, 0, [], tokens)
  {
    hide Join, IsToken, Holds;
    assert [] + tokens == tokens;
    Empty();
  }

  /** The end of the text is the end of the walk. */
  lemma WalkAt(buf: seq<char>, at: nat, done: seq<string>, todo: seq<string>)
    requires Walking(buf, at, done, todo)
    ensures at < |buf| && (buf[at] == '\0' <==> |todo| == 0)
  {
    hide Join, Spaced, IsToken, Lacks;
    AtEnd(done, todo);
    HoldsAt(buf, Join(done + todo), at);
  }

  lemma WalkEnds(buf: seq<char>, at: nat, done: seq<string>, body: string)
    requires Walking(buf, at, done, [])
    ensures Holds(buf, Join(done)) && done + Kept([], body) == done
  {
    hide Join, Holds, IsToken;
    assert done + [] == done;
  }

  lemma KeptNext(done: seq<string>, todo: seq<string>, body: string)
    requires |todo| > 0
    ensures done + Kept(todo, body)
            == (if Replaces(body, Unsigned(todo[0])) then done else done + [todo[0]]) + Kept(todo[1..], body)
  {
    hide Replaces;
  }

  /** Removes every rule that the new body replaces, and the space it leaves. */
  method RemoveCommandRule(buf: array<char>, body: string, ghost tokens: seq<string>)
    requires AreTokens(tokens) && Holds(buf[..], Join(tokens))
    modifies buf
    ensures Holds(buf[..], Join(Kept(tokens, body)))
  {
    hide Join, Kept, Walking, Holds, AreTokens, Replaces;
    ghost var done, todo := [], tokens;
    var at: nat := 0;
    WalkStarts(buf[..], tokens);
    WalkAt(buf[..], at, done, todo);
    assert [] + Kept(tokens, body) == Kept(tokens, body);
    while buf[at] != '\0'
      invariant Walking(buf[..], at, done, todo) && at < buf.Length && (buf[at] == '\0' <==> |todo| == 0)
      invariant Kept(tokens, body) == done + Kept(todo, body)
      decreases |todo|
    {
      KeptNext(done, todo, body);
      var next, matched := Step(buf, body, at, done, todo);
      at := next;
      done, todo := if matched then done else done + [todo[0]], todo[1..];
      WalkAt(buf[..], at, done, todo);
    }
    assert todo == [];
    WalkEnds(buf[..], at, done, body);
  }
}

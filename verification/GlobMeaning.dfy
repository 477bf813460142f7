/**
 * What glob patterns mean (src/util.c:62-193): a pattern is a list of elements, every
 * element has a meaning of its own, and the matcher of `Slots` finds exactly the
 * strings that the list denotes.
 */
module GlobMeaning {
  import opened Common
  import opened Slots
  import opened GlobSearch

  /** A member of a character class: a character, an escaped character, or a range in either order. */
  datatype Item = Plain(c: char) | Escaped(c: char) | Range(a: char, b: char)

  /** A class may lack its closing bracket at the end of the pattern. */
  datatype Element =
    | AnyString | AnyChar
    | Letter(c: char) | Quoted(c: char)
    | OneOf(negated: bool, items: seq<Item>) | Unclosed(negated: bool, items: seq<Item>)

  // ---- Meaning -------------------------------------------------------------------------------

  predicate ItemHolds(item: Item, c: char) {
    match item
    case Plain(d) => c == d
    case Escaped(d) => c == d
    case Range(a, b) => Rank(a) <= Rank(c) <= Rank(b) || Rank(b) <= Rank(c) <= Rank(a)
  }

  /** Some item holds the character. */
  predicate Holds(items: seq<Item>, c: char) {
    exists i: nat | i < |items| :: ItemHolds(items[i], c)
  }

  /** The element stands for one character, this one. */
  predicate Accepts(e: Element, c: char) {
    match e
    case AnyString => false
    case AnyChar => true
    case Letter(d) => c == d
    case Quoted(d) => c == d
    case OneOf(negated, items) => Holds(items, c) != negated
    case Unclosed(negated, items) => Holds(items, c) != negated
  }

  /** The strings that a list of elements denotes. */
  ghost predicate Denotes(es: seq<Element>, s: string)
    decreases |es|
  {
    if |es| == 0 then s == ""
    else if es[0].AnyString? then exists i: nat | i <= |s| :: Denotes(es[1..], s[i..])
    else |s| > 0 && Accepts(es[0], s[0]) && Denotes(es[1..], s[1..])
  }

  // ---- Spelling --------------------------------------------------------------------------------

  function ItemText(item: Item): string {
    match item
    case Plain(c) => [c]
    case Escaped(c) => ['\\', c]
    case Range(a, b) => [a, '-', b]
  }

  function ItemsText(items: seq<Item>): string {
    if |items| == 0 then "" else ItemText(items[0]) + ItemsText(items[1..])
  }

  function Text(es: seq<Element>): string {
    if |es| == 0 then "" else ElementText(es[0]) + Text(es[1..])
  }

  function ElementText(e: Element): string {
    match e
    case AnyString => "*"
    case AnyChar => "?"
    case Letter(c) => [c]
    case Quoted(c) => ['\\', c]
    case OneOf(negated, items) => "[" + (if negated then "^" else "") + ItemsText(items) + "]"
    case Unclosed(negated, items) => "[" + (if negated then "^" else "") + ItemsText(items)
  }

  /** The items are what their text is read as when `tail` follows. */
  predicate ProperItems(items: seq<Item>, tail: string) {
    if |items| == 0 then true
    else
      var text := ItemsText(items) + tail;
      && (match items[0]
          case Plain(c) => !(c == '\\' && |text| >= 2) && c != ']' && !(|text| >= 3 && text[1] == '-')
          case Escaped(_) => true
          case Range(a, _) => a != '\\' && a != ']')
      && ProperItems(items[1..], tail)
  }

  predicate ProperClass(negated: bool, items: seq<Item>, tail: string) {
    ProperItems(items, tail) && (!negated ==> !(|ItemsText(items) + tail| > 0 && (ItemsText(items) + tail)[0] == '^'))
  }

  /** The elements are what their text is read as. */
  predicate Proper(es: seq<Element>) {
    if |es| == 0 then true
    else
      && (match es[0]
          case AnyString => true
          case AnyChar => true
          case Letter(c) => c != '*' && c != '?' && c != '[' && (c == '\\' ==> |es| == 1)
          case Quoted(_) => true
          case OneOf(negated, items) => ProperClass(negated, items, "]" + Text(es[1..]))
          case Unclosed(negated, items) => |es| == 1 && ProperClass(negated, items, ""))
      && Proper(es[1..])
  }

  // ---- Classes -----------------------------------------------------------------------------------

  lemma HoldsFirst(items: seq<Item>, c: char)
    requires |items| > 0
    ensures Holds(items, c) <==> ItemHolds(items[0], c) || Holds(items[1..], c)
  {
    hide ItemHolds;
    if i: nat :| 0 < i < |items| && ItemHolds(items[i], c) { assert ItemHolds(items[1..][i - 1], c); }
    if i: nat :| i < |items[1..]| && ItemHolds(items[1..][i], c) { assert ItemHolds(items[i + 1], c); }
  }

  lemma ClassFirst(item: Item, rest: string, c: char)
    requires var text := ItemText(item) + rest;
             match item
             case Plain(d) => !(d == '\\' && |text| >= 2) && d != ']' && !(|text| >= 3 && text[1] == '-')
             case Escaped(_) => true
             case Range(a, _) => a != '\\' && a != ']'
    ensures Class(ItemText(item) + rest, c) == (ItemHolds(item, c) || Class(rest, c).0, Class(rest, c).1)
  {
    var text := ItemText(item) + rest;
    match item {
      case Plain(d) => assert text[1..] == rest && text[0] == d;
      case Escaped(d) => assert text[2..] == rest && text[0] == '\\' && text[1] == d;
      case Range(a, b) => assert text[3..] == rest && text[0] == a && text[1] == '-' && text[2] == b;
    }
  }

  /** A class holds exactly the characters that one of its items holds, and reading goes on after the bracket. */
  lemma {:induction false} ClassMeans(items: seq<Item>, tail: string, c: char)
    requires ProperItems(items, tail) && (tail == "" || tail[0] == ']')
    ensures Class(ItemsText(items) + tail, c) == (Holds(items, c), if tail == "" then "" else tail[1..])
  {
    hide ItemHolds;
    if |items| == 0 {
      assert ItemsText(items) + tail == tail;
    } else {
      var rest := ItemsText(items[1..]) + tail;
      assert ItemsText(items) + tail == ItemText(items[0]) + rest;
      ClassMeans(items[1..], tail, c);
      ClassFirst(items[0], rest, c);
      HoldsFirst(items, c);
    }
  }

  // ---- Elements ------------------------------------------------------------------------------------

  lemma HeadClass(negated: bool, items: seq<Item>, tail: string, c: char)
    requires ProperClass(negated, items, tail) && (tail == "" || tail[0] == ']')
    ensures var text := "[" + (if negated then "^" else "") + ItemsText(items) + tail;
            Head(text, c) == (Holds(items, c) != negated, if tail == "" then "" else tail[1..])
  {
    hide Class, Holds;
    var inner := ItemsText(items) + tail;
    var text := "[" + (if negated then "^" else "") + ItemsText(items) + tail;
    ClassMeans(items, tail, c);
    if negated {
      assert text[2..] == inner && text[1] == '^';
    } else {
      assert text[1..] == inner;
      assert |text| >= 2 ==> text[1] == inner[0];
    }
  }

  lemma HeadPlain(e: Element, rest: string, c: char)
    requires e.AnyChar? || e.Quoted? || (e.Letter? && e.c != '*' && e.c != '?' && e.c != '[' && (e.c == '\\' ==> rest == ""))
    ensures var text := ElementText(e) + rest; |text| > 0 && text[0] != '*' && Head(text, c) == (Accepts(e, c), rest)
  {
    var text := ElementText(e) + rest;
    match e {
      case AnyChar => assert text[1..] == rest;
      case Letter(d) => assert text[1..] == rest && text[0] == d;
      case Quoted(d) => assert text[2..] == rest && text[0] == '\\' && text[1] == d;
    }
  }

  lemma HeadOneOf(negated: bool, items: seq<Item>, rest: string, c: char)
    requires ProperClass(negated, items, "]" + rest)
    ensures var text := ElementText(OneOf(negated, items)) + rest;
            |text| > 0 && text[0] != '*' && Head(text, c) == (Holds(items, c) != negated, rest)
  {
    hide Head, Holds, ProperClass, ItemsText;
    HeadClass(negated, items, "]" + rest, c);
    assert ElementText(OneOf(negated, items)) + rest == "[" + (if negated then "^" else "") + ItemsText(items) + ("]" + rest);
    assert ("]" + rest)[1..] == rest;
  }

  lemma HeadUnclosed(negated: bool, items: seq<Item>, c: char)
    requires ProperClass(negated, items, "")
    ensures var text := ElementText(Unclosed(negated, items)) + "";
            |text| > 0 && text[0] != '*' && Head(text, c) == (Holds(items, c) != negated, "")
  {
    hide Head, Holds, ProperClass, ItemsText;
    HeadClass(negated, items, "", c);
  }

  /** One element other than a star: what it accepts, and what is left of the pattern. */
  lemma HeadMeans(es: seq<Element>, c: char)
    requires |es| > 0 && Proper(es) && !es[0].AnyString?
    ensures |Text(es)| > 0 && Text(es)[0] != '*' && Head(Text(es), c) == (Accepts(es[0], c), Text(es[1..]))
  {
    hide Head, Holds, ProperClass, ElementText;
    var rest := Text(es[1..]);
    assert |es| == 1 ==> rest == "";
    var first := es[0];
    if first.OneOf? {
      HeadOneOf(first.negated, first.items, rest, c);
    } else if first.Unclosed? {
      HeadUnclosed(first.negated, first.items, c);
    } else {
      HeadPlain(first, rest, c);
    }
  }

  lemma SimpleStep(p: string, s: string)
    requires |p| > 0 && p[0] != '*'
    ensures Simple(p, s) <==> |s| > 0 && Head(p, s[0]).0 && Simple(Head(p, s[0]).1, s[1..])
  {
    hide Head;
  }

  /** Matching by backtracking finds what the elements denote. */
  lemma {:induction false} SimpleMeans(es: seq<Element>, s: string)
    requires Proper(es)
    ensures Simple(Text(es), s) <==> Denotes(es, s)
    decreases |es|
  {
    hide Head, Accepts, ElementText;
    if |es| == 0 {
    } else if es[0].AnyString? {
      var rest := Text(es[1..]);
      assert Text(es) == "*" + rest by { StarText(es); }
      StarIs(rest, s);
      forall i: nat | i <= |s| ensures Simple(rest, s[i..]) <==> Denotes(es[1..], s[i..]) { SimpleMeans(es[1..], s[i..]); }
    } else {
      HeadMeans(es, 'x');
      SimpleStep(Text(es), s);
      if |s| > 0 {
        HeadMeans(es, s[0]);
        SimpleMeans(es[1..], s[1..]);
      }
    }
  }

  lemma StarText(es: seq<Element>)
    requires |es| > 0 && es[0].AnyString?
    ensures Text(es) == "*" + Text(es[1..])
  {
  }

  /** The server's matcher finds exactly the non-empty strings that the pattern denotes. */
  lemma MatcherMeans(es: seq<Element>, s: string)
    requires Proper(es) && Groups(Text(es)) <= 1000
    ensures Matches(Text(es), s) <==> Denotes(es, s) && (s != "" || es == [])
  {
    hide Matches, Simple, Denotes, Groups;
    MatcherIsExact(Text(es), s);
    SimpleMeans(es, s);
    assert Text(es) == "" <==> es == [] by { NoText(es); }
  }

  lemma NoText(es: seq<Element>)
    ensures Text(es) == "" <==> es == []
  {
    if |es| > 0 { assert |ElementText(es[0])| > 0; }
  }

  // ---- Every pattern is the text of some elements -----------------------------------------------------

  /** The items of a class up to its bracket or the end of the pattern, and what follows the bracket. */
  function ReadItems(p: string): (r: (seq<Item>, Option<string>))
    ensures r.1.Some? ==> |r.1.value| < |p|
  {
    if |p| >= 2 && p[0] == '\\' then
      var rest := ReadItems(p[2..]);
      ([Escaped(p[1])] + rest.0, rest.1)
    else if |p| == 0 then ([], None)
    else if p[0] == ']' then ([], Some(p[1..]))
    else if |p| >= 3 && p[1] == '-' then
      var rest := ReadItems(p[3..]);
      ([Range(p[0], p[2])] + rest.0, rest.1)
    else
      var rest := ReadItems(p[1..]);
      ([Plain(p[0])] + rest.0, rest.1)
  }

  function Read(p: string): seq<Element>
    decreases |p|
  {
    if |p| == 0 then []
    else if p[0] == '*' then [AnyString] + Read(p[1..])
    else if p[0] == '?' then [AnyChar] + Read(p[1..])
    else if p[0] == '[' then
      var negated := |p| >= 2 && p[1] == '^';
      var (items, rest) := ReadItems(p[if negated then 2 else 1..]);
      if rest.None? then [Unclosed(negated, items)] else [OneOf(negated, items)] + Read(rest.value)
    else if p[0] == '\\' && |p| >= 2 then [Quoted(p[1])] + Read(p[2..])
    else [Letter(p[0])] + Read(p[1..])
  }

  function TailOf(rest: Option<string>): string {
    if rest.None? then "" else "]" + rest.value
  }

  /** One item is read. */
  lemma ReadStep(p: string) returns (item: Item, n: nat)
    requires |p| > 0 && p[0] != ']'
    ensures 0 < n <= |p| && ItemText(item) == p[..n]
    ensures ReadItems(p) == ([item] + ReadItems(p[n..]).0, ReadItems(p[n..]).1)
    ensures match item
            case Plain(c) => !(c == '\\' && |p| >= 2) && c != ']' && !(|p| >= 3 && p[1] == '-')
            case Escaped(_) => true
            case Range(a, _) => a != '\\' && a != ']'
  {
    if |p| >= 2 && p[0] == '\\' {
      item, n := Escaped(p[1]), 2;
    } else if |p| >= 3 && p[1] == '-' {
      item, n := Range(p[0], p[2]), 3;
    } else {
      item, n := Plain(p[0]), 1;
    }
  }

  lemma ItemsNext(item: Item, rest: seq<Item>, tail: string)
    ensures ItemsText([item] + rest) + tail == ItemText(item) + (ItemsText(rest) + tail)
    ensures ProperItems([item] + rest, tail) <==>
              var text := ItemText(item) + (ItemsText(rest) + tail);
              && (match item
                  case Plain(c) => !(c == '\\' && |text| >= 2) && c != ']' && !(|text| >= 3 && text[1] == '-')
                  case Escaped(_) => true
                  case Range(a, _) => a != '\\' && a != ']')
              && ProperItems(rest, tail)
  {
    hide ItemText;
    var all := [item] + rest;
    assert all[1..] == rest && all[0] == item;
    assert ItemsText(all) == ItemText(item) + ItemsText(rest);
    assert ItemText(item) + ItemsText(rest) + tail == ItemText(item) + (ItemsText(rest) + tail);
  }

  lemma {:induction false} ItemsReadBack(p: string)
    ensures var (items, rest) := ReadItems(p); ItemsText(items) + TailOf(rest) == p && ProperItems(items, TailOf(rest))
    decreases |p|
  {
    if |p| > 0 && p[0] != ']' {
      var item, n := ReadStep(p);
      hide ReadItems, ItemText, ItemsText, ProperItems;
      ItemsReadBack(p[n..]);
      ItemsNext(item, ReadItems(p[n..]).0, TailOf(ReadItems(p[n..]).1));
      assert p[..n] + p[n..] == p;
    }
  }

  /** Every pattern has a reading, so the meaning covers all patterns. */
  lemma {:induction false} ReadBack(p: string)
    ensures Text(Read(p)) == p && Proper(Read(p))
    decreases |p|
  {
    hide ProperItems, ItemsText, ReadItems;
    if |p| > 0 {
      var es := Read(p);
      if p[0] == '[' {
        ReadBackClass(p);
      } else {
        var n := if p[0] == '\\' && |p| >= 2 then 2 else 1;
        ReadBack(p[n..]);
        assert es[1..] == Read(p[n..]) && ElementText(es[0]) == p[..n] && p[..n] + p[n..] == p;
        assert p[0] == '\\' && |p| == 1 ==> |es| == 1;
      }
    }
  }

  /** A class as it is read, with its proper text. */
  lemma ClassReadBack(p: string, negated: bool, items: seq<Item>, rest: Option<string>)
    requires |p| > 0 && p[0] == '[' && negated == (|p| >= 2 && p[1] == '^')
    requires (items, rest) == ReadItems(p[if negated then 2 else 1..])
    ensures p == "[" + (if negated then "^" else "") + ItemsText(items) + TailOf(rest)
    ensures ProperClass(negated, items, TailOf(rest))
  {
    hide ProperItems, ItemsText, ReadItems, TailOf;
    var k := if negated then 2 else 1;
    ItemsReadBack(p[k..]);
    assert p == p[..k] + p[k..] && p[..k] == "[" + if negated then "^" else "";
    assert |p[k..]| > 0 ==> p[k..][0] == p[k];
    assert p[..k] + (ItemsText(items) + TailOf(rest)) == p[..k] + ItemsText(items) + TailOf(rest);
  }

  lemma ReadClosed(negated: bool, items: seq<Item>, more: seq<Element>)
    requires ProperClass(negated, items, "]" + Text(more)) && Proper(more)
    ensures var es := [OneOf(negated, items)] + more;
            Proper(es) && Text(es) == "[" + (if negated then "^" else "") + ItemsText(items) + ("]" + Text(more))
  {
    hide ProperClass, ItemsText;
    var es := [OneOf(negated, items)] + more;
    assert es[1..] == more;
    var open := "[" + (if negated then "^" else "") + ItemsText(items);
    assert open + "]" + Text(more) == open + ("]" + Text(more));
  }

  lemma ReadOpen(negated: bool, items: seq<Item>)
    requires ProperClass(negated, items, "")
    ensures var es := [Unclosed(negated, items)];
            Proper(es) && Text(es) == "[" + (if negated then "^" else "") + ItemsText(items) + ""
  {
    hide ProperClass, ItemsText;
    assert [Unclosed(negated, items)][1..] == [];
  }

  lemma {:induction false} ReadBackClass(p: string)
    requires |p| > 0 && p[0] == '['
    ensures Text(Read(p)) == p && Proper(Read(p))
    decreases |p|, 0
  {
    hide ProperClass, ItemsText, ReadItems, Text, Proper;
    var negated := |p| >= 2 && p[1] == '^';
    var (items, rest) := ReadItems(p[if negated then 2 else 1..]);
    ClassReadBack(p, negated, items, rest);
    if rest.Some? {
      ReadBack(rest.value);
      ReadClosed(negated, items, Read(rest.value));
    } else {
      ReadOpen(negated, items);
    }
  }
}

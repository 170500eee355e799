/**
  How models/lhm_grammar.cpp reads the text of a character class and of a literal: what a class that was printed means
  to the one who reads it.
 */
module GrammarText {
  import opened Hiding
  import opened Wrappers
  import opened Utf8
  import opened Peg

  const BRACKET: nat := 0x5D
  const CARET: nat := 0x5E
  const DASH: nat := 0x2D
  const QUOTE: nat := 0x22

  /** A value and the position behind it. */
  datatype Parsed = Parsed(value: nat, next: nat)

  function HexValue(c: Byte): Option<nat> {
    if 0x61 <= c <= 0x66 then Some((c - 0x61 + 10) as nat)
    else if 0x41 <= c <= 0x46 then Some((c - 0x41 + 10) as nat)
    else if 0x30 <= c <= 0x39 then Some((c - 0x30) as nat)
    else None
  }

  /** `parse_hex`: n digits from i on, behind those that gave the value so far. */
  function ParseHex(text: seq<Byte>, i: nat, n: nat, value: nat): (r: Option<Parsed>)
    ensures r.Some? ==> r.value.next == i + n && (r.value.next <= |text| || n == 0)
    decreases n
  {
    if n == 0 then Some(Parsed(value, i))
    else if i >= |text| || HexValue(text[i]).None? then None
    else ParseHex(text, i + 1, n - 1, value * 16 + HexValue(text[i]).value)
  }

  /** `lookup[first_byte >> 4]` */
  function LooseLength(first: Byte): nat {
    if first < 0xC0 then 1 else if first < 0xE0 then 2 else if first < 0xF0 then 3 else 4
  }

  /** The bytes that follow are taken for continuation bytes, up to the end of the text, which is a zero byte. */
  function LooseFrom(text: seq<Byte>, i: nat, left: nat, value: nat): (r: Parsed)
    requires i <= |text|
    ensures i <= r.next <= |text| && r.next <= i + left
    decreases left
  {
    if left == 0 || i == |text| || text[i] == 0 then Parsed(value, i)
    else LooseFrom(text, i + 1, left - 1, value * 0x40 + text[i] as int % 0x40)
  }

  /** `decode_utf8` of the grammar reader; the mask is one bit wider than the payload of a first byte. */
  function LooseDecode(text: seq<Byte>, i: nat): (r: Parsed)
    requires i < |text|
    ensures i < r.next <= |text|
  {
    var len := LooseLength(text[i]);
    var mask := if len == 1 then 0x80 else if len == 2 then 0x40 else if len == 3 then 0x20 else 0x10;
    LooseFrom(text, i + 1, len - 1, text[i] as int % mask)
  }

  /** `parse_char`; none where it throws. */
  function ParseChar(text: seq<Byte>, i: nat): (r: Option<Parsed>)
    ensures r.Some? ==> i < r.value.next <= |text|
  {
    if i >= |text| || text[i] == 0 then None
    else if text[i] != BACKSLASH then Some(LooseDecode(text, i))
    else if i + 1 >= |text| then None
    else
      var c := text[i + 1];
      if c == 0x78 then ParseHex(text, i + 2, 2, 0)
      else if c == 0x75 then ParseHex(text, i + 2, 4, 0)
      else if c == 0x55 then ParseHex(text, i + 2, 8, 0)
      else if c == 0x74 then Some(Parsed(0x09, i + 2))
      else if c == 0x72 then Some(Parsed(0x0D, i + 2))
      else if c == 0x6E then Some(Parsed(0x0A, i + 2))
      else if c == BACKSLASH || c == QUOTE || c == 0x5B || c == BRACKET then Some(Parsed(c, i + 2))
      else None
  }

  /** A character, or a range of them. */
  datatype Element = Element(first: nat, last: nat)

  datatype Class = Class(negated: bool, elements: seq<Element>)

  predicate Covers(es: seq<Element>, c: nat) { exists k :: 0 <= k < |es| && es[k].first <= c <= es[k].last }

  /** `lhm_grammar_match_char` */
  predicate Matches(k: Class, c: nat) { Covers(k.elements, c) != k.negated }

  datatype Elements = Elements(elements: seq<Element>, next: nat)

  datatype Turned = Turned(element: Element, next: nat)

  /** One turn of the loop over a class: a character, and another one behind a dash that does not end the class. */
  function Turn(text: seq<Byte>, i: nat): (r: Option<Turned>)
    ensures r.Some? ==> i < r.value.next <= |text|
  {
    var c := ParseChar(text, i);
    if c.None? then None
    else
      var j := c.value.next;
      if j < |text| && text[j] == DASH && (j + 1 >= |text| || text[j + 1] != BRACKET) then
        var d := ParseChar(text, j + 1);
        if d.None? then None else Some(Turned(Element(c.value.value, d.value.value), d.value.next))
      else Some(Turned(Element(c.value.value, c.value.value), j))
  }

  /** The loop over a class, from position i on: its elements, and the position behind the bracket that ends it. */
  function ReadElements(text: seq<Byte>, i: nat): (r: Option<Elements>)
    ensures r.Some? ==> i < r.value.next <= |text|
    decreases |text| - i
  {
    if i >= |text| || text[i] == 0 then None
    else if text[i] == BRACKET then Some(Elements([], i + 1))
    else
      var t := Turn(text, i);
      if t.None? then None else Behind(t.value.element, ReadElements(text, t.value.next))
  }

  function Behind(e: Element, rest: Option<Elements>): (r: Option<Elements>)
    ensures rest.None? ==> r.None?
    ensures rest.Some? ==> r == Some(Elements([e] + rest.value.elements, rest.value.next))
  {
    if rest.None? then None else Some(Elements([e] + rest.value.elements, rest.value.next))
  }

  datatype ClassRead = ClassRead(read: Class, next: nat)

  /** The text behind an opening bracket. */
  function ReadClass(text: seq<Byte>): Option<ClassRead> {
    var negated := text != [] && text[0] == CARET;
    var r := ReadElements(text, if negated then 1 else 0);
    if r.None? then None else Some(ClassRead(Class(negated, r.value.elements), r.value.next))
  }

  /** What stands between two brackets is read as one class, up to just the second one, and the class is not empty. */
  predicate IsRead(body: seq<Byte>) {
    var r := ReadClass(body + [BRACKET]);
    r.Some? && r.value.next == |body| + 1 && r.value.read.elements != []
  }

  function ReadOf(body: seq<Byte>): Class
    requires IsRead(body)
  {
    ReadClass(body + [BRACKET]).value.read
  }

  // ---- what follows does not matter ----

  lemma {:induction false} HexLonger(text: seq<Byte>, after: seq<Byte>, i: nat, n: nat, value: nat)
    requires i + n <= |text|
    ensures ParseHex(text + after, i, n, value) == ParseHex(text, i, n, value)
    decreases n
  {
    if n > 0 {
      assert (text + after)[i] == text[i];
      if HexValue(text[i]).Some? {
        HexLonger(text, after, i + 1, n - 1, value * 16 + HexValue(text[i]).value);
      }
    }
  }

  lemma {:induction false} LooseLonger(text: seq<Byte>, after: seq<Byte>, i: nat, left: nat, value: nat)
    requires i <= |text|
    ensures var r := LooseFrom(text, i, left, value); r.next == |text| || LooseFrom(text + after, i, left, value) == r
    decreases left
  {
    if left > 0 && i < |text| {
      assert (text + after)[i] == text[i];
      if text[i] != 0 {
        LooseLonger(text, after, i + 1, left - 1, value * 0x40 + text[i] as int % 0x40);
      }
    }
  }

  lemma CharLonger(text: seq<Byte>, after: seq<Byte>, i: nat)
    requires ParseChar(text, i).Some? && ParseChar(text, i).value.next < |text|
    ensures ParseChar(text + after, i) == ParseChar(text, i)
  {
    assert (text + after)[i] == text[i];
    if text[i] != BACKSLASH {
      var len := LooseLength(text[i]);
      var mask := if len == 1 then 0x80 else if len == 2 then 0x40 else if len == 3 then 0x20 else 0x10;
      LooseLonger(text, after, i + 1, len - 1, text[i] as int % mask);
    } else {
      var c := text[i + 1];
      assert (text + after)[i + 1] == c;
      if c == 0x78 || c == 0x75 || c == 0x55 {
        HexLonger(text, after, i + 2, if c == 0x78 then 2 else if c == 0x75 then 4 else 8, 0);
      }
    }
  }

  lemma TurnLonger(text: seq<Byte>, after: seq<Byte>, i: nat)
    requires Turn(text, i).Some? && Turn(text, i).value.next < |text|
    ensures Turn(text + after, i) == Turn(text, i)
  {
    var s, j := text + after, ParseChar(text, i).value.next;
    CharLonger(text, after, i);
    assert s[j] == text[j];
    if text[j] == DASH {
      assert j + 1 < |text| ==> s[j + 1] == text[j + 1];
      if j + 1 >= |text| || text[j + 1] != BRACKET {
        CharLonger(text, after, j + 1);
      }
    }
  }

  lemma {:induction false} ElementsLonger(text: seq<Byte>, after: seq<Byte>, i: nat)
    requires ReadElements(text, i).Some?
    ensures ReadElements(text + after, i) == ReadElements(text, i)
    decreases |text| - i
  {
    assert (text + after)[i] == text[i];
    if text[i] != BRACKET {
      TurnLonger(text, after, i);
      ElementsLonger(text, after, Turn(text, i).value.next);
    }
  }

  /** A class that is read by itself is read so wherever it is printed. */
  lemma ReadAnywhere(body: seq<Byte>, after: seq<Byte>)
    requires IsRead(body)
    ensures ReadClass(body + [BRACKET] + after) == Some(ClassRead(ReadOf(body), |body| + 1))
  {
    var text := body + [BRACKET];
    assert (text + after)[0] == text[0];
    ElementsLonger(text, after, if text[0] == CARET then 1 else 0);
  }

  // ---- characters printed as they are ----

  /** A character that stands for itself in a class, whatever is around it. */
  predicate Prints(c: nat) { 0 < c < 0x80 && c != BRACKET && c != BACKSLASH && c != CARET }

  /** Bytes that can begin a character, so all but the continuation bytes of UTF-8. */
  predicate Begins(c: Byte) { c < 0x80 || c >= 0xC0 }

  lemma SingleRead(c: Byte)
    requires Prints(c)
    ensures IsRead([c]) && forall e :: Matches(ReadOf([c]), e) <==> e == c
  {
    var text: seq<Byte> := [c] + [BRACKET];
    assert text == [c, BRACKET];
    assert LooseDecode(text, 0) == Parsed(c, 1);
    assert Turn(text, 0) == Some(Turned(Element(c, c), 1));
    assert ReadElements(text, 1) == Some(Elements([], 2));
    assert ReadElements(text, 0) == Some(Elements([Element(c, c)] + [], 2));
    assert ReadClass(text).value.read.elements[0] == Element(c, c);
  }

  /** A bracket ends the class, a backslash or a first byte takes the bracket with it, and a caret negates nothing. */
  lemma SingleBroken(c: Byte)
    requires Begins(c) && !Prints(c)
    ensures !IsRead([c])
  {
    var text: seq<Byte> := [c] + [BRACKET];
    assert text == [c, BRACKET];
    if c >= 0xC0 {
      var mask := if c < 0xE0 then 0x40 else if c < 0xF0 then 0x20 else 0x10;
      assert LooseFrom(text, 1, LooseLength(c) - 1, c as int % mask).next == 2;
      assert ParseChar(text, 0).value.next == 2;
      assert ReadElements(text, 2) == None;
    } else if c == CARET {
      assert ReadElements(text, 1) == Some(Elements([], 2));
    } else if c == BACKSLASH {
      assert ParseChar(text, 0).value.next == 2 && ReadElements(text, 2) == None;
    }
  }

  /** A character that can stand behind another one. */
  predicate Inner(c: nat) { 0 < c < 0x80 && c != BRACKET && c != BACKSLASH }

  predicate AllInner(t: seq<nat>) { forall i :: 0 <= i < |t| ==> Inner(t[i]) }

  /** What such characters are read as: a dash between two others makes a range. */
  function ElementsOf(t: seq<nat>): seq<Element>
    decreases |t|
  {
    if t == [] then []
    else if |t| >= 3 && t[1] == DASH then [Element(t[0], t[2])] + ElementsOf(t[3..])
    else [Element(t[0], t[0])] + ElementsOf(t[1..])
  }

  lemma InnerChar(text: seq<Byte>, i: nat)
    requires i < |text| && Inner(text[i])
    ensures ParseChar(text, i) == Some(Parsed(text[i], i + 1))
  {
    assert text[i] as int % 0x80 == text[i];
  }

  /** One turn over characters that stand for themselves. */
  lemma InnerTurn(text: seq<Byte>, i: nat)
    requires i + 1 < |text| && Inner(text[i])
    ensures text[i + 1] != DASH || (i + 2 < |text| && text[i + 2] == BRACKET)
            ==> Turn(text, i) == Some(Turned(Element(text[i], text[i]), i + 1))
    ensures text[i + 1] == DASH && i + 2 < |text| && Inner(text[i + 2])
            ==> Turn(text, i) == Some(Turned(Element(text[i], text[i + 2]), i + 3))
  {
    InnerChar(text, i);
    if text[i + 1] == DASH && i + 2 < |text| && Inner(text[i + 2]) {
      InnerChar(text, i + 2);
    }
  }

  ghost predicate IsAt(text: seq<Byte>, i: nat, t: seq<nat>) {
    i + |t| <= |text| && forall k :: 0 <= k < |t| ==> text[i + k] == t[k] && Inner(t[k])
  }

  /** The characters t from position i on, and a bracket behind them. */
  ghost predicate Holds(text: seq<Byte>, i: nat, t: seq<nat>) {
    && i + |t| < |text| && text[i + |t|] == BRACKET
    && forall open {:trigger Open(open)} :: Open(open) ==> IsAt(text, i, t)
  }

  lemma {:induction false} InnerRead(text: seq<Byte>, i: nat, t: seq<nat>)
    requires Holds(text, i, t)
    ensures ReadElements(text, i) == Some(Elements(ElementsOf(t), i + |t| + 1))
    decreases |t|
  {
    if t == [] {
      ReadBracket(text, i);
    } else {
      var k := FirstTurn(text, i, t);
      InnerRead(text, i + k, t[k..]);
      ReadFirst(text, i, t, k);
    }
  }

  lemma ReadFirst(text: seq<Byte>, i: nat, t: seq<nat>, k: nat)
    requires i < |text| && t != [] && k == (if |t| >= 3 && t[1] == DASH then 3 else 1)
    requires Inner(text[i]) && Turn(text, i) == Some(Turned(Element(t[0], t[k - 1]), i + k))
    requires ReadElements(text, i + k) == Some(Elements(ElementsOf(t[k..]), i + |t| + 1))
    ensures ReadElements(text, i) == Some(Elements(ElementsOf(t), i + |t| + 1))
  {
    ReadTurn(text, i, Element(t[0], t[k - 1]), i + k, Elements(ElementsOf(t[k..]), i + |t| + 1));
    FirstElement(t, k);
  }

  lemma ReadBracket(text: seq<Byte>, i: nat)
    requires i < |text| && text[i] == BRACKET
    ensures ReadElements(text, i) == Some(Elements([], i + 1))
  {
  }

  lemma FirstTurn(text: seq<Byte>, i: nat, t: seq<nat>) returns (k: nat)
    requires Holds(text, i, t) && t != []
    ensures k == (if |t| >= 3 && t[1] == DASH then 3 else 1)
    ensures text[i] == t[0] && Inner(t[0]) && Holds(text, i + k, t[k..])
    ensures Turn(text, i) == Some(Turned(Element(t[0], t[k - 1]), i + k))
  {
    assert Open(0);
    assert text[i + 0] == t[0];
    assert |t| > 1 ==> text[i + 1] == t[1];
    assert |t| > 2 ==> text[i + 2] == t[2];
    InnerTurn(text, i);
    k := if |t| >= 3 && t[1] == DASH then 3 else 1;
    assert forall m :: 0 <= m < |t| - k ==> t[k..][m] == t[k + m] && text[i + (k + m)] == t[k + m];
  }

  lemma ReadTurn(text: seq<Byte>, i: nat, e: Element, next: nat, rest: Elements)
    requires i < |text| && text[i] != 0 && text[i] != BRACKET && Turn(text, i) == Some(Turned(e, next))
    requires ReadElements(text, next) == Some(rest)
    ensures ReadElements(text, i) == Some(Elements([e] + rest.elements, rest.next))
  {
  }

  lemma FirstElement(t: seq<nat>, k: nat)
    requires t != [] && k == if |t| >= 3 && t[1] == DASH then 3 else 1
    ensures ElementsOf(t) == [Element(t[0], t[k - 1])] + ElementsOf(t[k..])
  {
  }

  // ---- what they mean ----

  predicate Listed(t: seq<nat>, e: nat) { exists k :: 0 <= k < |t| && t[k] == e }

  predicate Ascending(t: seq<nat>) { forall i, j :: 0 <= i < j < |t| ==> t[i] < t[j] }

  /** There is one dash at most, and its neighbours are on their sides of it. */
  predicate DashInOrder(t: seq<nat>) {
    && (forall i, j :: 0 <= i < j < |t| ==> t[i] != DASH || t[j] != DASH)
    && forall d :: 0 < d < |t| && t[d] == DASH ==> t[d - 1] < DASH && (d + 1 < |t| ==> DASH < t[d + 1])
  }

  /** e lies between the neighbours of a dash. */
  predicate Spanned(t: seq<nat>, e: nat) { exists d :: 0 < d && d + 1 < |t| && SpannedAt(t, d, e) }

  predicate SpannedAt(t: seq<nat>, d: nat, e: nat)
    requires 0 < d && d + 1 < |t|
  {
    t[d] == DASH && t[d - 1] < e < t[d + 1]
  }

  lemma CoversMore(e: Element, es: seq<Element>, c: nat)
    ensures Covers([e] + es, c) <==> e.first <= c <= e.last || Covers(es, c)
  {
    var all := [e] + es;
    assert all[0] == e && forall k :: 0 < k < |all| ==> all[k] == es[k - 1];
    if k :| 0 <= k < |es| && es[k].first <= c <= es[k].last {
      assert all[k + 1] == es[k];
    }
  }

  lemma ListedMore(t: seq<nat>, n: nat, e: nat)
    requires n <= |t|
    ensures Listed(t, e) <==> Listed(t[..n], e) || Listed(t[n..], e)
  {
    if k :| 0 <= k < |t| && t[k] == e {
      assert if k < n then t[..n][k] == e else t[n..][k - n] == e;
    }
    if k :| 0 <= k < n && t[..n][k] == e {
      assert t[k] == e;
    }
    if k :| 0 <= k < |t| - n && t[n..][k] == e {
      assert t[n + k] == e;
    }
  }

  /** Characters in this order are read as themselves, and as all that lies between the neighbours of a dash. */
  lemma {:induction false} ElementsMean(t: seq<nat>, e: nat)
    requires DashInOrder(t)
    ensures Covers(ElementsOf(t), e) <==> Listed(t, e) || Spanned(t, e)
    decreases |t|
  {
    if t != [] {
      var k := if |t| >= 3 && t[1] == DASH then 3 else 1;
      FirstElement(t, k);
      CoversMore(Element(t[0], t[k - 1]), ElementsOf(t[k..]), e);
      TailInOrder(t, k);
      ElementsMean(t[k..], e);
      ListedMore(t, k, e);
      FirstListed(t, k, e);
      SpannedMore(t, k, e);
    }
  }

  lemma TailInOrder(t: seq<nat>, k: nat)
    requires DashInOrder(t) && k <= |t|
    ensures DashInOrder(t[k..])
  {
  }

  lemma FirstListed(t: seq<nat>, k: nat, e: nat)
    requires DashInOrder(t) && t != [] && k == if |t| >= 3 && t[1] == DASH then 3 else 1
    ensures t[0] <= e <= t[k - 1] <==> Listed(t[..k], e) || (k == 3 && t[0] < e < t[2])
  {
    assert t[..k][0] == t[0] && t[..k][k - 1] == t[k - 1];
    if k == 3 {
      assert t[..k][1] == DASH;
    }
  }

  lemma SpannedMore(t: seq<nat>, k: nat, e: nat)
    requires DashInOrder(t) && t != [] && k == if |t| >= 3 && t[1] == DASH then 3 else 1
    ensures Spanned(t, e) <==> (k == 3 && t[0] < e < t[2]) || Spanned(t[k..], e)
  {
    var u := t[k..];
    if d :| 0 < d && d + 1 < |t| && SpannedAt(t, d, e) {
      assert k == 3 ==> d == 1;
      assert k == 1 ==> d > 1 && SpannedAt(u, d - 1, e);
    }
    if k == 3 && t[0] < e < t[2] {
      assert SpannedAt(t, 1, e);
    }
    if d :| 0 < d && d + 1 < |u| && SpannedAt(u, d, e) {
      assert SpannedAt(t, d + k, e);
    }
  }

  // ---- the class of what is not listed ----

  /** The quote and the characters of s, as `[^"...]` prints them. */
  function RejectBody(s: seq<Byte>): seq<Byte> { [CARET, QUOTE] + s }

  predicate AllPrint(s: seq<nat>) { forall i :: 0 <= i < |s| ==> Prints(s[i]) }

  lemma RejectRead(s: seq<Byte>)
    requires AllPrint(s)
    ensures IsRead(RejectBody(s)) && ReadOf(RejectBody(s)) == Class(true, ElementsOf([QUOTE] + s))
  {
    var text, t := RejectBody(s) + [BRACKET], [QUOTE] + s;
    assert text[0] == CARET && Holds(text, 1, t);
    InnerRead(text, 1, t);
  }

  /** e lies between the neighbours of the dash in s, the quote being before all of s. */
  predicate Swallowed(s: seq<nat>, e: nat) {
    exists d :: 0 <= d && d + 1 < |s| && SwallowedAt(s, d, e)
  }

  predicate SwallowedAt(s: seq<nat>, d: nat, e: nat)
    requires d + 1 < |s|
  {
    s[d] == DASH && (if d == 0 then QUOTE else s[d - 1]) < e < s[d + 1]
  }

  lemma QuoteListed(s: seq<nat>, e: nat)
    ensures Listed([QUOTE] + s, e) <==> e == QUOTE || Listed(s, e)
  {
    var t := [QUOTE] + s;
    assert t[..1] == [QUOTE] && t[1..] == s && [QUOTE][0] == QUOTE;
    ListedMore(t, 1, e);
  }

  lemma QuoteSpanned(s: seq<nat>, e: nat)
    ensures Spanned([QUOTE] + s, e) <==> Swallowed(s, e)
  {
    var t := [QUOTE] + s;
    if d :| 0 <= d && d + 1 < |s| && SwallowedAt(s, d, e) {
      QuoteSpannedAt(s, d, e);
      assert SpannedAt(t, d + 1, e);
    }
    if d :| 0 < d && d + 1 < |t| && SpannedAt(t, d, e) {
      QuoteSpannedAt(s, d - 1, e);
      assert SwallowedAt(s, d - 1, e);
    }
  }

  lemma QuoteSpannedAt(s: seq<nat>, d: nat, e: nat)
    requires d + 1 < |s|
    ensures SpannedAt([QUOTE] + s, d + 1, e) <==> SwallowedAt(s, d, e)
  {
  }

  lemma QuoteInOrder(s: seq<nat>)
    requires Ascending(s)
    ensures DashInOrder([QUOTE] + s)
  {
    var t := [QUOTE] + s;
    assert t[0] == QUOTE && forall i :: 0 < i < |t| ==> t[i] == s[i - 1];
  }

  lemma RejectMeans(s: seq<Byte>, e: nat)
    requires AllPrint(s) && Ascending(s)
    ensures IsRead(RejectBody(s))
    ensures Matches(ReadOf(RejectBody(s)), e) <==> e != QUOTE && !Listed(s, e) && !Swallowed(s, e)
  {
    RejectRead(s);
    QuoteInOrder(s);
    ElementsMean([QUOTE] + s, e);
    QuoteListed(s, e);
    QuoteSpanned(s, e);
  }
}

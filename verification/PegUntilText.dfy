/**
  The text that common/peg_parser.cpp prints for `until`, and what models/lhm_grammar.cpp reads from it. The structure
  of the pattern is that of PegUntil; here its literals and its classes are text.
 */
module PegUntilText {
  import opened Hiding
  import opened Wrappers
  import opened Utf8
  import opened Peg
  import opened GrammarText
  import opened PegUntil
  import opened PegTrie

  // ---- characters of a class ----

  function HexDigit(d: nat): Byte
    requires d < 16
  {
    if d < 10 then 0x30 + d else 0x41 + d - 10
  }

  /** The last n hexadecimal digits of c. */
  function HexText(c: nat, n: nat): (s: seq<Byte>)
    ensures |s| == n
  {
    if n == 0 then [] else HexText(c / 16, n - 1) + [HexDigit(c % 16)]
  }

  predicate HasDigits(c: nat, n: nat) { if n == 0 then c == 0 else HasDigits(c / 16, n - 1) }

  /** `gbnf_escape_char_class` */
  function EscapeClass(c: nat): (s: seq<Byte>)
    ensures 1 <= |s| && s[0] != DASH && s[0] != BRACKET && s[0] != 0
  {
    if c == DASH || c == BRACKET || c == 0x5B || c == BACKSLASH then [BACKSLASH, c]
    else if c == 0x0A then [BACKSLASH, 0x6E]
    else if c == 0x09 then [BACKSLASH, 0x74]
    else if c == 0x0D then [BACKSLASH, 0x72]
    else if 0x20 <= c <= 0x7E then [c]
    else if c <= 0xFF then [BACKSLASH, 0x78] + HexText(c, 2)
    else if c <= 0xFFFF then [BACKSLASH, 0x75] + HexText(c, 4)
    else [BACKSLASH, 0x55] + HexText(c, 8)
  }

  /** s stands in the text at i. */
  predicate At(text: seq<Byte>, i: nat, s: seq<Byte>) { i + |s| <= |text| && text[i..i + |s|] == s }

  lemma AtParts(text: seq<Byte>, i: nat, a: seq<Byte>, b: seq<Byte>)
    requires At(text, i, a + b)
    ensures At(text, i, a) && At(text, i + |a|, b)
  {
    var s := text[i..i + |a + b|];
    assert s[..|a|] == a && s[|a|..] == b;
    assert text[i..i + |a|] == s[..|a|] && text[i + |a|..i + |a| + |b|] == s[|a|..];
  }

  lemma AtFirst(text: seq<Byte>, i: nat, s: seq<Byte>)
    requires At(text, i, s) && s != []
    ensures i < |text| && text[i] == s[0]
  {
    assert text[i..i + |s|][0] == text[i];
  }

  lemma AtSecond(text: seq<Byte>, i: nat, s: seq<Byte>)
    requires At(text, i, s) && |s| >= 2
    ensures i + 1 < |text| && text[i] == s[0] && text[i + 1] == s[1]
  {
    assert text[i..i + |s|][0] == text[i] && text[i..i + |s|][1] == text[i + 1];
  }

  /** The last digit is read last. */
  lemma {:induction false} HexLast(text: seq<Byte>, i: nat, n: nat, value: nat)
    requires n >= 1 && i + n <= |text| && HexValue(text[i + n - 1]).Some?
    requires ParseHex(text, i, n - 1, value).Some?
    ensures ParseHex(text, i, n, value)
         == Some(Parsed(ParseHex(text, i, n - 1, value).value.value * 16 + HexValue(text[i + n - 1]).value, i + n))
    decreases n
  {
    var next := value * 16 + HexValue(text[i]).value;
    if n > 1 {
      HexLast(text, i + 1, n - 1, next);
    } else {
      assert ParseHex(text, i + 1, 0, next) == Some(Parsed(next, i + 1));
    }
  }

  lemma {:induction false} HexRead(text: seq<Byte>, i: nat, c: nat, n: nat)
    requires At(text, i, HexText(c, n)) && HasDigits(c, n)
    ensures ParseHex(text, i, n, 0) == Some(Parsed(c, i + n))
    decreases n
  {
    if n > 0 {
      AtParts(text, i, HexText(c / 16, n - 1), [HexDigit(c % 16)]);
      AtFirst(text, i + n - 1, [HexDigit(c % 16)]);
      HexRead(text, i, c / 16, n - 1);
      HexLast(text, i, n, 0);
    }
  }

  lemma DigitsOf(c: nat)
    ensures c <= 0xFF ==> HasDigits(c, 2)
    ensures c <= 0xFFFF ==> HasDigits(c, 4)
  {
    if c <= 0xFF {
      assert HasDigits(c / 16, 1);
    }
    if c <= 0xFFFF {
      assert c / 16 / 16 <= 0xFF && HasDigits(c / 16 / 16 / 16, 1);
      assert HasDigits(c / 16 / 16, 2) && HasDigits(c / 16, 3);
    }
  }

  lemma EightDigits(c: nat)
    requires c < 0x1_0000_0000
    ensures HasDigits(c, 8)
  {
    var d := c / 16 / 16 / 16 / 16;
    DigitsOf(d);
    assert HasDigits(c / 16 / 16 / 16, 5) && HasDigits(c / 16 / 16, 6) && HasDigits(c / 16, 7);
  }

  /** What is printed for a character is read as the character, except for the dash, whose escape is not known. */
  lemma EscapedChar(text: seq<Byte>, i: nat, c: nat)
    requires At(text, i, EscapeClass(c)) && c < 0x1_0000_0000
    ensures ParseChar(text, i) == if c == DASH then None else Some(Parsed(c, i + |EscapeClass(c)|))
  {
    var s := EscapeClass(c);
    AtFirst(text, i, s);
    if |s| == 1 {
      assert text[i] as int % 0x80 == text[i];
    } else if |s| == 2 {
      AtSecond(text, i, s);
    } else {
      DigitsOf(c);
      EightDigits(c);
      HexChar(text, i, c, s[1], |s| - 2);
    }
  }

  lemma HexChar(text: seq<Byte>, i: nat, c: nat, letter: Byte, n: nat)
    requires At(text, i, [BACKSLASH, letter] + HexText(c, n)) && HasDigits(c, n)
    requires letter == (if n == 2 then 0x78 else if n == 4 then 0x75 else 0x55) && (n == 2 || n == 4 || n == 8)
    ensures ParseChar(text, i) == Some(Parsed(c, i + 2 + n))
  {
    AtParts(text, i, [BACKSLASH, letter], HexText(c, n));
    AtSecond(text, i, [BACKSLASH, letter]);
    HexRead(text, i + 2, c, n);
  }

  function Escaped(cs: seq<nat>): seq<Byte> {
    if cs == [] then [] else EscapeClass(cs[0]) + Escaped(cs[1..])
  }

  /** The text between the brackets of a class of all characters but those of cs. */
  function ClassBody(cs: seq<nat>): seq<Byte> { [CARET] + Escaped(cs) }

  function Singles(cs: seq<nat>): (es: seq<Element>)
    ensures |es| == |cs| && forall k :: 0 <= k < |cs| ==> es[k] == Element(cs[k], cs[k])
  {
    seq(|cs|, k requires 0 <= k < |cs| => Element(cs[k], cs[k]))
  }

  predicate AllWide(cs: seq<nat>) { forall k :: 0 <= k < |cs| ==> cs[k] < 0x1_0000_0000 }

  /** One turn at a printed character; what follows it is never a dash. */
  lemma EscapedTurn(text: seq<Byte>, i: nat, c: nat)
    requires At(text, i, EscapeClass(c)) && c < 0x1_0000_0000
    requires i + |EscapeClass(c)| < |text| && text[i + |EscapeClass(c)|] != DASH
    ensures Turn(text, i) == if c == DASH then None else Some(Turned(Element(c, c), i + |EscapeClass(c)|))
  {
    EscapedChar(text, i, c);
  }

  lemma NextByte(text: seq<Byte>, i: nat, cs: seq<nat>)
    requires At(text, i, Escaped(cs) + [BRACKET])
    ensures i < |text| && text[i] != DASH && text[i] != 0 && (text[i] == BRACKET <==> cs == [])
  {
    AtFirst(text, i, Escaped(cs) + [BRACKET]);
  }

  lemma {:induction false} EscapedElements(text: seq<Byte>, i: nat, cs: seq<nat>, end: nat)
    requires At(text, i, Escaped(cs) + [BRACKET]) && AllWide(cs) && !Listed(cs, DASH)
    requires end == i + |Escaped(cs)| + 1
    ensures ReadElements(text, i) == Some(Elements(Singles(cs), end))
    decreases |cs|
  {
    if cs == [] {
      EscapedEnd(text, i);
    } else {
      FirstOrRest(cs, DASH);
      var next := EscapedParts(text, i, cs);
      EscapedElements(text, next, cs[1..], end);
      EscapedStep(text, i, cs, next, end);
    }
  }

  lemma EscapedEnd(text: seq<Byte>, i: nat)
    requires At(text, i, Escaped([]) + [BRACKET])
    ensures ReadElements(text, i) == Some(Elements(Singles([]), i + 1))
  {
    NextByte(text, i, []);
    ReadBracket(text, i);
  }

  lemma EscapedStep(text: seq<Byte>, i: nat, cs: seq<nat>, next: nat, end: nat)
    requires cs != [] && Turns(text, i, cs[0], next) && cs[0] != DASH
    requires ReadElements(text, next) == Some(Elements(Singles(cs[1..]), end))
    ensures ReadElements(text, i) == Some(Elements(Singles(cs), end))
  {
    assert Open(0);
    ReadTurn(text, i, Element(cs[0], cs[0]), next, Elements(Singles(cs[1..]), end));
    FirstSingle(cs);
  }

  lemma {:induction false} DashFails(text: seq<Byte>, i: nat, cs: seq<nat>)
    requires At(text, i, Escaped(cs) + [BRACKET]) && AllWide(cs) && Listed(cs, DASH)
    ensures ReadElements(text, i) == None
    decreases |cs|
  {
    FirstOrRest(cs, DASH);
    var next := EscapedParts(text, i, cs);
    if cs[0] != DASH {
      DashFails(text, next, cs[1..]);
      DashStep(text, i, cs[0], next);
    } else {
      assert Open(0);
    }
  }

  lemma DashStep(text: seq<Byte>, i: nat, c: nat, next: nat)
    requires Turns(text, i, c, next) && c != DASH && ReadElements(text, next) == None
    ensures ReadElements(text, i) == None
  {
    assert Open(0);
    ReadFails(text, i, Element(c, c), next);
  }

  lemma FirstSingle(cs: seq<nat>)
    requires cs != []
    ensures [Element(cs[0], cs[0])] + Singles(cs[1..]) == Singles(cs)
  {
  }

  lemma ReadFails(text: seq<Byte>, i: nat, e: Element, next: nat)
    requires i < |text| && text[i] != BRACKET && Turn(text, i) == Some(Turned(e, next))
    requires ReadElements(text, next) == None
    ensures ReadElements(text, i) == None
  {
  }

  lemma EscapedSplit(text: seq<Byte>, i: nat, a: seq<Byte>, b: seq<Byte>, s: seq<Byte>)
    requires At(text, i, s + [BRACKET]) && s == a + b
    ensures At(text, i, a) && At(text, i + |a|, b + [BRACKET])
  {
    assert s + [BRACKET] == a + (b + [BRACKET]);
    AtParts(text, i, a, b + [BRACKET]);
  }

  /** The turn at i is over the character c, and it fails for the dash. */
  ghost predicate Turns(text: seq<Byte>, i: nat, c: nat, next: nat) {
    && i < |text|
    && forall k {:trigger Open(k)} ::
         Open(k) ==>
           && text[i] != 0 && text[i] != BRACKET
           && Turn(text, i) == if c == DASH then None else Some(Turned(Element(c, c), next))
  }

  lemma EscapedParts(text: seq<Byte>, i: nat, cs: seq<nat>) returns (next: nat)
    requires At(text, i, Escaped(cs) + [BRACKET]) && cs != [] && AllWide(cs)
    ensures Turns(text, i, cs[0], next) && At(text, next, Escaped(cs[1..]) + [BRACKET])
    ensures next + |Escaped(cs[1..])| == i + |Escaped(cs)|
  {
    next := EscapedNext(text, i, cs);
    TurnsAt(text, i, cs[0], cs[1..], next);
  }

  lemma EscapedNext(text: seq<Byte>, i: nat, cs: seq<nat>) returns (next: nat)
    requires At(text, i, Escaped(cs) + [BRACKET]) && cs != []
    ensures At(text, i, EscapeClass(cs[0])) && next == i + |EscapeClass(cs[0])|
    ensures At(text, next, Escaped(cs[1..]) + [BRACKET]) && next + |Escaped(cs[1..])| == i + |Escaped(cs)|
  {
    next := i + |EscapeClass(cs[0])|;
    EscapedSplit(text, i, EscapeClass(cs[0]), Escaped(cs[1..]), Escaped(cs));
  }

  lemma TurnsAt(text: seq<Byte>, i: nat, c: nat, rest: seq<nat>, next: nat)
    requires At(text, i, EscapeClass(c)) && next == i + |EscapeClass(c)| && c < 0x1_0000_0000
    requires At(text, next, Escaped(rest) + [BRACKET])
    ensures Turns(text, i, c, next)
  {
    AtFirst(text, i, EscapeClass(c));
    NextByte(text, next, rest);
    EscapedTurn(text, i, c);
  }

  lemma FirstOrRest(cs: seq<nat>, e: nat)
    requires cs != []
    ensures Listed(cs, e) <==> cs[0] == e || Listed(cs[1..], e)
  {
    ListedMore(cs, 1, e);
    assert cs[..1] == [cs[0]] && [cs[0]][0] == cs[0];
    assert Listed(cs[..1], e) <==> cs[0] == e;
  }

  lemma SinglesCover(cs: seq<nat>, e: nat)
    ensures Covers(Singles(cs), e) <==> Listed(cs, e)
  {
    if k :| 0 <= k < |cs| && cs[k] == e {
      assert Singles(cs)[k] == Element(e, e);
    }
  }

  /** A class is read back if and only if no dash is printed into it; it then rejects what is printed in it. */
  lemma ClassReadIff(cs: seq<nat>)
    requires cs != [] && AllWide(cs)
    ensures IsRead(ClassBody(cs)) <==> !Listed(cs, DASH)
    ensures IsRead(ClassBody(cs)) ==> ReadOf(ClassBody(cs)) == Class(true, Singles(cs))
  {
    if Listed(cs, DASH) {
      DashUnread(cs);
    } else {
      ClassKept(cs);
    }
  }

  lemma ClassKept(cs: seq<nat>)
    requires cs != [] && AllWide(cs) && !Listed(cs, DASH)
    ensures IsRead(ClassBody(cs)) && ReadOf(ClassBody(cs)) == Class(true, Singles(cs))
  {
    ClassElements(cs);
    ClassIs(cs);
  }

  lemma ClassElements(cs: seq<nat>)
    requires AllWide(cs) && !Listed(cs, DASH)
    ensures ReadElements(ClassBody(cs) + [BRACKET], 1) == Some(Elements(Singles(cs), |ClassBody(cs)| + 1))
  {
    BodyAt(cs);
    EscapedElements(ClassBody(cs) + [BRACKET], 1, cs, |ClassBody(cs)| + 1);
  }

  lemma DashUnread(cs: seq<nat>)
    requires AllWide(cs) && Listed(cs, DASH)
    ensures !IsRead(ClassBody(cs))
  {
    BodyAt(cs);
    DashFails(ClassBody(cs) + [BRACKET], 1, cs);
  }

  lemma BodyAt(cs: seq<nat>)
    ensures var text := ClassBody(cs) + [BRACKET]; At(text, 1, Escaped(cs) + [BRACKET]) && text[0] == CARET
  {
    var text := ClassBody(cs) + [BRACKET];
    assert text == [CARET] + (Escaped(cs) + [BRACKET]);
    AtParts(text, 0, [CARET], Escaped(cs) + [BRACKET]);
  }

  lemma ClassIs(cs: seq<nat>)
    requires cs != []
    requires ReadElements(ClassBody(cs) + [BRACKET], 1) == Some(Elements(Singles(cs), |ClassBody(cs)| + 1))
    ensures IsRead(ClassBody(cs)) && ReadOf(ClassBody(cs)) == Class(true, Singles(cs))
  {
    assert (ClassBody(cs) + [BRACKET])[0] == CARET;
  }

  lemma ClassRejects(cs: seq<nat>, e: nat)
    requires cs != [] && AllWide(cs) && IsRead(ClassBody(cs))
    ensures Matches(ReadOf(ClassBody(cs)), e) <==> !Listed(cs, e)
  {
    ClassReadIff(cs);
    SinglesCover(cs, e);
  }

  // ---- literals ----

  /** What `format_literal` puts for a byte. */
  function EscapeByte(b: Byte): (s: seq<Byte>)
    ensures s != [] && s[0] != QUOTE && (s[0] == 0 <==> b == 0)
  {
    if b == 0x0D then [BACKSLASH, 0x72]
    else if b == 0x0A then [BACKSLASH, 0x6E]
    else if b == QUOTE || b == BACKSLASH then [BACKSLASH, b]
    else [b]
  }

  /** `format_literal`, without the quotes. */
  function FormatLiteral(s: seq<Byte>): seq<Byte> {
    if s == [] then [] else EscapeByte(s[0]) + FormatLiteral(s[1..])
  }

  datatype Quoted = Quoted(chars: seq<nat>, next: nat)

  /** The loop over a literal, from position i on, up to the quote that ends it. */
  function ReadLiteral(text: seq<Byte>, i: nat): (r: Option<Quoted>)
    decreases |text| - i
  {
    if i >= |text| || text[i] == 0 then None
    else if text[i] == QUOTE then Some(Quoted([], i + 1))
    else
      var c := ParseChar(text, i);
      if c.None? then None else OneMoreChar(c.value.value, ReadLiteral(text, c.value.next))
  }

  function OneMoreChar(c: nat, rest: Option<Quoted>): Option<Quoted> {
    if rest.None? then None else Some(Quoted([c] + rest.value.chars, rest.value.next))
  }

  predicate LiteralIsRead(s: seq<Byte>) {
    var r := ReadLiteral(s + [QUOTE], 0);
    r.Some? && r.value.next == |s| + 1
  }

  function LiteralOf(s: seq<Byte>): seq<nat>
    requires LiteralIsRead(s)
  {
    ReadLiteral(s + [QUOTE], 0).value.chars
  }

  lemma {:induction false} FormatAppend(a: seq<Byte>, b: seq<Byte>)
    ensures FormatLiteral(a + b) == FormatLiteral(a) + FormatLiteral(b)
    decreases |a|
  {
    if a == [] {
      assert a + b == b;
    } else {
      FormatAppend(a[1..], b);
      assert (a + b)[1..] == a[1..] + b;
    }
  }

  /** Bytes of longer characters are not escaped. */
  lemma {:induction false} FormatLong(s: seq<Byte>)
    requires forall k :: 0 <= k < |s| ==> s[k] >= 0x80
    ensures FormatLiteral(s) == s
  {
    if s != [] {
      FormatLong(s[1..]);
    }
  }

  lemma LooseOne(text: seq<Byte>, i: nat, value: nat)
    requires i < |text| && text[i] >= 0x80
    ensures LooseFrom(text, i, 1, value) == Parsed(value * 0x40 + text[i] as int % 0x40, i + 1)
  {
    assert LooseFrom(text, i + 1, 0, value * 0x40 + text[i] as int % 0x40)
        == Parsed(value * 0x40 + text[i] as int % 0x40, i + 1);
  }

  lemma LooseTwo(text: seq<Byte>, i: nat, value: nat)
    requires i + 1 < |text| && text[i] >= 0x80 && text[i + 1] >= 0x80
    ensures LooseFrom(text, i, 2, value)
         == Parsed((value * 0x40 + text[i] as int % 0x40) * 0x40 + text[i + 1] as int % 0x40, i + 2)
  {
    LooseOne(text, i + 1, value * 0x40 + text[i] as int % 0x40);
  }

  lemma LooseThree(text: seq<Byte>, i: nat, value: nat)
    requires i + 2 < |text| && text[i] >= 0x80 && text[i + 1] >= 0x80 && text[i + 2] >= 0x80
    ensures LooseFrom(text, i, 3, value)
         == Parsed(((value * 0x40 + text[i] as int % 0x40) * 0x40 + text[i + 1] as int % 0x40) * 0x40
                   + text[i + 2] as int % 0x40, i + 3)
  {
    LooseTwo(text, i + 1, value * 0x40 + text[i] as int % 0x40);
  }

  lemma LeadTwo(c: nat)
    requires 0x80 <= c <= 0x7FF
    ensures (0xC0 + c / 0x40 % 0x20) % 0x40 == c / 0x40
    ensures c / 0x40 * 0x40 + (0x80 + c % 0x40) % 0x40 == c
  {
  }

  lemma LeadThree(c: nat)
    requires 0x800 <= c <= 0xFFFF
    ensures (0xE0 + c / 0x1000 % 0x10) % 0x20 == c / 0x1000
    ensures (c / 0x1000 * 0x40 + (0x80 + c / 0x40 % 0x40) % 0x40) * 0x40 + (0x80 + c % 0x40) % 0x40 == c
  {
    assert c / 0x1000 == c / 0x40 / 0x40;
  }

  lemma LeadFour(c: nat)
    requires 0x1_0000 <= c <= 0x10_FFFF
    ensures (0xF0 + c / 0x40000 % 8) % 0x10 == c / 0x40000
    ensures ((c / 0x40000 * 0x40 + (0x80 + c / 0x1000 % 0x40) % 0x40) * 0x40
             + (0x80 + c / 0x40 % 0x40) % 0x40) * 0x40 + (0x80 + c % 0x40) % 0x40 == c
  {
    assert c / 0x1000 == c / 0x40 / 0x40 && c / 0x40000 == c / 0x1000 / 0x40;
  }

  lemma LooseLong(text: seq<Byte>, i: nat, c: CodePoint)
    requires At(text, i, Encode(c)) && c >= 0x80
    ensures LooseDecode(text, i) == Parsed(c, i + |Encode(c)|)
  {
    AtSecond(text, i, Encode(c));
    if c <= 0x7FF {
      LeadTwo(c);
      LooseOne(text, i + 1, c / 0x40);
    } else if c <= 0xFFFF {
      AtThird(text, i, Encode(c));
      LeadThree(c);
      LooseTwo(text, i + 1, c / 0x1000);
    } else {
      AtThird(text, i, Encode(c));
      assert text[i..i + 4][3] == text[i + 3];
      LeadFour(c);
      LooseThree(text, i + 1, c / 0x40000);
    }
  }

  lemma AtThird(text: seq<Byte>, i: nat, s: seq<Byte>)
    requires At(text, i, s) && |s| >= 3
    ensures i + 2 < |text| && text[i + 2] == s[2]
  {
    assert text[i..i + |s|][2] == text[i + 2];
  }

  lemma FormattedLong(text: seq<Byte>, i: nat, c: CodePoint)
    requires At(text, i, FormatLiteral(Encode(c))) && c >= 0x80
    ensures i < |text| && text[i] != QUOTE && text[i] != 0
    ensures ParseChar(text, i) == Some(Parsed(c, i + |FormatLiteral(Encode(c))|))
  {
    FormatLong(Encode(c));
    LooseLong(text, i, c);
    AtFirst(text, i, Encode(c));
  }

  lemma FormattedShort(text: seq<Byte>, i: nat, c: Byte)
    requires At(text, i, EscapeByte(c)) && c < 0x80
    ensures i < |text| && text[i] != QUOTE && (text[i] == 0 <==> c == 0)
    ensures c != 0 ==> ParseChar(text, i) == Some(Parsed(c, i + |EscapeByte(c)|))
  {
    AtFirst(text, i, EscapeByte(c));
    if |EscapeByte(c)| >= 2 {
      AtSecond(text, i, EscapeByte(c));
    } else {
      assert text[i] as int % 0x80 == c;
    }
  }

  lemma FormatShort(c: CodePoint)
    requires c < 0x80
    ensures FormatLiteral(Encode(c)) == EscapeByte(c)
  {
    assert FormatLiteral([c]) == EscapeByte(c) + FormatLiteral([]);
  }

  /** The character at i is c. */
  ghost predicate Stands(text: seq<Byte>, i: nat, c: nat, next: nat) {
    && i < |text|
    && forall k {:trigger Open(k)} ::
         Open(k) ==>
           && text[i] != QUOTE && (text[i] == 0 <==> c == 0)
           && (c != 0 ==> ParseChar(text, i) == Some(Parsed(c, next)))
  }

  /** A character of a literal, escaped byte by byte, is read as the character. */
  lemma FormattedChar(text: seq<Byte>, i: nat, c: CodePoint, next: nat)
    requires At(text, i, FormatLiteral(Encode(c))) && next == i + |FormatLiteral(Encode(c))|
    ensures Stands(text, i, c, next)
  {
    if c >= 0x80 {
      FormattedLong(text, i, c);
    } else {
      FormatShort(c);
      ShortStands(text, i, c, next);
    }
  }

  lemma ShortStands(text: seq<Byte>, i: nat, c: Byte, next: nat)
    requires At(text, i, EscapeByte(c)) && c < 0x80 && next == i + |EscapeByte(c)|
    ensures Stands(text, i, c, next)
  {
    FormattedShort(text, i, c);
  }

  lemma {:induction false} FormattedRead(text: seq<Byte>, i: nat, cps: seq<CodePoint>, end: nat)
    requires At(text, i, FormatLiteral(EncodeAll(cps)) + [QUOTE]) && !Listed(cps, 0)
    requires end == i + |FormatLiteral(EncodeAll(cps))| + 1
    ensures ReadLiteral(text, i) == Some(Quoted(cps, end))
    decreases |cps|
  {
    if cps == [] {
      FormattedEnd(text, i);
    } else {
      FirstOrRest(cps, 0);
      var next := FormattedParts(text, i, cps);
      FormattedRead(text, next, cps[1..], end);
      FormattedStep(text, i, cps, next, end);
    }
  }

  lemma FormattedEnd(text: seq<Byte>, i: nat)
    requires At(text, i, FormatLiteral(EncodeAll([])) + [QUOTE])
    ensures ReadLiteral(text, i) == Some(Quoted([], i + 1))
  {
    assert FormatLiteral(EncodeAll([])) + [QUOTE] == [QUOTE];
    AtFirst(text, i, [QUOTE]);
  }

  /** The reader takes a zero for the end of the text. */
  lemma {:induction false} ZeroFails(text: seq<Byte>, i: nat, cps: seq<CodePoint>)
    requires At(text, i, FormatLiteral(EncodeAll(cps)) + [QUOTE]) && Listed(cps, 0)
    ensures ReadLiteral(text, i) == None
    decreases |cps|
  {
    FirstOrRest(cps, 0);
    var next := FormattedParts(text, i, cps);
    if cps[0] != 0 {
      ZeroFails(text, next, cps[1..]);
      ZeroStep(text, i, cps[0], next);
    } else {
      assert Open(0);
    }
  }

  lemma ZeroStep(text: seq<Byte>, i: nat, c: nat, next: nat)
    requires Stands(text, i, c, next) && c != 0 && ReadLiteral(text, next) == None
    ensures ReadLiteral(text, i) == None
  {
    assert Open(0);
  }

  lemma FormattedParts(text: seq<Byte>, i: nat, cps: seq<CodePoint>) returns (next: nat)
    requires At(text, i, FormatLiteral(EncodeAll(cps)) + [QUOTE]) && cps != []
    ensures Stands(text, i, cps[0], next) && At(text, next, FormatLiteral(EncodeAll(cps[1..])) + [QUOTE])
    ensures next + |FormatLiteral(EncodeAll(cps[1..]))| == i + |FormatLiteral(EncodeAll(cps))|
  {
    next := FormattedNext(text, i, cps);
    FormattedChar(text, i, cps[0], next);
  }

  lemma FormattedNext(text: seq<Byte>, i: nat, cps: seq<CodePoint>) returns (next: nat)
    requires At(text, i, FormatLiteral(EncodeAll(cps)) + [QUOTE]) && cps != []
    ensures At(text, i, FormatLiteral(Encode(cps[0]))) && next == i + |FormatLiteral(Encode(cps[0]))|
    ensures At(text, next, FormatLiteral(EncodeAll(cps[1..])) + [QUOTE])
    ensures next + |FormatLiteral(EncodeAll(cps[1..]))| == i + |FormatLiteral(EncodeAll(cps))|
  {
    FirstFormatted(cps);
    var a, b := FormatLiteral(Encode(cps[0])), FormatLiteral(EncodeAll(cps[1..]));
    next := i + |a|;
    QuotedSplit(text, i, a, b, FormatLiteral(EncodeAll(cps)));
  }

  lemma FirstFormatted(cps: seq<CodePoint>)
    requires cps != []
    ensures FormatLiteral(EncodeAll(cps)) == FormatLiteral(Encode(cps[0])) + FormatLiteral(EncodeAll(cps[1..]))
  {
    FormatAppend(Encode(cps[0]), EncodeAll(cps[1..]));
  }

  lemma QuotedSplit(text: seq<Byte>, i: nat, a: seq<Byte>, b: seq<Byte>, s: seq<Byte>)
    requires At(text, i, s + [QUOTE]) && s == a + b
    ensures At(text, i, a) && At(text, i + |a|, b + [QUOTE])
  {
    assert s + [QUOTE] == a + (b + [QUOTE]);
    AtParts(text, i, a, b + [QUOTE]);
  }

  lemma FormattedStep(text: seq<Byte>, i: nat, cs: seq<nat>, next: nat, end: nat)
    requires cs != [] && cs[0] != 0 && Stands(text, i, cs[0], next)
    requires ReadLiteral(text, next) == Some(Quoted(cs[1..], end))
    ensures ReadLiteral(text, i) == Some(Quoted(cs, end))
  {
    assert Open(0);
    assert [cs[0]] + cs[1..] == cs;
  }

  /** A literal is read back if and only if it holds no zero character, where the reader takes the text to end. */
  lemma LiteralReadIff(cps: seq<CodePoint>)
    ensures LiteralIsRead(FormatLiteral(EncodeAll(cps))) <==> !Listed(cps, 0)
    ensures !Listed(cps, 0) ==> LiteralOf(FormatLiteral(EncodeAll(cps))) == cps
  {
    var s := FormatLiteral(EncodeAll(cps));
    assert (s + [QUOTE])[0..0 + |s + [QUOTE]|] == s + [QUOTE];
    if Listed(cps, 0) {
      ZeroFails(s + [QUOTE], 0, cps);
    } else {
      FormattedRead(s + [QUOTE], 0, cps, |s| + 1);
    }
  }

  // ---- the printed grammar ----

  /** One alternative: the text between the quotes of its literal, and the text between the brackets of its class. */
  datatype PieceText = PieceText(literal: seq<Byte>, rejects: seq<Byte>)

  /** What `to_gbnf` prints for `until`; an empty literal is left out there. */
  datatype UntilText = AnyChars | Alternatives(pieces: seq<PieceText>, tails: seq<seq<Byte>>)

  /** cs lists the characters of a set. */
  ghost predicate Lists(cs: seq<nat>, next: set<nat>) { forall e: nat :: Listed(cs, e) <==> e in next }

  predicate LiteralFor(u: Word, s: seq<Byte>) {
    EncodeChecked(u).Some? && s == FormatLiteral(EncodeChecked(u).value)
  }

  ghost predicate PieceFor(p: Piece, t: PieceText) {
    LiteralFor(p.prefix, t.literal) && exists cs :: Lists(cs, p.next) && t.rejects == ClassBody(cs)
  }

  ghost predicate TextFor(g: UntilGrammar, t: UntilText) {
    if g.AnyText? then t == AnyChars else t.Alternatives? && PatternFor(g.pattern, t)
  }

  ghost predicate PatternFor(g: Pattern, t: UntilText)
    requires t.Alternatives?
  {
    && |t.pieces| == |g.alternatives| && |t.tails| == |g.tails|
    && (forall i :: 0 <= i < |t.pieces| ==> PieceFor(g.alternatives[i], t.pieces[i]))
    && forall i :: 0 <= i < |t.tails| ==> LiteralFor(g.tails[i], t.tails[i])
  }

  /** Some text that is printed for the delimiters. */
  ghost predicate IsTextFor(delimiters: seq<seq<Byte>>, t: UntilText) {
    exists g :: IsGrammarFor(delimiters, g) && TextFor(g, t)
  }

  // ---- what is read from it ----

  predicate PieceIsRead(t: PieceText) { LiteralIsRead(t.literal) && IsRead(t.rejects) }

  /** Every literal and every class is read to its end, and there is something for the star to repeat. */
  predicate TextIsRead(t: UntilText) {
    t.Alternatives? ==>
      && t.pieces != []
      && (forall i :: 0 <= i < |t.pieces| ==> PieceIsRead(t.pieces[i]))
      && forall i :: 0 <= i < |t.tails| ==> LiteralIsRead(t.tails[i])
  }

  predicate TextTakes(t: PieceText, v: seq<nat>)
    requires PieceIsRead(t)
  {
    var u := LiteralOf(t.literal);
    |u| < |v| && u <= v && Matches(ReadOf(t.rejects), v[|u|])
  }

  predicate TextRepeats(ts: seq<PieceText>, v: seq<nat>)
    requires forall i :: 0 <= i < |ts| ==> PieceIsRead(ts[i])
    decreases |v|
  {
    v == []
    || exists i ::
         0 <= i < |ts| && TextTakes(ts[i], v) && TextRepeats(ts, v[|LiteralOf(ts[i].literal)| + 1..])
  }

  predicate TextAllows(t: UntilText, v: seq<nat>)
    requires TextIsRead(t)
  {
    t.Alternatives? ==>
      exists k :: 0 <= k <= |v| && TextRepeats(t.pieces, v[..k]) && (k == |v| || TextEnds(t.tails, v[k..]))
  }

  predicate TextEnds(tails: seq<seq<Byte>>, v: seq<nat>)
    requires forall i :: 0 <= i < |tails| ==> LiteralIsRead(tails[i])
  {
    exists i :: 0 <= i < |tails| && LiteralOf(tails[i]) == v
  }

  // ---- and what it means ----

  predicate AllCodes(u: Word) { forall k :: 0 <= k < |u| ==> u[k] <= 0x10_FFFF }

  lemma LiteralForReadIff(u: Word, s: seq<Byte>)
    requires LiteralFor(u, s)
    ensures LiteralIsRead(s) <==> !Listed(u, 0)
    ensures !Listed(u, 0) ==> LiteralOf(s) == u
  {
    var cps: seq<CodePoint> := u;
    LiteralReadIff(cps);
  }

  /** A piece is read back exactly if neither a dash is in its class nor a zero in its literal. */
  lemma PieceReadIff(p: Piece, t: PieceText)
    requires PieceFor(p, t) && p.next != {} && forall c :: c in p.next ==> c < 0x1_0000_0000
    ensures PieceIsRead(t) <==> DASH !in p.next && !Listed(p.prefix, 0)
    ensures PieceIsRead(t) ==> LiteralOf(t.literal) == p.prefix
    ensures PieceIsRead(t) ==> forall e: nat :: Matches(ReadOf(t.rejects), e) <==> e !in p.next
  {
    LiteralForReadIff(p.prefix, t.literal);
    var cs :| Lists(cs, p.next) && t.rejects == ClassBody(cs);
    var c :| c in p.next;
    assert Listed(cs, c);
    forall k | 0 <= k < |cs|
      ensures cs[k] < 0x1_0000_0000
    {
      assert Listed(cs, cs[k]);
    }
    ClassReadIff(cs);
    if PieceIsRead(t) {
      forall e: nat
        ensures Matches(ReadOf(t.rejects), e) <==> e !in p.next
      {
        ClassRejects(cs, e);
      }
    }
  }

  /** What is read is the piece that was printed. */
  ghost predicate Agrees(p: Piece, t: PieceText) {
    && PieceIsRead(t) && LiteralOf(t.literal) == p.prefix
    && forall k {:trigger Open(k)} :: Open(k) ==> forall e: nat :: Matches(ReadOf(t.rejects), e) <==> e !in p.next
  }

  lemma TakesSame(p: Piece, t: PieceText, v: seq<nat>)
    requires Agrees(p, t)
    ensures TextTakes(t, v) <==> Takes(p, v)
  {
    assert Open(0);
  }

  ghost predicate AllAgree(ps: seq<Piece>, ts: seq<PieceText>) {
    |ps| == |ts| && forall i :: 0 <= i < |ts| ==> Agrees(ps[i], ts[i])
  }

  lemma {:induction false} RepeatsSame(ps: seq<Piece>, ts: seq<PieceText>, v: seq<nat>)
    requires AllAgree(ps, ts)
    ensures forall i :: 0 <= i < |ts| ==> PieceIsRead(ts[i])
    ensures TextRepeats(ts, v) <==> InRepetition(ps, v)
    decreases |v|
  {
    if v != [] {
      forall i | 0 <= i < |ts|
        ensures TextTakes(ts[i], v) <==> Takes(ps[i], v)
        ensures Takes(ps[i], v) ==>
                  (TextRepeats(ts, v[|ps[i].prefix| + 1..]) <==> InRepetition(ps, v[|ps[i].prefix| + 1..]))
      {
        TakesSame(ps[i], ts[i], v);
        if Takes(ps[i], v) {
          RepeatsSame(ps, ts, v[|ps[i].prefix| + 1..]);
        }
      }
    }
  }

  lemma EndsSame(g: Pattern, t: UntilText, v: seq<nat>)
    requires t.Alternatives? && PatternFor(g, t)
    requires forall i :: 0 <= i < |t.tails| ==> LiteralIsRead(t.tails[i])
    ensures TextEnds(t.tails, v) <==> v in g.tails
  {
    forall i | 0 <= i < |t.tails|
      ensures LiteralOf(t.tails[i]) == g.tails[i]
    {
      LiteralForReadIff(g.tails[i], t.tails[i]);
    }
  }

  lemma AllowsSame(g: UntilGrammar, t: UntilText, v: seq<nat>)
    requires TextFor(g, t) && TextIsRead(t) && (g.Excluding? ==> AllAgree(g.pattern.alternatives, t.pieces))
    ensures TextAllows(t, v) <==> Allows(g, v)
  {
    if g.Excluding? {
      forall k | 0 <= k <= |v|
        ensures TextRepeats(t.pieces, v[..k]) <==> InRepetition(g.pattern.alternatives, v[..k])
        ensures TextEnds(t.tails, v[k..]) <==> v[k..] in g.pattern.tails
      {
        RepeatsSame(g.pattern.alternatives, t.pieces, v[..k]);
        EndsSame(g.pattern, t, v[k..]);
      }
    }
  }

  // ---- when it is read back ----

  /** A dash goes on from a beginning of a delimiter that is not itself one. */
  predicate PrintsDash(ds: seq<Word>) {
    exists i, n :: 0 <= i < |ds| && 0 <= n < |ds[i]| && ds[i][..n] !in ds && ds[i][n] == DASH
  }

  /** A zero is in a beginning of a delimiter that is not itself one. */
  predicate PrintsZero(ds: seq<Word>) {
    exists i, n :: 0 <= i < |ds| && 0 <= n < |ds[i]| && ds[i][..n] !in ds && Listed(ds[i][..n], 0)
  }

  /** All beginnings of delimiters are delimiters, so there are no alternatives. */
  predicate PrintsNothing(ds: seq<Word>) {
    forall i, n :: 0 <= i < |ds| && 0 <= n < |ds[i]| ==> ds[i][..n] in ds
  }

  predicate ReadsBack(ds: seq<Word>) { !PrintsNothing(ds) && !PrintsDash(ds) && !PrintsZero(ds) }

  lemma PieceAt(ds: seq<Word>, g: Pattern, i: nat, n: nat) returns (k: nat)
    requires IsPatternOf(ds, g) && i < |ds| && n < |ds[i]| && ds[i][..n] !in ds
    ensures k < |g.alternatives| && g.alternatives[k].prefix == ds[i][..n] && ds[i][n] in g.alternatives[k].next
  {
    var u := ds[i][..n];
    assert u <= ds[i] && u + [ds[i][n]] <= ds[i];
    var p := PathHasPiece(ds, g, u);
    k :| 0 <= k < |g.alternatives| && g.alternatives[k] == p;
  }

  /** Where a character of a piece comes from. */
  lemma PieceFrom(ds: seq<Word>, p: Piece, c: nat) returns (i: nat, n: nat)
    requires IsPiece(ds, p) && c in p.next
    ensures i < |ds| && n < |ds[i]| && ds[i][..n] == p.prefix && ds[i][n] == c
  {
    i :| 0 <= i < |ds| && p.prefix + [c] <= ds[i];
    n := |p.prefix|;
    assert ds[i][n] == (p.prefix + [c])[n];
  }

  /** Of the pieces of valid delimiters. */
  lemma PieceSafeIff(ds: seq<seq<CodePoint>>, p: Piece, t: PieceText)
    requires IsPiece(ds, p) && PieceFor(p, t)
    ensures PieceIsRead(t) <==> DASH !in p.next && !Listed(p.prefix, 0)
    ensures PieceIsRead(t) ==> Agrees(p, t)
  {
    forall c | c in p.next
      ensures c < 0x1_0000_0000
    {
      var i, n := PieceFrom(ds, p, c);
    }
    PieceReadIff(p, t);
  }

  lemma SafePieces(ds: seq<seq<CodePoint>>, g: Pattern, t: UntilText)
    requires IsPatternOf(ds, g) && t.Alternatives? && PatternFor(g, t)
    requires !PrintsDash(ds) && !PrintsZero(ds)
    ensures AllAgree(g.alternatives, t.pieces) && forall i :: 0 <= i < |t.tails| ==> LiteralIsRead(t.tails[i])
  {
    forall k | 0 <= k < |t.pieces|
      ensures Agrees(g.alternatives[k], t.pieces[k])
    {
      SafePiece(ds, g.alternatives[k]);
      PieceSafeIff(ds, g.alternatives[k], t.pieces[k]);
    }
    forall k | 0 <= k < |t.tails|
      ensures LiteralIsRead(t.tails[k])
    {
      assert g.tails[k] in g.tails;
      var p :| p in g.alternatives && p.prefix == g.tails[k];
      SafePiece(ds, p);
      LiteralForReadIff(g.tails[k], t.tails[k]);
    }
  }

  lemma SafePiece(ds: seq<Word>, p: Piece)
    requires IsPiece(ds, p) && !PrintsDash(ds) && !PrintsZero(ds)
    ensures DASH !in p.next && !Listed(p.prefix, 0)
  {
    if DASH in p.next {
      var i, n := PieceFrom(ds, p, DASH);
    }
    var c :| c in p.next;
    var i, n := PieceFrom(ds, p, c);
  }

  /** The printed text is read back exactly if the delimiters make no dash, no zero and no empty repetition. */
  lemma TextReadIff(ds: seq<seq<CodePoint>>, g: Pattern, t: UntilText)
    requires IsPatternOf(ds, g) && t.Alternatives? && PatternFor(g, t)
    ensures TextIsRead(t) <==> ReadsBack(ds)
    ensures TextIsRead(t) ==> AllAgree(g.alternatives, t.pieces)
  {
    if ReadsBack(ds) {
      var i, n :| 0 <= i < |ds| && 0 <= n < |ds[i]| && ds[i][..n] !in ds;
      var k := PieceAt(ds, g, i, n);
      SafePieces(ds, g, t);
    } else if PrintsNothing(ds) {
      if t.pieces != [] {
        assert IsPiece(ds, g.alternatives[0]);
        var c :| c in g.alternatives[0].next;
        var i, n := PieceFrom(ds, g.alternatives[0], c);
        assert false;
      }
    } else {
      var i, n :| 0 <= i < |ds| && 0 <= n < |ds[i]| && ds[i][..n] !in ds
        && (ds[i][n] == DASH || Listed(ds[i][..n], 0));
      var k := PieceAt(ds, g, i, n);
      assert IsPiece(ds, g.alternatives[k]);
      PieceSafeIff(ds, g.alternatives[k], t.pieces[k]);
    }
  }

  /** The printed text is read back, and it allows the text of every span that `until` can return. */
  ghost predicate TextCovers(ds: seq<seq<CodePoint>>, t: UntilText) {
    && TextIsRead(t)
    && forall cs: seq<CodePoint>, lenient: bool, k: nat {:trigger UntilAt(ds, cs, lenient, k)} ::
         k <= |cs| && UntilAt(ds, cs, lenient, k).kind.Success? ==>
           TextSpanAllowed(t, EncodeAll(cs), UntilAt(ds, cs, lenient, k))
  }

  ghost predicate TextSpanAllowed(t: UntilText, s: seq<Byte>, r: Result)
    requires TextIsRead(t)
  {
    r.start <= r.end <= |s| && exists v: seq<CodePoint> :: EncodeAll(v) == s[r.start..r.end] && TextAllows(t, v)
  }

  lemma SpanSame(g: UntilGrammar, t: UntilText, s: seq<Byte>, r: Result)
    requires TextFor(g, t) && TextIsRead(t) && (g.Excluding? ==> AllAgree(g.pattern.alternatives, t.pieces))
    ensures TextSpanAllowed(t, s, r) <==> SpanAccepted(g, s, r)
  {
    forall v: seq<CodePoint>
      ensures TextAllows(t, v) <==> Allows(g, v)
    {
      AllowsSame(g, t, v);
    }
  }

  /**
    What is printed for `until` covers it, for its reader, exactly if no delimiter is empty (or all code points begin
    delimiters) and the text is read back; without delimiters it always does.
   */
  lemma PrintedCoversUntilIff(ds: seq<seq<CodePoint>>, t: UntilText)
    requires IsTextFor(Delimiters(ds), t)
    ensures TextCovers(ds, t) <==> ds == [] || (CanCover(ds) && ReadsBack(ds))
  {
    var g :| IsGrammarFor(Delimiters(ds), g) && TextFor(g, t);
    WordsOfDelimiters(ds);
    GrammarCoversUntilIff(ds, g);
    if ds != [] {
      TextReadIff(ds, g.pattern, t);
    }
    if TextIsRead(t) {
      forall cs: seq<CodePoint>, lenient: bool, k: nat | k <= |cs|
        ensures var r := UntilAt(ds, cs, lenient, k);
                TextSpanAllowed(t, EncodeAll(cs), r) <==> SpanAccepted(g, EncodeAll(cs), r)
      {
        SpanSame(g, t, EncodeAll(cs), UntilAt(ds, cs, lenient, k));
      }
    }
  }

  /** For the delimiter "-->", the class of the first alternative is `[^\-]`, and its reader knows no such escape. */
  lemma ArrowUnread(t: UntilText)
    requires IsTextFor(Delimiters([[DASH, DASH, 0x3E]]), t)
    ensures !TextIsRead(t)
  {
    var ds: seq<seq<CodePoint>> := [[DASH, DASH, 0x3E]];
    var g :| IsGrammarFor(Delimiters(ds), g) && TextFor(g, t);
    WordsOfDelimiters(ds);
    TextReadIff(ds, g.pattern, t);
    assert ds[0][..0] == [] && ds[0] != [] && ds[0][0] == DASH;
  }

  // ---- printing it ----

  /** A beginning of a delimiter has no UTF-8, and it is printed; decoded delimiters alone can have such. */
  predicate HasNoText(ws: seq<Word>) {
    exists i, n :: 0 <= i < |ws| && 0 <= n < |ws[i]| && ws[i][..n] !in ws && EncodeChecked(ws[i][..n]).None?
  }

  lemma FormatMore(s: seq<Byte>, i: nat)
    requires i < |s|
    ensures FormatLiteral(s[..i + 1]) == FormatLiteral(s[..i]) + EscapeByte(s[i])
  {
    assert s[..i + 1] == s[..i] + [s[i]];
    FormatAppend(s[..i], [s[i]]);
    assert FormatLiteral([s[i]]) == EscapeByte(s[i]) + FormatLiteral([]);
  }

  /** `gbnf_format_literal(common_unicode_cpts_to_utf8(...))`, without the quotes; none where it throws. */
  method PrintLiteral(u: Word) returns (r: Option<seq<Byte>>)
    ensures r.None? <==> EncodeChecked(u).None?
    ensures r.Some? ==> LiteralFor(u, r.value)
  {
    var utf8 := CodePointsToUtf8(u);
    if utf8.None? {
      return None;
    }
    var s, out: seq<Byte> := utf8.value, [];
    for i := 0 to |s|
      invariant out == FormatLiteral(s[..i])
    {
      FormatMore(s, i);
      out := out + EscapeByte(s[i]);
    }
    assert s[..|s|] == s;
    r := Some(out);
  }

  lemma {:induction false} EscapedMore(cs: seq<nat>, c: nat)
    ensures Escaped(cs + [c]) == Escaped(cs) + EscapeClass(c)
    decreases |cs|
  {
    if cs == [] {
      EscapedCons(c, []);
      assert cs + [c] == [c] + [] && Escaped([]) + EscapeClass(c) == EscapeClass(c) + Escaped([]);
    } else {
      EscapedMore(cs[1..], c);
      EscapedCons(cs[0], cs[1..] + [c]);
      EscapedCons(cs[0], cs[1..]);
      MoreBehind(cs, c);
      JoinedTwice(EscapeClass(cs[0]), Escaped(cs[1..]), EscapeClass(c));
    }
  }

  lemma EscapedCons(c: nat, rest: seq<nat>)
    ensures Escaped([c] + rest) == EscapeClass(c) + Escaped(rest)
  {
    assert ([c] + rest)[1..] == rest;
  }

  lemma MoreBehind(cs: seq<nat>, c: nat)
    requires cs != []
    ensures [cs[0]] + cs[1..] == cs && [cs[0]] + (cs[1..] + [c]) == cs + [c]
  {
  }

  lemma JoinedTwice(a: seq<Byte>, b: seq<Byte>, c: seq<Byte>)
    ensures a + (b + c) == a + b + c
  {
  }

  lemma ListsMore(cs: seq<nat>, done: set<nat>, c: nat)
    requires Lists(cs, done)
    ensures Lists(cs + [c], done + {c})
  {
    forall e: nat
      ensures Listed(cs + [c], e) <==> e in done + {c}
    {
      ListedMore(cs + [c], |cs|, e);
      assert (cs + [c])[..|cs|] == cs && (cs + [c])[|cs|..] == [c] && [c][0] == c;
      assert Listed([c], e) <==> e == c;
    }
  }

  /** The class of a piece; the order of its characters does not matter. */
  method PrintClass(next: set<nat>) returns (body: seq<Byte>)
    ensures exists cs :: Lists(cs, next) && body == ClassBody(cs)
  {
    var escaped: seq<Byte> := [];
    ghost var cs: seq<nat> := [];
    var todo := next;
    while todo != {}
      invariant todo <= next
      invariant Lists(cs, next - todo) && escaped == Escaped(cs)
    {
      var c :| c in todo;
      EscapedMore(cs, c);
      ListsMore(cs, next - todo, c);
      assert next - (todo - {c}) == next - todo + {c};
      escaped := escaped + EscapeClass(c);
      cs, todo := cs + [c], todo - {c};
    }
    assert next - todo == next;
    body := [CARET] + escaped;
  }

  /** What `to_gbnf` prints for `until`; none where `common_unicode_cpts_to_utf8` throws. */
  method PrintUntil(delimiters: seq<seq<Byte>>) returns (t: Option<UntilText>)
    ensures t.None? <==> HasNoText(Words(delimiters))
    ensures t.Some? ==> IsTextFor(delimiters, t.value)
  {
    var g := UntilToGbnf(delimiters);
    if g.AnyText? {
      assert TextFor(g, AnyChars);
      return Some(AnyChars);
    }
    var pieces := PrintPieces(Words(delimiters), g.pattern);
    if pieces.None? {
      return None;
    }
    var tails := PrintTails(g.pattern, pieces.value);
    TextForAll(Words(delimiters), g.pattern, pieces.value);
    assert TextFor(g, Alternatives(pieces.value, tails));
    t := Some(Alternatives(pieces.value, tails));
  }

  /** The alternatives; none if `common_unicode_cpts_to_utf8` throws at one. */
  method PrintPieces(ghost ws: seq<Word>, g: Pattern) returns (r: Option<seq<PieceText>>)
    requires IsPatternOf(ws, g)
    ensures r.None? ==> HasNoText(ws)
    ensures r.Some? ==> PiecesFor(g, r.value)
  {
    var pieces: seq<PieceText> := [];
    for i := 0 to |g.alternatives|
      invariant |pieces| == i && forall k :: 0 <= k < i ==> PieceFor(g.alternatives[k], pieces[k])
    {
      var p := g.alternatives[i];
      var literal := PrintLiteral(p.prefix);
      if literal.None? {
        PieceWithoutText(ws, p);
        return None;
      }
      var rejects := PrintClass(p.next);
      pieces := pieces + [PieceText(literal.value, rejects)];
    }
    r := Some(pieces);
  }

  ghost predicate PiecesFor(g: Pattern, pieces: seq<PieceText>) {
    |pieces| == |g.alternatives| && forall k :: 0 <= k < |pieces| ==> PieceFor(g.alternatives[k], pieces[k])
  }

  method PrintTails(g: Pattern, ghost pieces: seq<PieceText>) returns (tails: seq<seq<Byte>>)
    requires PiecesFor(g, pieces)
    requires forall u :: u in g.tails <==> u != [] && exists p :: p in g.alternatives && p.prefix == u
    ensures |tails| == |g.tails| && forall k :: 0 <= k < |tails| ==> LiteralFor(g.tails[k], tails[k])
  {
    tails := [];
    for i := 0 to |g.tails|
      invariant |tails| == i && forall k :: 0 <= k < i ==> LiteralFor(g.tails[k], tails[k])
    {
      var literal := PrintLiteral(g.tails[i]);
      TailHasText(g, pieces, i);
      tails := tails + [literal.value];
    }
  }

  lemma PieceWithoutText(ws: seq<Word>, p: Piece)
    requires IsPiece(ws, p) && EncodeChecked(p.prefix).None?
    ensures HasNoText(ws)
  {
    var c :| c in p.next;
    var i, n := PieceFrom(ws, p, c);
  }

  lemma TailHasText(g: Pattern, pieces: seq<PieceText>, i: nat)
    requires i < |g.tails| && forall u :: u in g.tails <==> u != [] && exists p :: p in g.alternatives && p.prefix == u
    requires PiecesFor(g, pieces)
    ensures EncodeChecked(g.tails[i]).Some?
  {
    assert g.tails[i] in g.tails;
    var p :| p in g.alternatives && p.prefix == g.tails[i];
    var k :| 0 <= k < |g.alternatives| && g.alternatives[k] == p;
    assert PieceFor(g.alternatives[k], pieces[k]);
  }

  lemma TextForAll(ws: seq<Word>, g: Pattern, pieces: seq<PieceText>)
    requires IsPatternOf(ws, g) && PiecesFor(g, pieces)
    ensures !HasNoText(ws)
  {
    forall i, n | 0 <= i < |ws| && 0 <= n < |ws[i]| && ws[i][..n] !in ws
      ensures EncodeChecked(ws[i][..n]).Some?
    {
      var k := PieceAt(ws, g, i, n);
      assert PieceFor(g.alternatives[k], pieces[k]);
    }
  }
}

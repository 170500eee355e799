/**
  `_not_strings` of common/json_schema_to_grammar.cpp: the rule for "any key but these". The names are put in a
  trie, and each node of the trie is printed as a list of alternatives. The characters of the names are printed as
  they are into character classes, so what the rule means is up to the reader of the grammar.
 */
module NotStrings {
  import opened Wrappers
  import opened Utf8
  import opened Peg
  import opened GrammarText
  import opened PegUntil
  import opened PegTrie

  /** A rule as it is printed; the text of a class stands between two brackets. */
  datatype Gram =
    | Nothing
    | Bracketed(text: seq<Byte>)
    | JsonChar
    | Cat(left: Gram, right: Gram)
    | Or(left: Gram, right: Gram)
    | Optional(body: Gram)
    | Star(body: Gram)
    | Plus(body: Gram)

  /** The characters that the `char` rule accepts by themselves. */
  predicate Plain(c: nat) { c >= 0x20 && c != 0x7F && c != QUOTE && c != BACKSLASH }

  predicate AllPlain(x: Word) { forall i :: 0 <= i < |x| ==> Plain(x[i]) }

  predicate IsHex(c: nat) { 0x30 <= c <= 0x39 || 0x41 <= c <= 0x46 || 0x61 <= c <= 0x66 }

  /** Backslash and one of `"\bfnrt`, or backslash, u and four hexadecimal digits. */
  predicate IsEscape(x: Word) {
    || (|x| == 2 && x[0] == BACKSLASH && x[1] in {QUOTE, BACKSLASH, 0x62, 0x66, 0x6E, 0x72, 0x74})
    || (|x| == 6 && x[0] == BACKSLASH && x[1] == 0x75 && forall i :: 2 <= i < 6 ==> IsHex(x[i]))
  }

  /** What the printed rule accepts, its classes being read by the reader of the grammar. */
  ghost predicate Accepts(g: Gram, w: Word)
    decreases g, 0, 0
  {
    match g
    case Nothing => w == []
    case Bracketed(text) => IsRead(text) && |w| == 1 && Matches(ReadOf(text), w[0])
    case JsonChar => (|w| == 1 && Plain(w[0])) || IsEscape(w)
    case Cat(a, b) => exists k :: 0 <= k <= |w| && Accepts(a, w[..k]) && Accepts(b, w[k..])
    case Or(a, b) => Accepts(a, w) || Accepts(b, w)
    case Optional(b) => w == [] || Accepts(b, w)
    case Star(b) => exists n: nat :: Times(b, n, w)
    case Plus(b) => exists n: nat :: n >= 1 && Times(b, n, w)
  }

  ghost predicate Times(g: Gram, n: nat, w: Word)
    decreases g, 1, n
  {
    if n == 0 then w == []
    else exists k :: 0 <= k <= |w| && Accepts(g, w[..k]) && Times(g, n - 1, w[k..])
  }

  /** Every class ends, for its reader, where it was printed to end; otherwise the rest of the rule is read as well. */
  predicate WellRead(g: Gram) {
    match g
    case Nothing => true
    case Bracketed(text) => IsRead(text)
    case JsonChar => true
    case Cat(a, b) => WellRead(a) && WellRead(b)
    case Or(a, b) => WellRead(a) && WellRead(b)
    case Optional(b) => WellRead(b)
    case Star(b) => WellRead(b)
    case Plus(b) => WellRead(b)
  }

  lemma PlainFrom(w: Word, k: nat)
    requires AllPlain(w) && k <= |w|
    ensures AllPlain(w[k..])
  {
  }

  lemma {:induction false} CharTimes(n: nat, w: Word)
    requires AllPlain(w)
    ensures Times(JsonChar, n, w) <==> n == |w|
  {
    if n > 0 {
      if Times(JsonChar, n, w) {
        var k :| 0 <= k <= |w| && Accepts(JsonChar, w[..k]) && Times(JsonChar, n - 1, w[k..]);
        PlainFrom(w, k);
        CharTimes(n - 1, w[k..]);
      }
      if n == |w| {
        PlainFrom(w, 1);
        CharTimes(n - 1, w[1..]);
        assert Accepts(JsonChar, w[..1]);
      }
    }
  }

  lemma CharsMean(w: Word)
    requires AllPlain(w)
    ensures Accepts(Star(JsonChar), w)
    ensures Accepts(Plus(JsonChar), w) <==> w != []
  {
    CharTimes(|w|, w);
    if n: nat :| n >= 1 && Times(JsonChar, n, w) {
      CharTimes(n, w);
    }
  }

  /** A first character and what may follow it. */
  lemma FirstThen(body: seq<Byte>, b: Gram, w: Word)
    ensures Accepts(Cat(Bracketed(body), b), w)
            <==> w != [] && IsRead(body) && Matches(ReadOf(body), w[0]) && Accepts(b, w[1..])
  {
    if w != [] && IsRead(body) && Matches(ReadOf(body), w[0]) && Accepts(b, w[1..]) {
      assert Accepts(Bracketed(body), w[..1]);
    }
  }

  /** A character that stands for itself, and what may follow it. */
  lemma OneThen(c: Byte, b: Gram, w: Word)
    requires Prints(c)
    ensures Accepts(Cat(Bracketed([c]), b), w) <==> w != [] && w[0] == c && Accepts(b, w[1..])
  {
    SingleRead(c);
    FirstThen([c], b, w);
  }

  // ---- what is printed ----

  /** The characters below n that go on from u, in their order. */
  ghost function Children(ws: seq<Word>, u: Word, n: nat): (cs: seq<Byte>)
    requires n <= 256
    ensures forall e: nat :: Listed(cs, e) <==> e < n && IsPath(ws, u + [e])
    ensures Ascending(cs)
  {
    if n == 0 then []
    else
      var cs := Children(ws, u, n - 1);
      if IsPath(ws, u + [n - 1]) then OneMore(cs, n - 1); cs + [n - 1] else cs
  }

  lemma OneMore(cs: seq<Byte>, c: Byte)
    requires Ascending(cs) && forall e: nat :: Listed(cs, e) ==> e < c
    ensures Ascending(cs + [c]) && forall e: nat :: Listed(cs + [c], e) <==> Listed(cs, e) || e == c
  {
    forall e: nat
      ensures Listed(cs + [c], e) <==> Listed(cs, e) || e == c
    {
      ListedMore(cs + [c], |cs|, e);
      assert (cs + [c])[..|cs|] == cs && (cs + [c])[|cs|..] == [c] && [c][0] == c;
    }
    forall i | 0 <= i < |cs|
      ensures cs[i] < c
    {
      assert Listed(cs, cs[i]);
    }
  }

  function Longest(ws: seq<Word>): nat {
    if ws == [] then 0 else if |ws[0]| > Longest(ws[1..]) then |ws[0]| else Longest(ws[1..])
  }

  lemma {:induction false} PathLength(ws: seq<Word>, u: Word)
    ensures IsPath(ws, u) ==> |u| <= Longest(ws)
  {
    if i :| 0 <= i < |ws| && u <= ws[i] {
      if i > 0 {
        assert ws[1..][i - 1] == ws[i];
        PathLength(ws[1..], u);
      }
    }
  }

  /** What `visit` prints for the node of u: its children, and anything that goes on in another way. */
  ghost function Printed(ws: seq<Word>, u: Word): Gram
    decreases Longest(ws) + 1 - |u|, 257
  {
    var alternatives := Alternatives(ws, u, 256);
    if alternatives.None? then Nothing else Or(alternatives.value, Others(Children(ws, u, 256)))
  }

  function Others(cs: seq<Byte>): Gram { Cat(Bracketed(RejectBody(cs)), Star(JsonChar)) }

  /** The children below n. */
  ghost function Alternatives(ws: seq<Word>, u: Word, n: nat): Option<Gram>
    requires n <= 256
    decreases Longest(ws) + 1 - |u|, n
  {
    if n == 0 then None
    else if IsPath(ws, u + [n - 1]) then Some(OrElse(Alternatives(ws, u, n - 1), Child(ws, u, n - 1)))
    else Alternatives(ws, u, n - 1)
  }

  function OrElse(first: Option<Gram>, second: Gram): Gram {
    if first.None? then second else Or(first.value, second)
  }

  ghost function Child(ws: seq<Word>, u: Word, c: Byte): Gram
    requires IsPath(ws, u + [c])
    decreases Longest(ws) + 1 - |u|, 0
  {
    PathLength(ws, u + [c]);
    if Children(ws, u + [c], 256) != [] then Cat(Bracketed([c]), Printed(ws, u + [c]))
    else if u + [c] in ws then Cat(Bracketed([c]), Plus(JsonChar))
    else Bracketed([c])
  }

  /** `_not_strings`, without the space after the key. */
  ghost function Rule(ws: seq<Word>): Gram {
    Cat(Cat(Bracketed([QUOTE]), RuleBody(ws)), Bracketed([QUOTE]))
  }

  ghost function RuleBody(ws: seq<Word>): Gram {
    if [] in ws then Printed(ws, []) else Optional(Printed(ws, []))
  }

  class NameTrie {
    var nodes: seq<Node>
    ghost var labels: seq<Word>
    ghost var words: seq<seq<Byte>>

    ghost predicate Valid()
      reads this
    {
      Built(nodes, labels, words)
    }

    constructor ()
      ensures Valid() && words == []
    {
      nodes := [Node(map[], false)];
      labels := [[]];
      words := [];
    }

    method Insert(name: seq<Byte>)
      requires Valid()
      modifies this
      ensures Valid() && words == old(words) + [name]
    {
      var node: nat := 0;
      InsertStart(nodes, labels, words);
      var i := 0;
      while i < |name|
        invariant 0 <= i <= |name| && words == old(words)
        invariant Inserting(nodes, labels, words, name[..i], node)
      {
        assert name[..i + 1] == name[..i] + [name[i]];
        node := Descend(node, name[i], name[..i]);
        i := i + 1;
      }
      assert name[..i] == name;
      EndName(node, name);
    }

    /** `node->is_end_of_string = true` */
    method EndName(node: nat, ghost name: seq<Byte>)
      requires Inserting(nodes, labels, words, name, node)
      modifies this
      ensures Valid() && words == old(words) + [name]
    {
      InsertEnd(nodes, labels, words, name, node);
      nodes := nodes[node := nodes[node].(isWord := true)];
      words := words + [name];
    }

    /** `&node->children[c]`, which is created if it does not exist. */
    method Descend(node: nat, c: nat, ghost u: Word) returns (child: nat)
      requires Inserting(nodes, labels, words, u, node)
      modifies `nodes, `labels
      ensures Inserting(nodes, labels, words, u + [c], child)
    {
      if c in nodes[node].children {
        InsertOld(nodes, labels, words, u, node, c);
        child := nodes[node].children[c];
      } else {
        InsertNew(nodes, labels, words, u, node, c);
        child := |nodes|;
        nodes, labels := WithChild(nodes, node, c), labels + [u + [c]];
      }
    }

    /** What `visit` prints for the child under c. */
    method VisitChild(node: nat, c: Byte) returns (g: Gram)
      requires Valid() && node < |nodes| && c in nodes[node].children
      ensures IsPath(words, labels[node] + [c]) && g == Child(words, labels[node], c)
      decreases |nodes| - node, 0
    {
      Edge(nodes, labels, words, node, c);
      var child := nodes[node].children[c];
      ChildrenAre(child);
      if nodes[child].children != map[] {
        var inner := Visit(child);
        g := Cat(Bracketed([c]), inner);
      } else if nodes[child].isWord {
        g := Cat(Bracketed([c]), Plus(JsonChar));
      } else {
        g := Bracketed([c]);
      }
    }

    /** The children in the specification are those of the node. */
    lemma ChildrenAre(node: nat)
      requires Valid() && node < |nodes|
      ensures nodes[node].children == map[] <==> Children(words, labels[node], 256) == []
    {
      var cs := Children(words, labels[node], 256);
      if cs != [] {
        assert Listed(cs, cs[0]);
        Edge(nodes, labels, words, node, cs[0]);
      }
      if c :| c in nodes[node].children {
        Edge(nodes, labels, words, node, c);
        ByteOfPath(words, labels[node], c);
        assert Listed(cs, c);
      }
    }

    /** `visit`; the children are in the order of their characters. */
    method Visit(node: nat) returns (g: Gram)
      requires Valid() && node < |nodes|
      ensures g == Printed(words, labels[node])
      decreases |nodes| - node, 1
    {
      var rejects: seq<Byte> := [];
      var out: Option<Gram> := None;
      for c := 0 to 256
        invariant rejects == Children(words, labels[node], c)
        invariant out == Alternatives(words, labels[node], c)
      {
        Edge(nodes, labels, words, node, c);
        if c in nodes[node].children {
          var one := VisitChild(node, c);
          rejects := rejects + [c];
          out := Some(OrElse(out, one));
        }
      }
      g := Nothing;
      if out.Some? {
        g := Or(out.value, Others(rejects));
      }
    }
  }

  lemma ByteOfPath(ws: seq<seq<Byte>>, u: Word, c: nat)
    requires IsPath(ws, u + [c])
    ensures c < 256
  {
    var i :| 0 <= i < |ws| && u + [c] <= ws[i];
    assert ws[i][|u|] == (u + [c])[|u|];
  }

  method BuildNotStrings(strings: seq<seq<Byte>>) returns (g: Gram)
    ensures g == Rule(strings)
  {
    var trie := new NameTrie();
    var i := 0;
    while i < |strings|
      invariant 0 <= i <= |strings|
      invariant fresh(trie) && trie.Valid() && trie.words == strings[..i]
    {
      trie.Insert(strings[i]);
      assert strings[..i + 1] == strings[..i] + [strings[i]];
      i := i + 1;
    }
    assert strings[..i] == strings;
    WordMark(trie.nodes, trie.labels, trie.words, 0);
    var body := trie.Visit(0);
    if !trie.nodes[0].isWord {
      body := Optional(body);
    }
    g := Cat(Cat(Bracketed([QUOTE]), body), Bracketed([QUOTE]));
  }

  // ---- which rules are read as they are printed ----

  /** Every character of a name stands for itself in a class. */
  predicate AllPrintable(ws: seq<Word>) { forall i :: 0 <= i < |ws| ==> AllPrint(ws[i]) }

  lemma PathPrints(ws: seq<Word>, u: Word, c: nat)
    requires AllPrintable(ws) && IsPath(ws, u + [c])
    ensures Prints(c)
  {
    var i :| 0 <= i < |ws| && u + [c] <= ws[i];
    assert ws[i][|u|] == (u + [c])[|u|];
  }

  lemma ChildrenPrint(ws: seq<Word>, u: Word)
    requires AllPrintable(ws)
    ensures AllPrint(Children(ws, u, 256))
  {
    var cs := Children(ws, u, 256);
    forall i | 0 <= i < |cs|
      ensures Prints(cs[i])
    {
      assert Listed(cs, cs[i]);
      PathPrints(ws, u, cs[i]);
    }
  }

  lemma {:induction false} PrintedRead(ws: seq<Word>, u: Word)
    requires AllPrintable(ws)
    ensures WellRead(Printed(ws, u))
    decreases Longest(ws) + 1 - |u|, 257
  {
    AlternativesRead(ws, u, 256);
    ChildrenPrint(ws, u);
    RejectRead(Children(ws, u, 256));
  }

  lemma {:induction false} AlternativesRead(ws: seq<Word>, u: Word, n: nat)
    requires AllPrintable(ws) && n <= 256
    ensures Alternatives(ws, u, n).Some? ==> WellRead(Alternatives(ws, u, n).value)
    decreases Longest(ws) + 1 - |u|, n
  {
    if n > 0 {
      AlternativesRead(ws, u, n - 1);
      if IsPath(ws, u + [n - 1]) {
        ChildRead(ws, u, n - 1);
      }
    }
  }

  lemma {:induction false} ChildRead(ws: seq<Word>, u: Word, c: Byte)
    requires AllPrintable(ws) && IsPath(ws, u + [c])
    ensures WellRead(Child(ws, u, c))
    decreases Longest(ws) + 1 - |u|, 0
  {
    PathPrints(ws, u, c);
    SingleRead(c);
    PathLength(ws, u + [c]);
    PrintedRead(ws, u + [c]);
  }

  /** Each child is among the alternatives. */
  lemma {:induction false} ChildAmong(ws: seq<Word>, u: Word, n: nat, c: Byte)
    requires c < n <= 256 && IsPath(ws, u + [c])
    ensures Alternatives(ws, u, n).Some?
    ensures WellRead(Alternatives(ws, u, n).value) ==> WellRead(Child(ws, u, c))
  {
    if IsPath(ws, u + [n - 1]) {
      OrElseRead(Alternatives(ws, u, n - 1), Child(ws, u, n - 1));
    }
    if n - 1 > c {
      ChildAmong(ws, u, n - 1, c);
    }
  }

  lemma OrElseRead(first: Option<Gram>, second: Gram)
    ensures WellRead(OrElse(first, second)) ==> WellRead(second) && (first.Some? ==> WellRead(first.value))
  {
  }

  /** Each character of a name is printed into a class of its own. */
  lemma {:induction false} ReadAlong(ws: seq<Word>, u: Word, v: seq<Byte>)
    requires WellRead(Printed(ws, u)) && v != [] && IsPath(ws, u + v)
    ensures IsRead([v[|v| - 1]])
    decreases |v|
  {
    ReadFirst(ws, u, v);
    if |v| > 1 {
      ReadAlong(ws, u + [v[0]], v[1..]);
    }
  }

  lemma ReadFirst(ws: seq<Word>, u: Word, v: seq<Byte>)
    requires WellRead(Printed(ws, u)) && v != [] && IsPath(ws, u + v)
    ensures IsRead([v[0]])
    ensures |v| > 1 ==>
              && WellRead(Printed(ws, u + [v[0]])) && IsPath(ws, u + [v[0]] + v[1..])
              && v[1..][|v| - 2] == v[|v| - 1]
  {
    FirstTwo(u, v);
    PathPrefix(ws, u + [v[0]], u + v);
    ChildAmong(ws, u, 256, v[0]);
    ChildWell(ws, u, v[0]);
    if |v| > 1 {
      PathPrefix(ws, u + [v[0]] + [v[1]], u + v);
      assert Listed(Children(ws, u + [v[0]], 256), v[1]);
    }
  }

  lemma ChildWell(ws: seq<Word>, u: Word, c: Byte)
    requires IsPath(ws, u + [c]) && WellRead(Child(ws, u, c))
    ensures IsRead([c]) && (Children(ws, u + [c], 256) != [] ==> WellRead(Printed(ws, u + [c])))
  {
  }

  lemma FirstTwo(u: Word, v: Word)
    requires v != []
    ensures u + [v[0]] <= u + v && u + v == u + [v[0]] + v[1..]
    ensures |v| > 1 ==> u + [v[0]] + [v[1]] <= u + v && v[1..][|v| - 2] == v[|v| - 1]
  {
  }

  /** The names are JSON strings, so their bytes are valid UTF-8. */
  lemma WellReadIff(names: seq<seq<CodePoint>>)
    ensures WellRead(Rule(Delimiters(names))) <==> AllPrintable(names)
    ensures AllPrintable(names) ==> Delimiters(names) == names
  {
    if AllPrintable(names) {
      SameBytes(names);
      RuleRead(names);
    } else {
      var i, j :| 0 <= i < |names| && 0 <= j < |names[i]| && !Prints(names[i][j]);
      UnprintableByte(names, i, j);
    }
  }

  lemma RuleRead(ws: seq<Word>)
    requires AllPrintable(ws)
    ensures WellRead(Rule(ws))
  {
    SingleRead(QUOTE);
    PrintedRead(ws, []);
    assert WellRead(RuleBody(ws));
  }

  lemma SameBytes(names: seq<seq<CodePoint>>)
    requires AllPrintable(names)
    ensures Delimiters(names) == names
  {
    forall i | 0 <= i < |names|
      ensures EncodeAll(names[i]) == names[i]
    {
      AsciiBytes(names[i]);
    }
  }

  lemma {:induction false} AsciiBytes(name: seq<CodePoint>)
    requires AllPrint(name)
    ensures EncodeAll(name) == name
  {
    if name != [] {
      AsciiBytes(name[1..]);
    }
  }

  /** The first byte of an unprintable character breaks the class that it is printed into. */
  lemma UnprintableByte(names: seq<seq<CodePoint>>, i: nat, j: nat)
    requires i < |names| && j < |names[i]| && !Prints(names[i][j])
    ensures !WellRead(Rule(Delimiters(names)))
  {
    var ws := Delimiters(names);
    var v := FirstBytes(names[i], j);
    SingleBroken(v[|v| - 1]);
    if WellRead(Rule(ws)) {
      NamesAlong(ws, i, v);
    }
  }

  lemma NamesAlong(ws: seq<seq<Byte>>, i: nat, v: seq<Byte>)
    requires i < |ws| && v != [] && v <= ws[i] && WellRead(Rule(ws))
    ensures IsRead([v[|v| - 1]])
  {
    assert WellRead(RuleBody(ws)) && WellRead(Printed(ws, []));
    assert [] + v == v;
    ReadAlong(ws, [], v);
  }

  /** The bytes of a name up to the first one of its j-th character. */
  lemma FirstBytes(name: seq<CodePoint>, j: nat) returns (v: seq<Byte>)
    requires j < |name|
    ensures v != [] && v[|v| - 1] == Encode(name[j])[0] && v <= EncodeAll(name)
  {
    CutStep(name, j);
    v := EncodeAll(name[..j]) + [Encode(name[j])[0]];
    FirstOf(EncodeAll(name[..j]), Encode(name[j]), EncodeAll(name[j + 1..]));
  }

  lemma FirstOf(a: seq<Byte>, b: seq<Byte>, c: seq<Byte>)
    requires b != []
    ensures a + [b[0]] <= a + b + c
  {
  }

  // ---- what it accepts ----

  /**
    x, read along the names behind u, leaves them: at the first character that no name goes on with, unless the class
    there swallows that character, or behind the end of a name that no other one goes on from.
   */
  ghost predicate Escapes(ws: seq<Word>, u: Word, x: Word)
    decreases |x|
  {
    && x != []
    && if IsPath(ws, u + [x[0]]) then Escapes(ws, u + [x[0]], x[1..]) else !Swallowed(Children(ws, u, 256), x[0])
  }

  /** The last alternative: a character that no child has and that is not swallowed, and then anything. */
  lemma OthersMean(ws: seq<Word>, u: Word, x: Word)
    requires AllPrintable(ws) && AllPlain(x)
    ensures var cs := Children(ws, u, 256);
            Accepts(Others(cs), x) <==> x != [] && !IsPath(ws, u + [x[0]]) && !Swallowed(cs, x[0])
  {
    var cs := Children(ws, u, 256);
    ChildrenPrint(ws, u);
    FirstThen(RejectBody(cs), Star(JsonChar), x);
    if x != [] {
      PlainFrom(x, 1);
      CharsMean(x[1..]);
      RejectMeans(cs, x[0]);
      if IsPath(ws, u + [x[0]]) {
        PathPrints(ws, u, x[0]);
      }
    }
  }

  lemma PathEnds(ws: seq<Word>, u: Word)
    requires IsPath(ws, u) && forall d :: !IsPath(ws, u + [d])
    ensures u in ws
  {
    var i :| 0 <= i < |ws| && u <= ws[i];
    PathGoesOn(ws, u, i);
  }

  lemma PathGoesOn(ws: seq<Word>, u: Word, i: nat)
    requires i < |ws| && u <= ws[i]
    ensures u == ws[i] || exists d :: IsPath(ws, u + [d])
  {
    if |u| < |ws[i]| {
      assert u + [ws[i][|u|]] <= ws[i];
    }
  }

  /** A node without children ends a name. */
  lemma LeafEnds(ws: seq<Word>, u: Word)
    requires AllPrintable(ws) && IsPath(ws, u) && Children(ws, u, 256) == []
    ensures u in ws && forall d :: !IsPath(ws, u + [d])
  {
    forall d
      ensures !IsPath(ws, u + [d])
    {
      assert !Listed(Children(ws, u, 256), d);
      if IsPath(ws, u + [d]) {
        PathPrints(ws, u, d);
      }
    }
    PathEnds(ws, u);
  }

  lemma {:induction false} ChildMeans(ws: seq<Word>, u: Word, c: Byte, x: Word)
    requires AllPrintable(ws) && AllPlain(x) && IsPath(ws, u + [c])
    ensures Accepts(Child(ws, u, c), x) <==> x != [] && x[0] == c && Escapes(ws, u + [c], x[1..])
    decreases |x|, 0
  {
    PathPrints(ws, u, c);
    var v := u + [c];
    if Children(ws, v, 256) != [] {
      OneThen(c, Printed(ws, v), x);
      if x != [] {
        PlainFrom(x, 1);
        PrintedMeans(ws, v, x[1..]);
      }
    } else {
      LeafEnds(ws, v);
      OneThen(c, Plus(JsonChar), x);
      if x != [] {
        PlainFrom(x, 1);
        CharsMean(x[1..]);
      }
    }
  }

  /** x goes on from u to a child below n, and from there it escapes. */
  ghost predicate EscapesBelow(ws: seq<Word>, u: Word, n: nat, x: Word) {
    x != [] && x[0] < n && IsPath(ws, u + [x[0]]) && Escapes(ws, u + [x[0]], x[1..])
  }

  /** What an alternative means that is printed for the children below n, if there are any. */
  ghost predicate MeansBelow(r: Option<Gram>, ws: seq<Word>, u: Word, n: nat, x: Word) {
    r.Some? ==> (Accepts(r.value, x) <==> EscapesBelow(ws, u, n, x))
  }

  lemma {:induction false} AlternativesMean(ws: seq<Word>, u: Word, n: nat, x: Word)
    requires AllPrintable(ws) && AllPlain(x) && n <= 256
    ensures MeansBelow(Alternatives(ws, u, n), ws, u, n, x)
    decreases |x|, n
  {
    if n > 0 {
      AlternativesMean(ws, u, n - 1, x);
      if IsPath(ws, u + [n - 1]) {
        ChildMeans(ws, u, n - 1, x);
        AlternativesNone(ws, u, n - 1);
        WithChildMeans(ws, u, n - 1, x, Alternatives(ws, u, n - 1), Child(ws, u, n - 1));
      } else {
        WithoutChildMeans(Alternatives(ws, u, n - 1), ws, u, n - 1, x);
      }
    }
  }

  lemma WithoutChildMeans(r: Option<Gram>, ws: seq<Word>, u: Word, c: nat, x: Word)
    requires MeansBelow(r, ws, u, c, x) && !IsPath(ws, u + [c])
    ensures MeansBelow(r, ws, u, c + 1, x)
  {
  }

  lemma WithChildMeans(ws: seq<Word>, u: Word, c: Byte, x: Word, first: Option<Gram>, second: Gram)
    requires IsPath(ws, u + [c]) && (first.None? <==> Children(ws, u, c) == [])
    requires MeansBelow(first, ws, u, c, x)
    requires Accepts(second, x) <==> x != [] && x[0] == c && Escapes(ws, u + [c], x[1..])
    ensures MeansBelow(Some(OrElse(first, second)), ws, u, c + 1, x)
  {
    OrElseMeans(first, second, x);
    NoneBelow(ws, u, c, x);
  }

  lemma OrElseMeans(first: Option<Gram>, second: Gram, x: Word)
    ensures Accepts(OrElse(first, second), x) <==> (first.Some? && Accepts(first.value, x)) || Accepts(second, x)
  {
  }

  lemma {:induction false} AlternativesNone(ws: seq<Word>, u: Word, n: nat)
    requires n <= 256
    ensures Alternatives(ws, u, n).None? <==> Children(ws, u, n) == []
  {
    if n > 0 {
      AlternativesNone(ws, u, n - 1);
    }
  }

  lemma NoneBelow(ws: seq<Word>, u: Word, n: nat, x: Word)
    requires n <= 256
    ensures Children(ws, u, n) == [] ==> !EscapesBelow(ws, u, n, x)
  {
    if x != [] {
      assert Listed(Children(ws, u, n), x[0]) <==> x[0] < n && IsPath(ws, u + [x[0]]);
    }
  }

  /** Of the plain words, the rule of a node with children accepts those that escape. */
  lemma {:induction false} PrintedMeans(ws: seq<Word>, u: Word, x: Word)
    requires AllPrintable(ws) && AllPlain(x) && Children(ws, u, 256) != []
    ensures Accepts(Printed(ws, u), x) <==> Escapes(ws, u, x)
    decreases |x|, 257
  {
    AlternativesMean(ws, u, 256, x);
    AlternativesNone(ws, u, 256);
    OthersMean(ws, u, x);
    if x != [] && IsPath(ws, u + [x[0]]) {
      PathPrints(ws, u, x[0]);
    }
  }

  predicate HasCharacters(ws: seq<Word>) { exists i :: 0 <= i < |ws| && ws[i] != [] }

  lemma RootHasChildren(ws: seq<Word>)
    requires AllPrintable(ws)
    ensures Children(ws, [], 256) != [] <==> HasCharacters(ws)
  {
    var cs := Children(ws, [], 256);
    if cs != [] {
      assert Listed(cs, cs[0]);
      var i :| 0 <= i < |ws| && [] + [cs[0]] <= ws[i];
      assert ws[i] != [];
    }
    if i :| 0 <= i < |ws| && ws[i] != [] {
      assert [] + [ws[i][0]] <= ws[i];
      PathPrints(ws, [], ws[i][0]);
      assert Listed(cs, ws[i][0]);
    }
  }

  function InQuotes(x: Word): Word { [QUOTE] + x + [QUOTE] }

  lemma Quoted(g: Gram, x: Word)
    ensures Accepts(Cat(Cat(Bracketed([QUOTE]), g), Bracketed([QUOTE])), InQuotes(x)) <==> Accepts(g, x)
  {
    var q := Bracketed([QUOTE]);
    var w, u := [QUOTE] + x + [QUOTE], [QUOTE] + x;
    assert w[..|u|] == u && w[|u|..] == [QUOTE];
    assert u[..1] == [QUOTE] && u[1..] == x;
    SingleRead(QUOTE);
    OneThen(QUOTE, g, u);
    if Accepts(Cat(Cat(q, g), q), w) {
      var k :| 0 <= k <= |w| && Accepts(Cat(q, g), w[..k]) && Accepts(q, w[k..]);
      assert k == |u|;
    }
    if Accepts(g, x) {
      assert Accepts(Cat(q, g), w[..|u|]) && Accepts(q, w[|u|..]);
    }
  }

  /** The plain keys that the rule for printable names accepts. */
  lemma RuleMeans(ws: seq<Word>, x: Word)
    requires AllPrintable(ws) && AllPlain(x)
    ensures Accepts(Rule(ws), InQuotes(x))
            <==> if x == [] then [] !in ws || !HasCharacters(ws) else HasCharacters(ws) && Escapes(ws, [], x)
  {
    Quoted(RuleBody(ws), x);
    RootHasChildren(ws);
    if HasCharacters(ws) {
      PrintedMeans(ws, [], x);
    } else {
      AlternativesNone(ws, [], 256);
    }
  }

  // ---- and what it is for ----

  /** What the trie says: the keys that begin none of the names. */
  predicate KeyAccepted(ws: seq<Word>, x: Word) {
    if x == [] then [] !in ws || !HasCharacters(ws) else HasCharacters(ws) && !IsPath(ws, x)
  }

  const COMMA: nat := 0x2C
  const DOT: nat := 0x2E

  /**
    Behind u, names go on with a dash and with a greater character. The dash then makes a range, which holds no other
    character only if its ends are the comma and the dot.
   */
  predicate DashBreaksAt(ws: seq<Word>, u: Word) {
    && IsPath(ws, u + [DASH])
    && (exists i :: 0 <= i < |ws| && u < ws[i] && ws[i][|u|] > DASH)
    && !(IsPath(ws, u + [COMMA]) && IsPath(ws, u + [DOT]))
  }

  /** A dash breaks a class behind a plain beginning of a name. */
  predicate DashBreaks(ws: seq<Word>) {
    exists i, j :: 0 <= i < |ws| && 0 <= j <= |ws[i]| && AllPlain(ws[i][..j]) && DashBreaksAt(ws, ws[i][..j])
  }

  lemma ListedAt(t: seq<nat>, e: nat) returns (k: nat)
    requires Listed(t, e)
    ensures k < |t| && t[k] == e
  {
    k :| 0 <= k < |t| && t[k] == e;
  }

  /** Between a comma and a dot, a dash swallows nothing. */
  lemma DashTight(t: seq<nat>, d: nat, e: nat)
    requires Ascending(t) && d + 1 < |t| && SwallowedAt(t, d, e) && Listed(t, COMMA) && Listed(t, DOT)
    ensures e == DASH
  {
    var i := ListedAt(t, COMMA);
    var j := ListedAt(t, DOT);
    assert i < d < j;
    assert t[i] <= t[d - 1] && t[d + 1] <= t[j];
  }

  lemma PathHas(ws: seq<Word>, u: Word, c: nat) returns (i: nat)
    requires IsPath(ws, u + [c])
    ensures i < |ws| && u < ws[i] && ws[i][|u|] == c && ws[i][..|u|] == u
  {
    i :| 0 <= i < |ws| && u + [c] <= ws[i];
    assert ws[i][|u|] == (u + [c])[|u|];
  }

  lemma NotSwallowed(ws: seq<Word>, u: Word, e: nat)
    requires !DashBreaks(ws) && AllPlain(u) && !IsPath(ws, u + [e])
    ensures !Swallowed(Children(ws, u, 256), e)
  {
    var cs := Children(ws, u, 256);
    if d :| 0 <= d && d + 1 < |cs| && SwallowedAt(cs, d, e) {
      assert Listed(cs, cs[d]) && Listed(cs, cs[d + 1]);
      var i := PathHas(ws, u, DASH);
      var k := PathHas(ws, u, cs[d + 1]);
      assert AllPlain(ws[i][..|u|]) && !DashBreaksAt(ws, ws[i][..|u|]);
      assert Listed(cs, COMMA) && Listed(cs, DOT);
      DashTight(cs, d, e);
    }
  }

  /** A dash in the wrong place swallows the comma or the dot. */
  lemma DashSwallows(ws: seq<Word>, u: Word) returns (e: nat)
    requires AllPrintable(ws) && DashBreaksAt(ws, u)
    ensures e == COMMA || e == DOT
    ensures !IsPath(ws, u + [e]) && Swallowed(Children(ws, u, 256), e)
  {
    var cs := Children(ws, u, 256);
    var d := ListedAt(cs, DASH);
    var i :| 0 <= i < |ws| && u < ws[i] && ws[i][|u|] > DASH;
    var c := ws[i][|u|];
    assert u + [c] <= ws[i];
    PathPrints(ws, u, c);
    var k := ListedAt(cs, c);
    assert d < k && cs[d] < cs[d + 1];
    e := if IsPath(ws, u + [COMMA]) then DOT else COMMA;
    assert !Listed(cs, e) && cs[d + 1] != e && (d > 0 ==> cs[d - 1] != e && cs[d - 1] < cs[d]);
    assert SwallowedAt(cs, d, e);
  }

  lemma {:induction false} EscapesAlong(ws: seq<Word>, u: Word, v: Word, x: Word)
    requires IsPath(ws, u + v)
    ensures Escapes(ws, u, v + x) <==> Escapes(ws, u + v, x)
    decreases |v|
  {
    if v == [] {
      assert v + x == x && u + v == u;
    } else {
      var c := v[0];
      HeadOver(u, v, x);
      PathPrefix(ws, u + [c], u + v);
      EscapesAlong(ws, u + [c], v[1..], x);
    }
  }

  lemma HeadOver(u: Word, v: Word, x: Word)
    requires v != []
    ensures u + [v[0]] <= u + v && u + v == u + [v[0]] + v[1..]
    ensures (v + x)[0] == v[0] && (v + x)[1..] == v[1..] + x
  {
  }

  /** A key that goes on from the names with a character that a dash swallows begins no name, and is refused. */
  lemma SwallowedRefused(ws: seq<Word>, u: Word, x: Word)
    requires AllPrintable(ws) && AllPlain(u + x) && x != []
    requires IsPath(ws, u) && !IsPath(ws, u + [x[0]]) && Swallowed(Children(ws, u, 256), x[0])
    ensures KeyAccepted(ws, u + x) && !Accepts(Rule(ws), InQuotes(u + x))
  {
    assert u + [x[0]] <= u + x;
    PathPrefix(ws, u + [x[0]], u + x);
    var cs := Children(ws, u, 256);
    assert Listed(cs, cs[0]);
    var i := PathHas(ws, u, cs[0]);
    assert ws[i] != [];
    assert [] + u == u;
    EscapesAlong(ws, [], u, x);
    RuleMeans(ws, u + x);
  }

  lemma {:induction false} EscapesLeaves(ws: seq<Word>, u: Word, x: Word)
    requires !DashBreaks(ws) && AllPlain(u) && AllPlain(x)
    ensures Escapes(ws, u, x) <==> x != [] && !IsPath(ws, u + x)
    decreases |x|
  {
    if x != [] {
      assert u + x == u + [x[0]] + x[1..];
      if IsPath(ws, u + [x[0]]) {
        EscapesLeaves(ws, u + [x[0]], x[1..]);
        assert x[1..] == [] ==> u + x == u + [x[0]];
      } else {
        NotSwallowed(ws, u, x[0]);
        assert u + [x[0]] <= u + x;
        PathPrefix(ws, u + [x[0]], u + x);
      }
    }
  }

  /** The printed rule is read as it was printed, and of the plain keys it accepts those that the trie tells apart. */
  ghost predicate MeansTheTrie(names: seq<seq<CodePoint>>) {
    && WellRead(Rule(Delimiters(names)))
    && forall x | AllPlain(x) :: Accepts(Rule(Delimiters(names)), InQuotes(x)) <==> KeyAccepted(names, x)
  }

  /**
    It does just when every character of a name stands for itself in a class, and no dash stands before a greater
    character there (the comma and the dot around it being the one harmless case).
   */
  lemma MeansTheTrieIff(names: seq<seq<CodePoint>>)
    ensures MeansTheTrie(names) <==> AllPrintable(names) && !DashBreaks(names)
  {
    WellReadIff(names);
    if AllPrintable(names) {
      if !DashBreaks(names) {
        forall x | AllPlain(x)
          ensures Accepts(Rule(names), InQuotes(x)) <==> KeyAccepted(names, x)
        {
          RuleMeans(names, x);
          EscapesLeaves(names, [], x);
          assert [] + x == x;
        }
      } else {
        var x := DashRefuses(names);
        assert !(Accepts(Rule(names), InQuotes(x)) <==> KeyAccepted(names, x));
      }
    }
  }

  lemma DashRefuses(ws: seq<Word>) returns (x: Word)
    requires AllPrintable(ws) && DashBreaks(ws)
    ensures AllPlain(x) && KeyAccepted(ws, x) && !Accepts(Rule(ws), InQuotes(x))
    ensures x != [] && !IsPath(ws, x)
  {
    var i, j :| 0 <= i < |ws| && 0 <= j <= |ws[i]| && AllPlain(ws[i][..j]) && DashBreaksAt(ws, ws[i][..j]);
    var u := ws[i][..j];
    var e := DashSwallows(ws, u);
    x := u + [e];
    SwallowedRefused(ws, u, [e]);
  }

  /** Read as it was printed, the rule accepts none of the names, in quotes. */
  ghost predicate RejectsNames(names: seq<seq<CodePoint>>) {
    var g := Rule(Delimiters(names));
    WellRead(g) && forall i :: 0 <= i < |names| && AllPlain(names[i]) ==> !Accepts(g, InQuotes(names[i]))
  }

  lemma {:induction false} PathStays(ws: seq<Word>, u: Word, x: Word)
    requires IsPath(ws, u + x)
    ensures !Escapes(ws, u, x)
    decreases |x|
  {
    if x != [] {
      assert u + [x[0]] <= u + x && u + x == u + [x[0]] + x[1..];
      PathPrefix(ws, u + [x[0]], u + x);
      PathStays(ws, u + [x[0]], x[1..]);
    }
  }

  /** A dash makes the rule narrower, so no name gets through it; the empty name does if there is no other. */
  lemma NamesRejectedIff(names: seq<seq<CodePoint>>)
    ensures RejectsNames(names) <==> AllPrintable(names) && (names == [] || HasCharacters(names))
  {
    WellReadIff(names);
    if AllPrintable(names) {
      if names != [] && !HasCharacters(names) {
        assert names[0] == [] && AllPlain(names[0]);
        RuleMeans(names, names[0]);
      }
      if HasCharacters(names) {
        forall i | 0 <= i < |names| && AllPlain(names[i])
          ensures !Accepts(Rule(names), InQuotes(names[i]))
        {
          assert names[i] in names && [] + names[i] == names[i] && names[i] <= names[i];
          RuleMeans(names, names[i]);
          PathStays(names, [], names[i]);
        }
      }
    }
  }

  /** The rule means "any key but these". */
  ghost predicate RejectsJustTheNames(names: seq<seq<CodePoint>>) {
    && WellRead(Rule(Delimiters(names)))
    && forall x | AllPlain(x) :: Accepts(Rule(Delimiters(names)), InQuotes(x)) <==> x !in names
  }

  /** Whatever plain non-empty word begins a name is itself a name. */
  predicate BeginningsAreNames(ws: seq<Word>) {
    forall i, j :: 0 <= i < |ws| && 0 < j < |ws[i]| && AllPlain(ws[i][..j]) ==> ws[i][..j] in ws
  }

  lemma JustTheNames(ws: seq<Word>, x: Word)
    requires HasCharacters(ws) && BeginningsAreNames(ws) && AllPlain(x)
    ensures KeyAccepted(ws, x) <==> x !in ws
  {
    WordIsPath(ws, x);
    if IsPath(ws, x) && x != [] {
      var i :| 0 <= i < |ws| && x <= ws[i];
      assert x == ws[i][..|x|];
      assert |x| == |ws[i]| ==> x == ws[i];
    }
  }

  /** A key that only begins a name is rejected with it, so the rule has its meaning just when no such key exists. */
  lemma RejectsJustTheNamesIff(names: seq<seq<CodePoint>>)
    ensures RejectsJustTheNames(names)
        <==> AllPrintable(names) && !DashBreaks(names) && HasCharacters(names) && BeginningsAreNames(names)
  {
    MeansTheTrieIff(names);
    WellReadIff(names);
    if AllPrintable(names) {
      if DashBreaks(names) {
        var x := DashRefuses(names);
        WordIsPath(names, x);
      } else if !HasCharacters(names) {
        var x := [0x61];
        assert AllPlain(x) && x !in names && !KeyAccepted(names, x);
      } else if !BeginningsAreNames(names) {
        var i, j :| 0 <= i < |names| && 0 < j < |names[i]| && AllPlain(names[i][..j]) && names[i][..j] !in names;
        var x := names[i][..j];
        assert IsPath(names, x) && !KeyAccepted(names, x);
      } else {
        forall x | AllPlain(x)
          ensures KeyAccepted(names, x) <==> x !in names
        {
          JustTheNames(names, x);
        }
      }
    }
  }

  // ---- names that are refused what they should be given ----

  /** Two names that part behind u, one with a dash and one with a greater character. */
  lemma PairPaths(u: Word, a: Word, c: nat, b: Word, e: nat)
    ensures IsPath([u + [DASH] + a, u + [c] + b], u + [e]) <==> e == DASH || e == c
  {
    var ws := [u + [DASH] + a, u + [c] + b];
    assert ws[0][|u|] == DASH && ws[1][|u|] == c;
    assert u + [DASH] <= ws[0] && u + [c] <= ws[1];
    if IsPath(ws, u + [e]) {
      var i := PathHas(ws, u, e);
      assert i == 0 || i == 1;
    }
  }

  lemma PairSwallows(u: Word, a: Word, c: Byte, b: Word, e: nat)
    requires c > DASH && e != DASH && QUOTE < e < c
    ensures var ws := [u + [DASH] + a, u + [c] + b];
            IsPath(ws, u) && !IsPath(ws, u + [e]) && Swallowed(Children(ws, u, 256), e)
  {
    var ws := [u + [DASH] + a, u + [c] + b];
    var cs := Children(ws, u, 256);
    assert u <= ws[0];
    PairPaths(u, a, c, b, DASH);
    PairPaths(u, a, c, b, c);
    PairPaths(u, a, c, b, e);
    var d := ListedAt(cs, DASH);
    var k := ListedAt(cs, c);
    forall m | 0 <= m < |cs|
      ensures cs[m] == DASH || cs[m] == c
    {
      assert Listed(cs, cs[m]);
      PairPaths(u, a, c, b, cs[m]);
    }
    assert d < k && cs[0] <= cs[d] && cs[0] < cs[1];
    assert d == 0 && cs[1] == c;
    assert SwallowedAt(cs, d, e);
  }

  /** The class behind u is `[^"-c]`, so a key that goes on with a character below c is refused. */
  lemma PairRefuses(u: Word, a: Word, c: Byte, b: Word, e: nat, rest: Word)
    requires c > DASH && e != DASH && QUOTE < e < c
    requires AllPrintable([u + [DASH] + a, u + [c] + b]) && AllPlain(u + ([e] + rest))
    ensures var names := [u + [DASH] + a, u + [c] + b];
            KeyAccepted(names, u + ([e] + rest)) && !Accepts(Rule(names), InQuotes(u + ([e] + rest)))
  {
    PairSwallows(u, a, c, b, e);
    SwallowedRefused([u + [DASH] + a, u + [c] + b], u, [e] + rest);
  }

  /** With the names "user-id" and "userid", the key "userName" is refused, though it begins neither. */
  lemma UserNameRefused()
    ensures var user: Word := [0x75, 0x73, 0x65, 0x72];
            var names := [user + [DASH] + [0x69, 0x64], user + [0x69] + [0x64]];
            var key := user + ([0x4E] + [0x61, 0x6D, 0x65]);
            AllPrintable(names) && KeyAccepted(names, key) && !Accepts(Rule(names), InQuotes(key))
  {
    PairRefuses([0x75, 0x73, 0x65, 0x72], [0x69, 0x64], 0x69, [0x64], 0x4E, [0x61, 0x6D, 0x65]);
  }

  /** With the names "-" and "a", of which none begins the other, the key "B" is refused. */
  lemma DashAndLetterRefuse()
    ensures var names: seq<Word> := [[DASH], [0x61]];
            HasCharacters(names) && BeginningsAreNames(names) && !Accepts(Rule(names), InQuotes([0x42]))
  {
    PairRefuses([], [], 0x61, [], 0x42, []);
    assert [] + [DASH] + [] == [DASH] && [] + [0x61] + [] == [0x61] && [] + ([0x42] + []) == [0x42];
    var names: seq<Word> := [[DASH], [0x61]];
    assert names[0] != [];
  }
}

/**
  The text that `regex_to_reversed_partial_regex` returns, read as a pattern again: it is the usual way to write down a
  pattern that matches exactly what the parts accept, so completeness is about the text itself.
 */
module RegexPrinted {
  import opened Wrappers
  import opened RegexPartial
  import opened RegexText

  // ---- parts as a pattern ----

  function AtomOf(p: Node): Atom
    decreases p, 0
  {
    match p
    case Basic(t) => Single(t)
    case Marked(b, _) => AtomOf(b)
    case Grouped(chains) => Group(true, PatternOf(chains))
  }

  function QuantifierOf(p: Node): Quantifier {
    if !p.Marked? then Once
    else if p.mark == "*" then ZeroOrMore(false)
    else if p.mark == "*?" then ZeroOrMore(true)
    else if p.mark == "+" then OneOrMore(false)
    else if p.mark == "+?" then OneOrMore(true)
    else ZeroOrOne(p.mark == "??")
  }

  function ItemOf(p: Node): Item
    decreases p, 1
  {
    Item(AtomOf(p), QuantifierOf(p))
  }

  /** An optional group that holds items. */
  function Perhaps(items: Items): Item { Item(Group(true, [Sequence(items)]), ZeroOrOne(false)) }

  /** The first part, behind an optional group for the others. */
  function ItemsOf(ps: Parts): (items: Items)
    decreases ps
  {
    if ps == [] then [] else if |ps| == 1 then [ItemOf(ps[0])] else [Perhaps(ItemsOf(ps[1..])), ItemOf(ps[0])]
  }

  function PatternOf(chains: seq<Chain>): (alts: seq<Sequence>)
    ensures |alts| == |chains|
    decreases chains
  {
    if chains == [] then [] else [Sequence(ItemsOf(chains[0].parts))] + PatternOf(chains[1..])
  }

  lemma {:induction false} PatternAt(chains: seq<Chain>, i: nat)
    requires i < |chains|
    ensures PatternOf(chains)[i].items == ItemsOf(chains[i].parts)
  {
    if i > 0 {
      PatternAt(chains[1..], i - 1);
    }
  }

  /** One mark at most behind an atom, and no empty group or alternative. */
  predicate IsPrintable(p: Node)
    decreases p
  {
    match p
    case Basic(_) => true
    case Marked(b, mark) => !b.Marked? && mark in ["*", "*?", "+", "+?", "?", "??"] && IsPrintable(b)
    case Grouped(chains) => chains != [] && forall i :: 0 <= i < |chains| ==> ArePrintable(chains[i].parts)
  }

  predicate ArePrintable(ps: Parts)
    decreases ps
  {
    ps != [] && forall i :: 0 <= i < |ps| ==> IsPrintable(ps[i])
  }

  predicate AllPrintable(chains: seq<Chain>) {
    chains != [] && forall i :: 0 <= i < |chains| ==> ArePrintable(chains[i].parts)
  }

  // ---- the parts of a pattern that is not refused are printable ----

  lemma {:induction false} NodePrintable(a: Atom)
    requires IsSupportedAtom(a)
    ensures IsPrintable(NodeOf(a)) && !NodeOf(a).Marked?
    decreases a
  {
    if a.Group? {
      forall i | 0 <= i < |a.alternatives|
        ensures ArePrintable(NodeOf(a).chains[i].parts)
      {
        SupportedPrintable(a.alternatives[i].items);
      }
    }
  }

  lemma CountedPrintable(p: Node, b: Bounds)
    requires IsPrintable(p) && !p.Marked?
    ensures forall q :: q in CountedParts(p, b) || q in Questioned(CountedParts(p, b)) ==> IsPrintable(q)
  {
    var ps := CountedParts(p, b);
    assert IsPrintable(Marked(p, "*")) && IsPrintable(Marked(p, "?"));
    assert forall i :: 0 <= i < |ps| ==> ps[i] == p || ps[i] == Marked(p, "*") || ps[i] == Marked(p, "?");
    forall q | q in Questioned(ps)
      ensures IsPrintable(q)
    {
      var i :| 0 <= i < |ps| && Questioned(ps)[i] == q;
      assert "*" + "?" == "*?" && "?" + "?" == "??";
      assert IsPrintable(Marked(p, "*?")) && IsPrintable(Marked(p, "??"));
    }
  }

  lemma PartsPrintable(item: Item)
    requires IsSupportedItem(item)
    ensures forall p :: p in PartsOf(item) ==> IsPrintable(p)
    decreases item
  {
    NodePrintable(item.atom);
    var p := NodeOf(item.atom);
    if item.quantifier.Counted? {
      CountedPrintable(p, item.quantifier.bounds);
    }
    forall mark | mark in ["*", "*?", "+", "+?", "?", "??"]
      ensures IsPrintable(Marked(p, mark))
    {
    }
  }

  lemma {:induction false} AllPartsPrintable(items: Items)
    requires forall i :: 0 <= i < |items| ==> IsSupportedItem(items[i])
    ensures forall p :: p in PartsOfAll(items) ==> IsPrintable(p)
    decreases items, 0
  {
    if items != [] {
      PartsPrintable(items[0]);
      AllPartsPrintable(items[1..]);
    }
  }

  lemma SupportedPrintable(items: Items)
    requires IsSupported(items)
    ensures ArePrintable(PartsOfAll(items))
    decreases items, 1
  {
    AllPartsPrintable(items);
    forall i | 0 <= i < |PartsOfAll(items)|
      ensures IsPrintable(PartsOfAll(items)[i])
    {
      assert PartsOfAll(items)[i] in PartsOfAll(items);
    }
  }

  lemma TransformPrintable(alts: seq<Sequence>)
    requires AllSupported(alts)
    ensures AllPrintable(Transform(alts))
  {
    forall i | 0 <= i < |alts|
      ensures ArePrintable(Transform(alts)[i].parts)
    {
      SupportedPrintable(alts[i].items);
    }
  }

  // ---- the text ----

  lemma ShowOne(item: Item)
    ensures ShowItems([item]) == ShowItem(item) && ShowAlternatives([Sequence([item])]) == ShowItem(item)
  {
    assert [item][1..] == [] && ShowItem(item) + "" == ShowItem(item);
  }

  lemma ShowPerhaps(items: Items, item: Item)
    ensures ShowItems([Perhaps(items), item]) == "(?:" + ShowItems(items) + ")?" + ShowItem(item)
  {
    var g := Perhaps(items);
    assert [g, item][1..] == [item];
    ShowOne(item);
    assert ShowAlternatives([Sequence(items)]) == ShowItems([Sequence(items)][0].items);
    assert ShowAtom(g.atom) == "(?:" + ShowItems(items) + ")" && ")" + "?" == ")?";
    assert ShowItem(g) == "(?:" + ShowItems(items) + ")?";
  }

  lemma {:induction false} NodeShown(p: Node)
    requires IsPrintable(p)
    ensures NodeText(p) == ShowItem(ItemOf(p))
    decreases p
  {
    match p
    case Basic(t) =>
      assert t + "" == t;
    case Marked(b, mark) =>
      NodeShown(b);
      assert ShowItem(ItemOf(b)) == ShowAtom(AtomOf(b)) + "" == ShowAtom(AtomOf(b));
      assert ShowQuantifier(QuantifierOf(p)) == mark;
    case Grouped(chains) =>
      AlternativesShown(chains);
      assert ShowItem(ItemOf(p)) == ShowAtom(AtomOf(p)) + "" == ShowAtom(AtomOf(p));
  }

  lemma {:induction false} PartsShown(ps: Parts)
    requires ArePrintable(ps)
    ensures ChainText(PartTexts(ps)) == ShowItems(ItemsOf(ps))
    decreases ps
  {
    NodeShown(ps[0]);
    if |ps| == 1 {
      ShowOne(ItemOf(ps[0]));
    } else {
      PartsShown(ps[1..]);
      ShowPerhaps(ItemsOf(ps[1..]), ItemOf(ps[0]));
      assert PartTexts(ps)[1..] == PartTexts(ps[1..]) && PartTexts(ps)[0] == NodeText(ps[0]);
    }
  }

  lemma {:induction false} JoinFirst(alts: Alternatives)
    requires |alts| > 1
    ensures JoinText(alts) == ChainText(alts[0]) + "|" + JoinText(alts[1..])
    decreases |alts|
  {
    var last := ChainText(Back(alts));
    if |alts| == 2 {
      assert alts[..1] == [alts[0]] && alts[1..] == [alts[1]];
    } else {
      var front := alts[..|alts| - 1];
      JoinFirst(front);
      assert front[1..] == alts[1..][..|alts| - 2] && Back(alts[1..]) == Back(alts);
      JoinsTogether(ChainText(alts[0]), JoinText(front[1..]), last);
    }
  }

  lemma JoinsTogether(a: string, b: string, c: string)
    ensures (a + "|" + b) + "|" + c == a + "|" + (b + "|" + c)
  {
  }

  lemma {:induction false} AlternativesShown(chains: seq<Chain>)
    requires AllPrintable(chains)
    ensures JoinText(ChainTexts(chains)) == ShowAlternatives(PatternOf(chains))
    decreases chains
  {
    PartsShown(chains[0].parts);
    if |chains| > 1 {
      AlternativesShown(chains[1..]);
      JoinFirst(ChainTexts(chains));
      assert ChainTexts(chains)[1..] == ChainTexts(chains[1..]) && PatternOf(chains)[1..] == PatternOf(chains[1..]);
    }
  }

  // ---- the language ----

  lemma OnceMeans(m: Charset, a: Atom, w: string)
    ensures InItem(m, Item(a, Once), w) <==> InAtom(m, a, w)
  {
    if InAtom(m, a, w) {
      PowerOne(m, a, w);
      assert Within(1, Once);
    }
    if InItem(m, Item(a, Once), w) {
      var u, v := PowerSplit(m, a, 1, w);
      assert u + v == u;
    }
  }

  lemma SingleItem(m: Charset, item: Item, w: string)
    ensures InSequence(m, [item], w) <==> InItem(m, item, w)
  {
    assert [item][1..] == [];
    if InItem(m, item, w) {
      OneItem(m, item, w);
    }
    if InSequence(m, [item], w) {
      var k :| 0 <= k <= |w| && InItem(m, item, w[..k]) && InSequence(m, [], w[k..]);
      assert w[..k] == w;
    }
  }

  lemma PerhapsMeans(m: Charset, items: Items, w: string)
    ensures InItem(m, Perhaps(items), w) <==> w == [] || InSequence(m, items, w)
  {
    var a := Group(true, [Sequence(items)]);
    assert InAtom(m, a, w) <==> InSequence(m, items, w) by {
      assert [Sequence(items)][0].items == items;
    }
    if w == [] {
      assert Within(0, ZeroOrOne(false)) && Power(m, a, 0, w);
    }
    if InSequence(m, items, w) {
      PowerOne(m, a, w);
      assert Within(1, ZeroOrOne(false));
    }
    if n: nat :| Within(n, ZeroOrOne(false)) && Power(m, a, n, w) {
      if n == 1 {
        var u, v := PowerSplit(m, a, 1, w);
        assert u + v == u;
      }
    }
  }

  lemma PowerFirst(m: Charset, a: Atom, n: nat, u: string, v: string)
    requires InAtom(m, a, u) && Power(m, a, n, v)
    ensures Power(m, a, n + 1, u + v)
  {
    assert (u + v)[..|u|] == u && (u + v)[|u|..] == v;
  }

  lemma Associates(u: string, v: string, y: string)
    ensures (u + v) + y == u + (v + y)
  {
  }

  lemma CutBehind(u: string, v: string, j: nat)
    requires j <= |v|
    ensures (u + v)[..|u| + j] == u + v[..j] && (u + v)[|u| + j..] == v[j..]
  {
  }

  /** Of n + 1 words of an atom, the last one can be taken off as well as the first one. */
  lemma {:induction false} PowerLast(m: Charset, a: Atom, n: nat, w: string) returns (k: nat)
    requires Power(m, a, n + 1, w)
    ensures k <= |w| && Power(m, a, n, w[..k]) && InAtom(m, a, w[k..])
    decreases n
  {
    var u, v := PowerSplit(m, a, n + 1, w);
    if n == 0 {
      k := 0;
      assert w[0..] == w == u;
    } else {
      var j := PowerLast(m, a, n - 1, v);
      k := |u| + j;
      PowerFirst(m, a, n - 1, u, v[..j]);
      CutBehind(u, v, j);
    }
  }

  lemma {:induction false} PowerMore(m: Charset, a: Atom, n: nat, x: string, y: string)
    requires Power(m, a, n, x) && InAtom(m, a, y)
    ensures Power(m, a, n + 1, x + y)
    decreases n
  {
    if n == 0 {
      PowerOne(m, a, y);
      assert x + y == y;
    } else {
      var u, v := PowerSplit(m, a, n, x);
      PowerMore(m, a, n - 1, v, y);
      PowerFirst(m, a, n, u, v + y);
      Associates(u, v, y);
    }
  }

  lemma {:induction false} NodePowerMeans(m: Charset, p: Node, n: nat, w: string)
    requires IsPrintable(p) && !p.Marked?
    ensures NodePower(m, p, n, w) <==> Power(m, AtomOf(p), n, w)
    decreases p, 1, n
  {
    if n > 0 {
      if NodePower(m, p, n, w) {
        var k :| 0 <= k <= |w| && NodePower(m, p, n - 1, w[..k]) && NodeAccepts(m, p, w[k..]);
        NodePowerMeans(m, p, n - 1, w[..k]);
        AloneMeans(m, p, w[k..]);
        PowerMore(m, AtomOf(p), n - 1, w[..k], w[k..]);
        assert w[..k] + w[k..] == w;
      }
      if Power(m, AtomOf(p), n, w) {
        var k := PowerLast(m, AtomOf(p), n - 1, w);
        NodePowerMeans(m, p, n - 1, w[..k]);
        AloneMeans(m, p, w[k..]);
      }
    }
  }

  lemma AloneMeans(m: Charset, p: Node, w: string)
    requires IsPrintable(p) && !p.Marked?
    ensures NodeAccepts(m, p, w) <==> InAtom(m, AtomOf(p), w)
    decreases p, 0, 0
  {
    if p.Grouped? {
      forall i | 0 <= i < |p.chains|
        ensures ChainAccepts(m, p.chains[i].parts, w) <==> InSequence(m, PatternOf(p.chains)[i].items, w)
      {
        PatternAt(p.chains, i);
        PartsMean(m, p.chains[i].parts, w);
      }
    }
  }

  lemma MarkMeans(p: Node, n: nat)
    requires IsPrintable(p) && p.Marked?
    ensures Allows(p.mark, n) <==> Within(n, QuantifierOf(p))
  {
  }

  lemma {:induction false} NodeMeans(m: Charset, p: Node, w: string)
    requires IsPrintable(p)
    ensures NodeAccepts(m, p, w) <==> InItem(m, ItemOf(p), w)
    decreases p, 2, 0
  {
    if p.Marked? {
      forall n: nat
        ensures Allows(p.mark, n) && NodePower(m, p.body, n, w)
                <==> Within(n, QuantifierOf(p)) && Power(m, AtomOf(p), n, w)
      {
        MarkMeans(p, n);
        NodePowerMeans(m, p.body, n, w);
      }
    } else {
      AloneMeans(m, p, w);
      OnceMeans(m, AtomOf(p), w);
    }
  }

  lemma {:induction false} PartsMean(m: Charset, ps: Parts, w: string)
    requires ArePrintable(ps)
    ensures ChainAccepts(m, ps, w) <==> InSequence(m, ItemsOf(ps), w)
    decreases ps, 0, 0
  {
    if |ps| == 1 {
      NodeMeans(m, ps[0], w);
      SingleItem(m, ItemOf(ps[0]), w);
      assert w[0..] == w;
    } else {
      var rest := ItemsOf(ps[1..]);
      forall k | 0 <= k <= |w|
        ensures (k == 0 || ChainAccepts(m, ps[1..], w[..k])) <==> InItem(m, Perhaps(rest), w[..k])
        ensures NodeAccepts(m, ps[0], w[k..]) <==> InSequence(m, [ItemOf(ps[0])], w[k..])
      {
        PartsMean(m, ps[1..], w[..k]);
        PerhapsMeans(m, rest, w[..k]);
        NodeMeans(m, ps[0], w[k..]);
        SingleItem(m, ItemOf(ps[0]), w[k..]);
      }
      assert [Perhaps(rest), ItemOf(ps[0])][1..] == [ItemOf(ps[0])];
    }
  }

  // ---- the returned text ----

  /** The pattern that is returned, but for the `^(` and `)` around it. */
  function PartialOf(alts: seq<Sequence>): seq<Sequence> { PatternOf(Transform(alts)) }

  lemma PartialMeans(m: Charset, alts: seq<Sequence>, w: string)
    requires AllSupported(alts)
    ensures Matches(m, PartialOf(alts), w) <==> Accepts(m, Transform(alts), w)
  {
    var chains := Transform(alts);
    TransformPrintable(alts);
    forall i | 0 <= i < |chains|
      ensures ChainAccepts(m, chains[i].parts, w) <==> InSequence(m, PatternOf(chains)[i].items, w)
    {
      PatternAt(chains, i);
      PartsMean(m, chains[i].parts, w);
    }
  }

  /**
    Whatever pattern is accepted as it is written: the text returned for it is a written pattern, and that pattern
    matches the reversal of every non-empty beginning of every word that the given one matches.
   */
  lemma PrintedComplete(m: Charset, alts: seq<Sequence>, w: string, k: nat)
    requires AllWritable(alts) && ToReversedPartial(ShowAlternatives(alts)).Ok?
    requires Matches(m, alts, w) && 0 < k <= |w|
    ensures ToReversedPartial(ShowAlternatives(alts)) == Ok("^(" + ShowAlternatives(PartialOf(alts)) + ")")
    ensures Matches(m, PartialOf(alts), Reversed(w[..k]))
  {
    TransformsWritten(alts);
    TransformPrintable(alts);
    AlternativesShown(Transform(alts));
    Complete(m, alts, w, k);
    PartialMeans(m, alts, Reversed(w[..k]));
  }
}

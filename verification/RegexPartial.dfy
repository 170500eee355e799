/**
  `regex_to_reversed_partial_regex` of common/regex_partial.cpp as a transformation of patterns: the new pattern,
  matched against the reversed text, accepts the reversal of every non-empty beginning of every matched word.
 */
module RegexPartial {

  // ---- patterns ----

  datatype Bounds = Exactly(n: nat) | AtLeast(least: nat) | Between(low: nat, high: nat)

  datatype Quantifier =
    | Once
    | ZeroOrMore(lazy: bool)
    | OneOrMore(lazy: bool)
    | ZeroOrOne(lazy: bool)
    | Counted(bounds: Bounds, lazy: bool)

  /** A character, an escape or a class, by its text; or a group, capturing or not. */
  datatype Atom = Single(text: string) | Group(plain: bool, alternatives: seq<Sequence>)

  datatype Sequence = Sequence(items: Items)

  datatype Item = Item(atom: Atom, quantifier: Quantifier)

  type Items = seq<Item>

  /** What one-character atoms match: a parameter, as std::regex decides it. */
  type Charset = (string, char) -> bool

  predicate Within(n: nat, q: Quantifier) {
    match q
    case Once => n == 1
    case ZeroOrMore(_) => true
    case OneOrMore(_) => n >= 1
    case ZeroOrOne(_) => n <= 1
    case Counted(Exactly(k), _) => n == k
    case Counted(AtLeast(least), _) => least <= n
    case Counted(Between(low, high), _) => low <= n <= high
  }

  ghost predicate InAtom(m: Charset, a: Atom, w: string)
    decreases a, 0
  {
    match a
    case Single(t) => |w| == 1 && m(t, w[0])
    case Group(_, alts) => exists i :: 0 <= i < |alts| && InSequence(m, alts[i].items, w)
  }

  /** w is n words of the atom, one after the other. */
  ghost predicate Power(m: Charset, a: Atom, n: nat, w: string)
    decreases a, 1, n
  {
    if n == 0 then w == []
    else exists k :: 0 <= k <= |w| && InAtom(m, a, w[..k]) && Power(m, a, n - 1, w[k..])
  }

  ghost predicate InItem(m: Charset, item: Item, w: string)
    decreases item
  {
    exists n: nat :: Within(n, item.quantifier) && Power(m, item.atom, n, w)
  }

  ghost predicate InSequence(m: Charset, items: Items, w: string)
    decreases items
  {
    if items == [] then w == []
    else exists k :: 0 <= k <= |w| && InItem(m, items[0], w[..k]) && InSequence(m, items[1..], w[k..])
  }

  ghost predicate Matches(m: Charset, alts: seq<Sequence>, w: string) {
    exists i :: 0 <= i < |alts| && InSequence(m, alts[i].items, w)
  }

  // ---- the reversed partial pattern ----

  /** A part of a sequence as it is pushed: an atom or a group, perhaps with a mark behind it. */
  datatype Node = Basic(text: string) | Marked(body: Node, mark: string) | Grouped(chains: seq<Chain>)

  datatype Chain = Chain(parts: Parts)

  type Parts = seq<Node>

  predicate Allows(mark: string, n: nat) {
    if mark == [] then n == 1
    else if mark[0] == '*' then true
    else if mark[0] == '+' then n >= 1
    else n <= 1
  }

  ghost predicate NodeAccepts(m: Charset, p: Node, w: string)
    decreases p, 0, 0
  {
    match p
    case Basic(t) => |w| == 1 && m(t, w[0])
    case Marked(b, mark) => exists n: nat :: Allows(mark, n) && NodePower(m, b, n, w)
    case Grouped(chains) => exists i :: 0 <= i < |chains| && ChainAccepts(m, chains[i].parts, w)
  }

  ghost predicate NodePower(m: Charset, p: Node, n: nat, w: string)
    decreases p, 1, n
  {
    if n == 0 then w == []
    else exists k :: 0 <= k <= |w| && NodePower(m, p, n - 1, w[..k]) && NodeAccepts(m, p, w[k..])
  }

  /** `(?:(?:c)?b)?a` for the parts a, b, c: the later parts are optional and come first. */
  ghost predicate ChainAccepts(m: Charset, ps: Parts, w: string)
    decreases ps
  {
    if ps == [] then false
    else if |ps| == 1 then NodeAccepts(m, ps[0], w)
    else exists k :: 0 <= k <= |w| && (k == 0 || ChainAccepts(m, ps[1..], w[..k])) && NodeAccepts(m, ps[0], w[k..])
  }

  ghost predicate Accepts(m: Charset, chains: seq<Chain>, w: string) {
    exists i :: 0 <= i < |chains| && ChainAccepts(m, chains[i].parts, w)
  }

  function Copies<T>(x: T, n: nat): (s: seq<T>)
    ensures |s| == n && forall i :: 0 <= i < n ==> s[i] == x
  {
    seq(n, _ => x)
  }

  function NodeOf(a: Atom): Node {
    match a
    case Single(t) => Basic(t)
    case Group(_, alts) => Grouped(seq(|alts|, i requires 0 <= i < |alts| => Chain(PartsOfAll(alts[i].items))))
  }

  /** `{m,n}` becomes m copies and then optional or starred ones. */
  function CountedParts(p: Node, b: Bounds): Parts {
    match b
    case Exactly(k) => Copies(p, k)
    case AtLeast(least) => Copies(p, least) + [Marked(p, "*")]
    case Between(low, high) => Copies(p, low) + Copies(Marked(p, "?"), if low <= high then high - low else 0)
  }

  /** A question mark behind the last part, where it is taken for one that makes the part optional or reluctant. */
  function Questioned(ps: Parts): (r: Parts)
    ensures |r| == |ps|
  {
    if ps == [] then []
    else
      var n := |ps| - 1;
      ps[..n] + [if ps[n].Marked? then Marked(ps[n].body, ps[n].mark + "?") else Marked(ps[n], "?")]
  }

  /** The parts that one element becomes. */
  function PartsOf(item: Item): Parts {
    var p := NodeOf(item.atom);
    match item.quantifier
    case Once => [p]
    case ZeroOrMore(_) => [Marked(p, "*")]
    case OneOrMore(lazy) => [Marked(p, if lazy then "+?" else "+")]
    case ZeroOrOne(lazy) => [Marked(p, if lazy then "??" else "?")]
    case Counted(b, lazy) => if lazy then Questioned(CountedParts(p, b)) else CountedParts(p, b)
  }

  function PartsOfAll(items: Items): Parts {
    if items == [] then [] else PartsOf(items[0]) + PartsOfAll(items[1..])
  }

  function Transform(alts: seq<Sequence>): seq<Chain> {
    seq(|alts|, i requires 0 <= i < |alts| => Chain(PartsOfAll(alts[i].items)))
  }

  // ---- {m,n} as copies ----

  predicate IsSimple(item: Item) { !item.quantifier.Counted? }

  function CountedItems(a: Atom, b: Bounds): (items: Items)
    ensures forall i :: 0 <= i < |items| ==> IsSimple(items[i]) && items[i].atom == a
  {
    match b
    case Exactly(k) => Copies(Item(a, Once), k)
    case AtLeast(least) => Copies(Item(a, Once), least) + [Item(a, ZeroOrMore(false))]
    case Between(low, high) =>
      Copies(Item(a, Once), low) + Copies(Item(a, ZeroOrOne(false)), if low <= high then high - low else 0)
  }

  /** What a question mark behind it makes of a copy: the last required one becomes optional. */
  function Loosened(item: Item): (r: Item)
    requires IsSimple(item)
    ensures IsSimple(r) && r.atom == item.atom
  {
    if item.quantifier.Once? then Item(item.atom, ZeroOrOne(false))
    else if item.quantifier.ZeroOrMore? then Item(item.atom, ZeroOrMore(true))
    else if item.quantifier.ZeroOrOne? then Item(item.atom, ZeroOrOne(true))
    else item
  }

  function LastLoosened(items: Items): (r: Items)
    requires forall i :: 0 <= i < |items| ==> IsSimple(items[i])
    ensures |r| == |items| && forall i :: 0 <= i < |r| ==> IsSimple(r[i]) && r[i].atom == items[i].atom
  {
    if items == [] then [] else items[..|items| - 1] + [Loosened(items[|items| - 1])]
  }

  /** The copies as elements of a pattern. */
  function Unroll(item: Item): (items: Items)
    ensures forall i :: 0 <= i < |items| ==> IsSimple(items[i]) && items[i].atom == item.atom
  {
    if !item.quantifier.Counted? then [item]
    else
      var copies := CountedItems(item.atom, item.quantifier.bounds);
      if item.quantifier.lazy then LastLoosened(copies) else copies
  }

  function UnrollAll(items: Items): (s: Items)
    ensures forall i :: 0 <= i < |s| ==> IsSimple(s[i])
  {
    if items == [] then [] else Unroll(items[0]) + UnrollAll(items[1..])
  }

  lemma {:induction false} SequenceAppend(m: Charset, a: Items, b: Items, u: string, v: string)
    requires InSequence(m, a, u) && InSequence(m, b, v)
    ensures InSequence(m, a + b, u + v)
  {
    if a == [] {
      assert a + b == b && u + v == v;
    } else {
      var k :| 0 <= k <= |u| && InItem(m, a[0], u[..k]) && InSequence(m, a[1..], u[k..]);
      SequenceAppend(m, a[1..], b, u[k..], v);
      assert (a + b)[1..] == a[1..] + b && (u + v)[..k] == u[..k] && (u + v)[k..] == u[k..] + v;
    }
  }

  lemma PowerSplit(m: Charset, a: Atom, n: nat, w: string) returns (u: string, v: string)
    requires n > 0 && Power(m, a, n, w)
    ensures w == u + v && InAtom(m, a, u) && Power(m, a, n - 1, v)
  {
    var k :| 0 <= k <= |w| && InAtom(m, a, w[..k]) && Power(m, a, n - 1, w[k..]);
    u, v := w[..k], w[k..];
  }

  lemma PowerOne(m: Charset, a: Atom, w: string)
    requires InAtom(m, a, w)
    ensures Power(m, a, 1, w)
  {
    assert w[..|w|] == w && Power(m, a, 0, w[|w|..]);
  }

  lemma ItemFirst(m: Charset, item: Item, items: Items, u: string, v: string)
    requires InItem(m, item, u) && InSequence(m, items, v)
    ensures InSequence(m, [item] + items, u + v)
  {
    assert (u + v)[..|u|] == u && (u + v)[|u|..] == v && ([item] + items)[1..] == items;
  }

  /** n words of the atom match as many copies as there are words, and optional copies may be left over. */
  lemma {:induction false} OptionalCopies(m: Charset, a: Atom, n: nat, most: nat, w: string)
    requires n <= most && Power(m, a, n, w)
    ensures InSequence(m, Copies(Item(a, ZeroOrOne(false)), most), w)
    decreases most
  {
    var item := Item(a, ZeroOrOne(false));
    if most > 0 {
      assert Copies(item, most) == [item] + Copies(item, most - 1);
      if n == 0 {
        OptionalCopies(m, a, 0, most - 1, w);
        assert Power(m, a, 0, []);
        ItemFirst(m, item, Copies(item, most - 1), [], w);
        assert [] + w == w;
      } else {
        var u, v := PowerSplit(m, a, n, w);
        OptionalCopies(m, a, n - 1, most - 1, v);
        PowerOne(m, a, u);
        ItemFirst(m, item, Copies(item, most - 1), u, v);
      }
    }
  }

  lemma {:induction false} RequiredCopies(m: Charset, a: Atom, k: nat, n: nat, w: string, rest: Items)
    requires k <= n && Power(m, a, n, w)
    requires forall v :: Power(m, a, n - k, v) ==> InSequence(m, rest, v)
    ensures InSequence(m, Copies(Item(a, Once), k) + rest, w)
    decreases k
  {
    var item := Item(a, Once);
    if k == 0 {
      assert Copies(item, 0) + rest == rest;
    } else {
      var u, v := PowerSplit(m, a, n, w);
      RequiredCopies(m, a, k - 1, n - 1, v, rest);
      PowerOne(m, a, u);
      ItemFirst(m, item, Copies(item, k - 1) + rest, u, v);
      assert Copies(item, k) + rest == [item] + (Copies(item, k - 1) + rest);
    }
  }

  lemma OneItem(m: Charset, item: Item, w: string)
    requires InItem(m, item, w)
    ensures InSequence(m, [item], w)
  {
    ItemFirst(m, item, [], w, []);
    assert [item] + [] == [item] && w + [] == w;
  }

  /** n words of the atom, n being within the bounds, are a word of the copies. */
  lemma CountedKeeps(m: Charset, a: Atom, b: Bounds, n: nat, w: string)
    requires Within(n, Counted(b, false)) && Power(m, a, n, w)
    ensures InSequence(m, CountedItems(a, b), w)
  {
    match b
    case Exactly(k) =>
      RequiredCopies(m, a, k, n, w, []);
      assert Copies(Item(a, Once), k) + [] == Copies(Item(a, Once), k);
    case AtLeast(least) =>
      var star := Item(a, ZeroOrMore(false));
      forall v | Power(m, a, n - least, v)
        ensures InSequence(m, [star], v)
      {
        assert InItem(m, star, v);
        OneItem(m, star, v);
      }
      RequiredCopies(m, a, least, n, w, [star]);
    case Between(low, high) =>
      var left: nat := n - low;
      forall v | Power(m, a, left, v)
        ensures InSequence(m, Copies(Item(a, ZeroOrOne(false)), high - low), v)
      {
        OptionalCopies(m, a, left, high - low, v);
      }
      RequiredCopies(m, a, low, n, w, Copies(Item(a, ZeroOrOne(false)), high - low));
  }

  lemma LoosenedKeeps(m: Charset, item: Item, w: string)
    requires IsSimple(item) && InItem(m, item, w)
    ensures InItem(m, Loosened(item), w)
  {
    var n: nat :| Within(n, item.quantifier) && Power(m, item.atom, n, w);
    assert Within(n, Loosened(item).quantifier);
  }

  lemma {:induction false} LastLoosenedKeeps(m: Charset, items: Items, w: string)
    requires (forall i :: 0 <= i < |items| ==> IsSimple(items[i])) && InSequence(m, items, w)
    ensures InSequence(m, LastLoosened(items), w)
  {
    if items != [] {
      var k :| 0 <= k <= |w| && InItem(m, items[0], w[..k]) && InSequence(m, items[1..], w[k..]);
      assert w[..k] + w[k..] == w;
      if |items| == 1 {
        LoosenedKeeps(m, items[0], w[..k]);
        ItemFirst(m, Loosened(items[0]), [], w[..k], w[k..]);
        assert LastLoosened(items) == [Loosened(items[0])] + [];
      } else {
        LastLoosenedKeeps(m, items[1..], w[k..]);
        ItemFirst(m, items[0], LastLoosened(items[1..]), w[..k], w[k..]);
        assert LastLoosened(items) == [items[0]] + LastLoosened(items[1..]);
      }
    }
  }

  /** Every word of an element is a word of its copies. */
  lemma UnrollKeeps(m: Charset, item: Item, w: string)
    requires InItem(m, item, w)
    ensures InSequence(m, Unroll(item), w)
  {
    if item.quantifier.Counted? {
      var n: nat :| Within(n, item.quantifier) && Power(m, item.atom, n, w);
      CountedKeeps(m, item.atom, item.quantifier.bounds, n, w);
      if item.quantifier.lazy {
        LastLoosenedKeeps(m, CountedItems(item.atom, item.quantifier.bounds), w);
      }
    } else {
      OneItem(m, item, w);
    }
  }

  lemma {:induction false} UnrollAllKeeps(m: Charset, items: Items, w: string)
    requires InSequence(m, items, w)
    ensures InSequence(m, UnrollAll(items), w)
  {
    if items != [] {
      var k :| 0 <= k <= |w| && InItem(m, items[0], w[..k]) && InSequence(m, items[1..], w[k..]);
      UnrollKeeps(m, items[0], w[..k]);
      UnrollAllKeeps(m, items[1..], w[k..]);
      SequenceAppend(m, Unroll(items[0]), UnrollAll(items[1..]), w[..k], w[k..]);
      assert w[..k] + w[k..] == w;
    }
  }

  // ---- completeness ----

  function Reversed(w: string): (r: string)
    ensures |r| == |w|
  {
    if w == [] then [] else Reversed(w[1..]) + [w[0]]
  }

  lemma {:induction false} ReversedAppend(u: string, v: string)
    ensures Reversed(u + v) == Reversed(v) + Reversed(u)
  {
    if u == [] {
      assert u + v == v && Reversed(v) + [] == Reversed(v);
    } else {
      assert (u + v)[1..] == u[1..] + v;
      ReversedAppend(u[1..], v);
    }
  }

  /** What is left of w when its last characters are missing; nothing is left only of the empty word. */
  predicate IsBeginning(w: string, u: string) { u <= w && (u == [] ==> w == []) }

  /** A sequence whose loop over the parts starts with at least one of them, and so for all groups inside. */
  predicate IsSupported(items: Items)
    decreases items
  {
    PartsOfAll(items) != [] && forall i :: 0 <= i < |items| ==> IsSupportedItem(items[i])
  }

  predicate IsSupportedItem(item: Item)
    decreases item
  {
    IsSupportedAtom(item.atom)
  }

  predicate IsSupportedAtom(a: Atom)
    decreases a
  {
    a.Group? ==> |a.alternatives| > 0 && forall i :: 0 <= i < |a.alternatives| ==> IsSupported(a.alternatives[i].items)
  }

  predicate AllSupported(alts: seq<Sequence>) {
    |alts| > 0 && forall i :: 0 <= i < |alts| ==> IsSupported(alts[i].items)
  }

  predicate IsMark(mark: string, q: Quantifier) {
    match q
    case ZeroOrMore(_) => mark == "*" || mark == "*?"
    case OneOrMore(lazy) => mark == if lazy then "+?" else "+"
    case ZeroOrOne(lazy) => mark == if lazy then "??" else "?"
    case _ => false
  }

  predicate IsPart(p: Node, item: Item) {
    if item.quantifier.Once? then p == NodeOf(item.atom)
    else p.Marked? && p.body == NodeOf(item.atom) && IsMark(p.mark, item.quantifier)
  }

  predicate ArePartsOf(ps: Parts, items: Items) {
    |ps| == |items| && forall i :: 0 <= i < |ps| ==> IsPart(ps[i], items[i])
  }

  lemma {:induction false} PartsUnroll(items: Items)
    ensures ArePartsOf(PartsOfAll(items), UnrollAll(items))
  {
    if items != [] {
      PartsUnroll(items[1..]);
      PartsUnrollOne(items[0]);
      ArePartsAppend(PartsOf(items[0]), Unroll(items[0]), PartsOfAll(items[1..]), UnrollAll(items[1..]));
    }
  }

  lemma PartsUnrollOne(item: Item)
    ensures ArePartsOf(PartsOf(item), Unroll(item))
  {
    if item.quantifier.Counted? {
      CountedUnroll(item.atom, item.quantifier.bounds);
    }
  }

  lemma CountedUnroll(a: Atom, b: Bounds)
    ensures ArePartsOf(CountedParts(NodeOf(a), b), CountedItems(a, b))
    ensures ArePartsOf(Questioned(CountedParts(NodeOf(a), b)), LastLoosened(CountedItems(a, b)))
  {
    var ps, items := CountedParts(NodeOf(a), b), CountedItems(a, b);
    CountedUnrollAt(a, b);
    if ps != [] {
      var n := |ps| - 1;
      assert IsPart(Questioned(ps)[n], LastLoosened(items)[n]);
    }
  }

  lemma CountedUnrollAt(a: Atom, b: Bounds)
    ensures var ps, items := CountedParts(NodeOf(a), b), CountedItems(a, b);
            ArePartsOf(ps, items)
            && forall i :: 0 <= i < |ps| && !items[i].quantifier.Once? ==>
                 ps[i].Marked? && items[i].quantifier in [ZeroOrMore(false), ZeroOrOne(false)]
                 && ps[i].mark == if items[i].quantifier.ZeroOrMore? then "*" else "?"
    ensures !NodeOf(a).Marked?
  {
  }

  lemma ArePartsAppend(ps: Parts, a: Items, qs: Parts, b: Items)
    requires ArePartsOf(ps, a) && ArePartsOf(qs, b)
    ensures ArePartsOf(ps + qs, a + b)
  {
  }

  /** The atoms of a sequence are smaller than the group, and so are the copies. */
  ghost predicate Below(items: Items, bound: Atom) {
    forall i :: 0 <= i < |items| ==> items[i].atom < bound && IsSupportedItem(items[i])
  }

  lemma {:induction false} UnrollBelow(items: Items, bound: Atom)
    requires Below(items, bound)
    ensures Below(UnrollAll(items), bound)
  {
    if items != [] {
      UnrollBelow(items[1..], bound);
      assert items[0].atom < bound && IsSupportedItem(items[0]);
    }
  }

  lemma AlternativeBelow(alts: seq<Sequence>, plain: bool, i: nat)
    requires AllSupported(alts) && i < |alts|
    ensures Below(alts[i].items, Group(plain, alts))
  {
    forall j | 0 <= j < |alts[i].items|
      ensures alts[i].items[j].atom < Group(plain, alts)
    {
      assert alts[i].items[j].atom < alts[i].items[j];
      assert alts[i].items[j] < alts[i];
      assert alts[i] < Group(plain, alts);
    }
  }

  lemma ChainLast(m: Charset, ps: Parts, y: string)
    requires ps != [] && NodeAccepts(m, ps[0], y)
    ensures ChainAccepts(m, ps, y)
  {
    if |ps| > 1 {
      assert y[0..] == y;
    }
  }

  lemma ChainMore(m: Charset, ps: Parts, x: string, y: string)
    requires |ps| > 1 && ChainAccepts(m, ps[1..], x) && NodeAccepts(m, ps[0], y)
    ensures ChainAccepts(m, ps, x + y)
  {
    var w := x + y;
    assert w[..|x|] == x && w[|x|..] == y;
  }

  lemma NodePowerMore(m: Charset, p: Node, n: nat, x: string, y: string)
    requires NodePower(m, p, n, x) && NodeAccepts(m, p, y)
    ensures NodePower(m, p, n + 1, x + y)
  {
    var w := x + y;
    assert w[..|x|] == x && w[|x|..] == y;
  }

  /** A beginning of u + v is a beginning of u, or all of u and a beginning of v. */
  lemma BeginningSplits(u: string, v: string, x: string) returns (inside: bool, y: string)
    requires IsBeginning(u + v, x)
    ensures if inside then x == y && IsBeginning(u, x)
            else IsBeginning(v, y) && x == u + y && Reversed(x) == Reversed(y) + Reversed(u)
  {
    if |x| <= |u| && (x != [] || u == []) && (x != [] || v == []) {
      inside, y := true, x;
      assert x <= u;
      assert x == [] ==> u + v == [];
    } else {
      inside, y := false, x[|u|..];
      assert x == u + y;
      ReversedAppend(u, y);
    }
  }

  lemma {:induction false} AtomComplete(m: Charset, a: Atom, w: string, x: string)
    requires IsSupportedAtom(a) && InAtom(m, a, w) && IsBeginning(w, x)
    ensures NodeAccepts(m, NodeOf(a), Reversed(x))
    decreases a, 2
  {
    match a
    case Single(t) =>
      assert x == w && x[1..] == [] && Reversed(x) == [x[0]];
    case Group(plain, alts) =>
      var i :| 0 <= i < |alts| && InSequence(m, alts[i].items, w);
      AlternativeBelow(alts, plain, i);
      AlternativeComplete(m, a, alts[i].items, w, x);
      assert NodeOf(a).chains[i].parts == PartsOfAll(alts[i].items);
  }

  lemma {:induction false} AlternativeComplete(m: Charset, bound: Atom, items: Items, w: string, x: string)
    requires PartsOfAll(items) != [] && Below(items, bound) && InSequence(m, items, w) && IsBeginning(w, x)
    ensures ChainAccepts(m, PartsOfAll(items), Reversed(x))
    decreases bound, 1
  {
    PartsUnroll(items);
    UnrollBelow(items, bound);
    UnrollAllKeeps(m, items, w);
    ChainComplete(m, bound, UnrollAll(items), PartsOfAll(items), w, x);
  }

  lemma {:induction false} ChainComplete(m: Charset, bound: Atom, items: Items, ps: Parts, w: string, x: string)
    requires items != [] && ArePartsOf(ps, items) && Below(items, bound) && InSequence(m, items, w) && IsBeginning(w, x)
    ensures ChainAccepts(m, ps, Reversed(x))
    decreases bound, 0, |items|
  {
    var k :| 0 <= k <= |w| && InItem(m, items[0], w[..k]) && InSequence(m, items[1..], w[k..]);
    var u, v := w[..k], w[k..];
    assert w == u + v;
    var inside, y := BeginningSplits(u, v, x);
    if inside || |items| == 1 {
      assert |items| == 1 ==> v == [] && w == u;
      PartComplete(m, items[0], ps[0], u, x);
      ChainLast(m, ps, Reversed(x));
    } else {
      PartComplete(m, items[0], ps[0], u, u);
      ChainComplete(m, bound, items[1..], ps[1..], v, y);
      ChainMore(m, ps, Reversed(y), Reversed(u));
    }
  }

  lemma {:induction false} PartComplete(m: Charset, item: Item, p: Node, w: string, x: string)
    requires IsSupportedAtom(item.atom) && IsPart(p, item) && IsSimple(item) && InItem(m, item, w) && IsBeginning(w, x)
    ensures NodeAccepts(m, p, Reversed(x))
    decreases item.atom, 4
  {
    var n: nat :| Within(n, item.quantifier) && Power(m, item.atom, n, w);
    if item.quantifier.Once? {
      var u, v := PowerSplit(m, item.atom, 1, w);
      assert u + v == u;
      AtomComplete(m, item.atom, w, x);
    } else {
      var n' := PowerComplete(m, item.atom, n, w, x);
      assert Allows(p.mark, n');
    }
  }

  lemma {:induction false} PowerComplete(m: Charset, a: Atom, n: nat, w: string, x: string) returns (n': nat)
    requires IsSupportedAtom(a) && Power(m, a, n, w) && IsBeginning(w, x)
    ensures n' <= n && (n > 0 ==> n' > 0) && NodePower(m, NodeOf(a), n', Reversed(x))
    decreases a, 3, n
  {
    if n == 0 {
      n' := 0;
    } else {
      var u, v := PowerSplit(m, a, n, w);
      var inside, y := BeginningSplits(u, v, x);
      if inside {
        AtomComplete(m, a, u, x);
        assert NodePower(m, NodeOf(a), 0, []);
        NodePowerMore(m, NodeOf(a), 0, [], Reversed(x));
        assert [] + Reversed(x) == Reversed(x);
        n' := 1;
      } else {
        n' := PowerComplete(m, a, n - 1, v, y);
        AtomComplete(m, a, u, u);
        NodePowerMore(m, NodeOf(a), n', Reversed(y), Reversed(u));
        n' := n' + 1;
      }
    }
  }

  /** Every non-empty beginning of every matched word, reversed, is accepted by the reversed partial pattern. */
  lemma Complete(m: Charset, alts: seq<Sequence>, w: string, k: nat)
    requires AllSupported(alts) && Matches(m, alts, w) && 0 < k <= |w|
    ensures Accepts(m, Transform(alts), Reversed(w[..k]))
  {
    var i :| 0 <= i < |alts| && InSequence(m, alts[i].items, w);
    AlternativeBelow(alts, true, i);
    AlternativeComplete(m, Group(true, alts), alts[i].items, w, w[..k]);
    assert Transform(alts)[i].parts == PartsOfAll(alts[i].items);
  }
}

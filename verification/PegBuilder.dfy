/**
  The parser builder: an arena that grows in place, flattening and reference resolution as the source does
  them, and the JSON rules, whose arena is a stream grammar.
 */
module PegBuilder {
  import opened Hiding
  import opened Wrappers
  import opened Utf8
  import opened Peg
  import opened PegRewrite
  import opened PegStreaming

  predicate Below(ids: seq<ParserId>, n: nat) { forall i :: 0 <= i < |ids| ==> ids[i] < n }

  /** The children of p are among the first n parsers. */
  predicate ChildrenBelow(p: Parser, n: nat) {
    match p
    case Sequence(cs) => Below(cs, n)
    case Choice(cs) => Below(cs, n)
    case Repetition(c, _, _) => c < n
    case _ => IsWrapper(p) ==> p.child < n
  }

  predicate RefKnown(g: Arena, p: Parser) { p.Ref? ==> p.name in g.rules }

  /** Every child, rule and referenced name exists, and every parser is streamable. */
  ghost predicate IsSane(g: Arena) {
    && (forall i :: 0 <= i < |g.parsers| ==> ChildrenBelow(g.parsers[i], |g.parsers|))
    && (forall i :: 0 <= i < |g.parsers| ==> RefKnown(g, g.parsers[i]))
    && (forall name :: name in g.rules ==> g.rules[name] < |g.parsers|)
    && (g.root.Some? ==> g.root.value < |g.parsers|)
    && IsStreamGrammar(g)
  }

  ghost predicate Sane(g: Arena) { forall k {:trigger Open(k)} :: Open(k) ==> IsSane(g) }

  /** A parser that a sane arena can take. */
  predicate MayJoin(g: Arena, p: Parser) { ChildrenBelow(p, |g.parsers|) && RefKnown(g, p) && IsStreamable(g, p) }

  lemma SaneAdd(g: Arena, p: Parser)
    requires Sane(g) && MayJoin(g, p)
    ensures Sane(g.(parsers := g.parsers + [p]))
  {
    assert Open(0);
    var g' := g.(parsers := g.parsers + [p]);
    forall i | 0 <= i < |g'.parsers|
      ensures ChildrenBelow(g'.parsers[i], |g'.parsers|) && RefKnown(g', g'.parsers[i])
              && IsStreamable(g', g'.parsers[i])
    {
      assert i < |g.parsers| ==>
          ChildrenBelow(g.parsers[i], |g.parsers|) && RefKnown(g, g.parsers[i]) && IsStreamable(g, g.parsers[i]);
    }
  }

  lemma FlatBelow(g: Arena, ids: seq<ParserId>)
    requires Below(ids, |g.parsers|)
    ensures FlattenSequence(g, ids).Some? && FlattenChoice(g, ids).Some?
  {
    if ids != [] {
      assert Below(ids[1..], |g.parsers|);
      FlatBelow(g, ids[1..]);
    }
  }

  lemma FlatSane(g: Arena, ids: seq<ParserId>)
    requires Sane(g) && Below(ids, |g.parsers|)
    ensures FlattenSequence(g, ids).Some? && Below(FlattenSequence(g, ids).value, |g.parsers|)
    ensures FlattenChoice(g, ids).Some? && Below(FlattenChoice(g, ids).value, |g.parsers|)
    ensures ids != [] ==> FlattenChoice(g, ids).value != []
  {
    assert Open(0);
    FlatBelow(g, ids);
    if ids != [] {
      assert Below(ids[1..], |g.parsers|);
      FlatSane(g, ids[1..]);
      var p := g.parsers[ids[0]];
      assert ChildrenBelow(p, |g.parsers|) && IsStreamable(g, p);
    }
  }

  lemma {:induction false} FlattenSequenceSnoc(g: Arena, ids: seq<ParserId>, id: ParserId)
    requires Below(ids, |g.parsers|) && id < |g.parsers|
    ensures FlattenSequence(g, ids).Some? && FlattenSequence(g, ids + [id]).Some?
    ensures FlattenSequence(g, ids + [id]).value
            == FlattenSequence(g, ids).value + if g.parsers[id].Sequence? then g.parsers[id].children else [id]
  {
    FlatBelow(g, ids);
    FlatBelow(g, ids + [id]);
    if ids == [] {
      assert [id][1..] == [];
    } else {
      assert (ids + [id])[1..] == ids[1..] + [id];
      FlattenSequenceSnoc(g, ids[1..], id);
    }
  }

  lemma {:induction false} FlattenChoiceSnoc(g: Arena, ids: seq<ParserId>, id: ParserId)
    requires Below(ids, |g.parsers|) && id < |g.parsers|
    ensures FlattenChoice(g, ids).Some? && FlattenChoice(g, ids + [id]).Some?
    ensures FlattenChoice(g, ids + [id]).value
            == FlattenChoice(g, ids).value + if g.parsers[id].Choice? then g.parsers[id].children else [id]
  {
    FlatBelow(g, ids);
    FlatBelow(g, ids + [id]);
    if ids == [] {
      assert [id][1..] == [];
    } else {
      assert (ids + [id])[1..] == ids[1..] + [id];
      FlattenChoiceSnoc(g, ids[1..], id);
    }
  }

  // ---- reference resolution in place ----

  /** Two arenas that agree on which parsers are references, and to what. */
  ghost predicate SameRefs(g: Arena, g': Arena) {
    && |g'.parsers| == |g.parsers| && g'.rules == g.rules
    && forall i :: 0 <= i < |g.parsers| ==> (g.parsers[i].Ref? || g'.parsers[i].Ref? ==> g'.parsers[i] == g.parsers[i])
  }

  lemma {:induction false} SameResolveIds(g: Arena, g': Arena, ids: seq<ParserId>)
    requires SameRefs(g, g')
    ensures ResolveIds(g', ids) == ResolveIds(g, ids)
  {
    if ids != [] {
      SameResolveIds(g, g', ids[1..]);
    }
  }

  lemma SameResolve(g: Arena, g': Arena, p: Parser)
    requires SameRefs(g, g')
    ensures ResolveParser(g', p) == ResolveParser(g, p)
  {
    match p
    case Sequence(cs) => SameResolveIds(g, g', cs);
    case Choice(cs) => SameResolveIds(g, g', cs);
    case _ =>
  }

  lemma ResolvedIsRef(g: Arena, p: Parser)
    ensures var r := ResolveParser(g, p); r.Some? ==> (p.Ref? || r.value.Ref? ==> r.value == p)
  {
  }

  /** No reference that `resolve_refs` follows is dangling. */
  ghost predicate Resolvable(g: Arena) {
    && (forall i :: 0 <= i < |g.parsers| ==> ResolveParser(g, g.parsers[i]).Some?)
    && (g.root.Some? ==> ResolveId(g, g.root.value).Some?)
  }

  lemma {:induction false} KnownIds(g: Arena, ids: seq<ParserId>)
    requires Below(ids, |g.parsers|) && forall i :: 0 <= i < |g.parsers| ==> RefKnown(g, g.parsers[i])
    ensures ResolveIds(g, ids).Some?
  {
    if ids != [] {
      assert Below(ids[1..], |g.parsers|) && RefKnown(g, g.parsers[ids[0]]);
      KnownIds(g, ids[1..]);
    }
  }

  lemma SaneResolvable(g: Arena)
    requires Sane(g)
    ensures Resolvable(g)
  {
    assert Open(0);
    forall c | 0 <= c < |g.parsers|
      ensures ResolveId(g, c).Some?
    {
      assert RefKnown(g, g.parsers[c]);
    }
    forall i | 0 <= i < |g.parsers|
      ensures ResolveParser(g, g.parsers[i]).Some?
    {
      var p := g.parsers[i];
      assert ChildrenBelow(p, |g.parsers|);
      if p.Sequence? || p.Choice? {
        KnownIds(g, p.children);
      }
    }
  }

  /** A stream grammar stays one. */
  lemma ResolvedStreams(g: Arena, g': Arena)
    requires Resolved(g, g') && Sane(g)
    ensures IsStreamGrammar(g')
  {
    assert Open(0);
    forall i | 0 <= i < |g'.parsers|
      ensures IsStreamable(g', g'.parsers[i])
    {
      var p := g.parsers[i];
      assert ResolveParser(g, p) == Some(g'.parsers[i]) && IsStreamable(g, p) && ChildrenBelow(p, |g.parsers|);
      if p.And? || p.Not? {
        var c := g.parsers[p.child];
        assert IsOneShot(c) && ResolveParser(g, c) == Some(g'.parsers[p.child]);
      }
    }
  }

  // ---- what a parser says, without the numbers of parsers ----

  /** A parser without children, a name, sequences and choices, and one parser around another. */
  datatype Shape =
    | Leaf(p: Parser)
    | Refers(name: string)
    | InOrder(all: seq<Shape>)
    | OneOf(all: seq<Shape>)
    | Around(outer: Parser, body: Shape)

  predicate HasChild(p: Parser) { p.Repetition? || IsWrapper(p) }

  function ShapesAt(shapes: seq<Shape>, ids: seq<ParserId>): (r: seq<Shape>)
    requires Below(ids, |shapes|)
    ensures |r| == |ids|
  {
    seq(|ids|, i requires 0 <= i < |ids| => shapes[ids[i]])
  }

  function ShapeOf(p: Parser, shapes: seq<Shape>): Shape
    requires ChildrenBelow(p, |shapes|)
  {
    if p.Sequence? then InOrder(ShapesAt(shapes, p.children))
    else if p.Choice? then OneOf(ShapesAt(shapes, p.children))
    else if p.Ref? then Refers(p.name)
    else if HasChild(p) then Around(p.(child := 0), shapes[p.child])
    else Leaf(p)
  }

  ghost predicate IsDescribed(parsers: seq<Parser>, shapes: seq<Shape>) {
    |parsers| == |shapes|
    && forall i :: 0 <= i < |parsers| ==>
       ChildrenBelow(parsers[i], |shapes|) && shapes[i] == ShapeOf(parsers[i], shapes)
  }

  /** The shapes of all parsers, in the order in which they were added. */
  ghost predicate Described(parsers: seq<Parser>, shapes: seq<Shape>) {
    |parsers| == |shapes| && forall k {:trigger Open(k)} :: Open(k) ==> IsDescribed(parsers, shapes)
  }

  lemma DescribedAdd(parsers: seq<Parser>, shapes: seq<Shape>, p: Parser)
    requires Described(parsers, shapes) && ChildrenBelow(p, |parsers|)
    ensures Described(parsers + [p], shapes + [ShapeOf(p, shapes)])
  {
    assert Open(0);
    var more := shapes + [ShapeOf(p, shapes)];
    forall i | 0 <= i <= |parsers|
      ensures ChildrenBelow((parsers + [p])[i], |more|) && more[i] == ShapeOf((parsers + [p])[i], more)
    {
      SameShape((parsers + [p])[i], shapes, more);
    }
  }

  lemma SameShape(p: Parser, shapes: seq<Shape>, more: seq<Shape>)
    requires ChildrenBelow(p, |shapes|) && shapes <= more
    ensures ChildrenBelow(p, |more|) && ShapeOf(p, more) == ShapeOf(p, shapes)
  {
    if p.Sequence? || p.Choice? {
      assert ShapesAt(more, p.children) == ShapesAt(shapes, p.children);
    }
  }

  /** What a flattened sequence puts in order, and what a flattened choice chooses from. */
  function FlatOrder(ss: seq<Shape>): seq<Shape> {
    if ss == [] then [] else (if ss[0].InOrder? then ss[0].all else [ss[0]]) + FlatOrder(ss[1..])
  }

  function FlatOneOf(ss: seq<Shape>): seq<Shape> {
    if ss == [] then [] else (if ss[0].OneOf? then ss[0].all else [ss[0]]) + FlatOneOf(ss[1..])
  }

  lemma {:induction false} OrderOfFlattened(g: Arena, shapes: seq<Shape>, ids: seq<ParserId>)
    requires Described(g.parsers, shapes) && Below(ids, |shapes|)
    requires FlattenSequence(g, ids).Some? && Below(FlattenSequence(g, ids).value, |shapes|)
    ensures ShapesAt(shapes, FlattenSequence(g, ids).value) == FlatOrder(ShapesAt(shapes, ids))
  {
    assert Open(0);
    if ids != [] {
      var p, first, rest := g.parsers[ids[0]], [ids[0]], FlattenSequence(g, ids[1..]).value;
      if p.Sequence? {
        first := p.children;
      }
      assert FlattenSequence(g, ids).value == first + rest;
      BelowSplit(first, rest, |shapes|);
      OrderOfFlattened(g, shapes, ids[1..]);
      AtAppend(shapes, first, rest);
      assert ShapesAt(shapes, ids)[1..] == ShapesAt(shapes, ids[1..]) && ShapesAt(shapes, [ids[0]]) == [shapes[ids[0]]];
    }
  }

  lemma {:induction false} ChoiceOfFlattened(g: Arena, shapes: seq<Shape>, ids: seq<ParserId>)
    requires Described(g.parsers, shapes) && Below(ids, |shapes|)
    requires FlattenChoice(g, ids).Some? && Below(FlattenChoice(g, ids).value, |shapes|)
    ensures ShapesAt(shapes, FlattenChoice(g, ids).value) == FlatOneOf(ShapesAt(shapes, ids))
  {
    assert Open(0);
    if ids != [] {
      var p, first, rest := g.parsers[ids[0]], [ids[0]], FlattenChoice(g, ids[1..]).value;
      if p.Choice? {
        first := p.children;
      }
      assert FlattenChoice(g, ids).value == first + rest;
      BelowSplit(first, rest, |shapes|);
      ChoiceOfFlattened(g, shapes, ids[1..]);
      AtAppend(shapes, first, rest);
      assert ShapesAt(shapes, ids)[1..] == ShapesAt(shapes, ids[1..]) && ShapesAt(shapes, [ids[0]]) == [shapes[ids[0]]];
    }
  }

  lemma BelowSplit(a: seq<ParserId>, b: seq<ParserId>, n: nat)
    requires Below(a + b, n)
    ensures Below(a, n) && Below(b, n)
  {
    forall i | 0 <= i < |b|
      ensures b[i] < n
    {
      assert (a + b)[|a| + i] == b[i];
    }
    forall i | 0 <= i < |a|
      ensures a[i] < n
    {
      assert (a + b)[i] == a[i];
    }
  }

  lemma AtAppend(shapes: seq<Shape>, a: seq<ParserId>, b: seq<ParserId>)
    requires Below(a, |shapes|) && Below(b, |shapes|)
    ensures Below(a + b, |shapes|) && ShapesAt(shapes, a + b) == ShapesAt(shapes, a) + ShapesAt(shapes, b)
  {
  }

  lemma {:induction false} NoneInOrder(ss: seq<Shape>)
    requires forall i :: 0 <= i < |ss| ==> !ss[i].InOrder?
    ensures FlatOrder(ss) == ss
  {
    if ss != [] {
      NoneInOrder(ss[1..]);
    }
  }

  lemma {:induction false} NoneOneOf(ss: seq<Shape>)
    requires forall i :: 0 <= i < |ss| ==> !ss[i].OneOf?
    ensures FlatOneOf(ss) == ss
  {
    if ss != [] {
      NoneOneOf(ss[1..]);
    }
  }

  // ---- the JSON rules ----

  /** An ASCII literal of the source. */
  function Ascii(s: string): seq<Byte> { seq(|s|, i requires 0 <= i < |s| => s[i] as int % 0x100) }

  const JSON_RULES: set<string> :=
    {"json-value", "json-object", "json-array", "json-string", "json-number", "json-bool", "json-null"}

  function Lit(text: string): Shape { Leaf(Literal(Ascii(text))) }

  function Times(body: Shape, lo: int, hi: int): Shape { Around(Repetition(0, lo, hi), body) }

  function CharsOf(ranges: seq<Range>, lo: int, hi: int): Shape { Leaf(Chars(ranges, false, lo, hi)) }

  const DIGIT: Range := Range('0' as int, '9' as int)

  function OneChar(c: char): Range { Range(c as int, c as int) }

  function NullShape(): Shape { Lit("null") }

  function BoolShape(): Shape { OneOf([Lit("true"), Lit("false")]) }

  function StringShape(): Shape { InOrder([Lit("\""), Leaf(String('"' as int)), Lit("\"")]) }

  /** 0, or digits of which the first is not 0. */
  function IntegerShape(): Shape {
    OneOf([Lit("0"), InOrder([CharsOf([Range('1' as int, '9' as int)], 1, 1), CharsOf([DIGIT], 0, -1)])])
  }

  function FractionShape(): Shape { InOrder([Lit("."), CharsOf([DIGIT], 1, -1)]) }

  function ExponentShape(): Shape {
    InOrder([OneOf([Lit("e"), Lit("E")]), Times(CharsOf([OneChar('+'), OneChar('-')], 1, 1), 0, 1),
        CharsOf([DIGIT], 1, -1)])
  }

  /** Not before a character that a number could go on with. */
  function NumberEnd(): Shape {
    Around(Not(0), CharsOf([DIGIT, OneChar('.'), OneChar('e'), OneChar('E'), OneChar('+'), OneChar('-')], 1, 1))
  }

  function NumberShape(): Shape {
    InOrder([Times(Lit("-"), 0, 1), IntegerShape(), Times(FractionShape(), 0, 1), Times(ExponentShape(), 0, 1),
        NumberEnd()])
  }

  function MemberShapes(): seq<Shape> {
    [Refers("json-string"), Leaf(Space), Lit(":"), Leaf(Space), Refers("json-value")]
  }

  /** A member, and more of them behind commas. */
  function MembersShapes(): seq<Shape> {
    MemberShapes() + [Times(InOrder([Leaf(Space), Lit(","), Leaf(Space)] + MemberShapes()), 0, -1)]
  }

  /** An element, and more of them behind commas; unlike among members, no space may stand before a comma. */
  function ElementsShapes(): seq<Shape> {
    [Refers("json-value"), Times(InOrder([Lit(","), Leaf(Space), Refers("json-value")]), 0, -1)]
  }

  /** `open ws (close | body ws close)`, the common form of objects and arrays. */
  function EnclosedShape(left: string, right: string, body: seq<Shape>): Shape {
    InOrder([Lit(left), Leaf(Space), OneOf([Lit(right), InOrder(body + [Leaf(Space), Lit(right)])])])
  }

  function ValueShape(): Shape {
    OneOf([Refers("json-object"), Refers("json-array"), Refers("json-string"), Refers("json-number"),
        Refers("json-bool"),
           Refers("json-null")])
  }

  /** What each rule says. */
  function JsonBody(name: string): Shape {
    if name == "json-object" then EnclosedShape("{", "}", MembersShapes())
    else if name == "json-array" then EnclosedShape("[", "]", ElementsShapes())
    else if name == "json-string" then StringShape()
    else if name == "json-number" then NumberShape()
    else if name == "json-bool" then BoolShape()
    else if name == "json-null" then NullShape()
    else ValueShape()
  }

  function Named(name: string): Shape { Around(Rule(name, 0), JsonBody(name)) }

  /** New rules have the bodies that belong to their names, and the old ones are as they were. */
  ghost predicate IsKept(rules0: map<string, ParserId>, rules: map<string, ParserId>, shapes: seq<Shape>) {
    && (forall name :: name in rules0 ==> name in rules && rules[name] == rules0[name])
    && forall name :: name in rules && name !in rules0 ==> rules[name] < |shapes| && shapes[rules[name]] == Named(name)
  }

  ghost predicate Kept(rules0: map<string, ParserId>, shapes0: seq<Shape>, rules: map<string, ParserId>,
                       shapes: seq<Shape>) {
    shapes0 <= shapes && rules0.Keys <= rules.Keys && forall k {:trigger Open(k)} :: Open(k) ==>
        IsKept(rules0, rules, shapes)
  }

  lemma KeptGrow(rules: map<string, ParserId>, shapes0: seq<Shape>, shapes: seq<Shape>)
    requires shapes0 <= shapes
    ensures Kept(rules, shapes0, rules, shapes)
  {
  }

  lemma KeptTwice(rules0: map<string, ParserId>, shapes0: seq<Shape>, rules1: map<string, ParserId>,
                  shapes1: seq<Shape>,
                  rules: map<string, ParserId>, shapes: seq<Shape>)
    requires Kept(rules0, shapes0, rules1, shapes1) && Kept(rules1, shapes1, rules, shapes)
    ensures Kept(rules0, shapes0, rules, shapes)
  {
    assert Open(0);
    forall name | name in rules && name !in rules0
      ensures rules[name] < |shapes| && shapes[rules[name]] == Named(name)
    {
      if name in rules1 {
        assert rules[name] == rules1[name] && shapes[rules1[name]] == shapes1[rules1[name]];
      }
    }
  }

  /** A rule from its placeholder to its body, over what is added meanwhile. */
  lemma KeptRule(name: string, rules0: map<string, ParserId>, shapes0: seq<Shape>, placeholder: ParserId,
                 shapes1: seq<Shape>,
                 rules2: map<string, ParserId>, shapes2: seq<Shape>, shapes: seq<Shape>)
    requires name !in rules0 && shapes0 <= shapes1 && Kept(rules0[name := placeholder], shapes1, rules2, shapes2)
    requires shapes2 + [Named(name)] <= shapes
    ensures Kept(rules0, shapes0, rules2[name := |shapes2|], shapes)
  {
    assert Open(0);
    var rules := rules2[name := |shapes2|];
    assert shapes[|shapes2|] == (shapes2 + [Named(name)])[|shapes2|];
    forall other | other in rules && other !in rules0
      ensures rules[other] < |shapes| && shapes[rules[other]] == Named(other)
    {
      if other != name {
        assert other !in rules0[name := placeholder] && shapes[rules2[other]] == shapes2[rules2[other]];
      }
    }
  }

  class Builder {
    var parsers: seq<Parser>
    var rules: map<string, ParserId>
    var root: Option<ParserId>
    ghost var shapes: seq<Shape>

    constructor ()
      ensures parsers == [] && rules == map[] && root == None && shapes == []
    {
      parsers, rules, root, shapes := [], map[], None, [];
    }

    function G(): Arena
      reads this
    {
      Arena(parsers, rules, root)
    }

    /** Every parser is streamable and has its shape. */
    ghost predicate Fine()
      reads this
    {
      |shapes| == |parsers| && Sane(G()) && Described(parsers, shapes)
    }

    method Add(p: Parser) returns (id: ParserId)
      modifies `parsers, `shapes
      ensures id == |old(parsers)| && parsers == old(parsers) + [p]
      ensures old(Sane(G())) && MayJoin(old(G()), p) ==> Sane(G())
      ensures old(Fine()) && MayJoin(old(G()), p) ==>
                Fine() && shapes == old(shapes) + [ShapeOf(p, old(shapes))]
    {
      id := |parsers|;
      if Sane(G()) && MayJoin(G(), p) {
        SaneAdd(G(), p);
      }
      if Described(parsers, shapes) && ChildrenBelow(p, |parsers|) {
        DescribedAdd(parsers, shapes, p);
        shapes := shapes + [ShapeOf(p, shapes)];
      }
      parsers := parsers + [p];
    }

    /** `sequence`; the handles of the source always name parsers of their builder. */
    method AddSequence(ids: seq<ParserId>) returns (id: ParserId)
      requires Below(ids, |parsers|)
      modifies `parsers, `shapes
      ensures FlattenSequence(old(G()), ids).Some?
      ensures id == |old(parsers)| && parsers == old(parsers) + [Sequence(FlattenSequence(old(G()), ids).value)]
      ensures old(Sane(G())) ==> Sane(G())
      ensures old(Fine()) ==> Fine() && shapes == old(shapes) + [InOrder(FlatOrder(ShapesAt(old(shapes), ids)))]
    {
      var flattened: seq<ParserId> := [];
      var i := 0;
      while i < |ids|
        invariant 0 <= i <= |ids| && parsers == old(parsers) && shapes == old(shapes)
        invariant Below(ids[..i], |parsers|) && FlattenSequence(G(), ids[..i]) == Some(flattened)
      {
        FlattenSequenceSnoc(G(), ids[..i], ids[i]);
        assert ids[..i + 1] == ids[..i] + [ids[i]];
        var p := parsers[ids[i]];
        if p.Sequence? {
          flattened := flattened + p.children;
        } else {
          flattened := flattened + [ids[i]];
        }
        i := i + 1;
      }
      assert ids[..i] == ids;
      if Sane(G()) {
        FlatSane(G(), ids);
        if Fine() {
          OrderOfFlattened(G(), shapes, ids);
        }
      }
      id := Add(Sequence(flattened));
    }

    method AddChoice(ids: seq<ParserId>) returns (id: ParserId)
      requires Below(ids, |parsers|)
      modifies `parsers, `shapes
      ensures FlattenChoice(old(G()), ids).Some?
      ensures id == |old(parsers)| && parsers == old(parsers) + [Choice(FlattenChoice(old(G()), ids).value)]
      ensures old(Sane(G())) && ids != [] ==> Sane(G())
      ensures old(Fine()) && ids != [] ==>
              Fine() && shapes == old(shapes) + [OneOf(FlatOneOf(ShapesAt(old(shapes), ids)))]
    {
      var flattened: seq<ParserId> := [];
      var i := 0;
      while i < |ids|
        invariant 0 <= i <= |ids| && parsers == old(parsers) && shapes == old(shapes)
        invariant Below(ids[..i], |parsers|) && FlattenChoice(G(), ids[..i]) == Some(flattened)
      {
        FlattenChoiceSnoc(G(), ids[..i], ids[i]);
        assert ids[..i + 1] == ids[..i] + [ids[i]];
        var p := parsers[ids[i]];
        if p.Choice? {
          flattened := flattened + p.children;
        } else {
          flattened := flattened + [ids[i]];
        }
        i := i + 1;
      }
      assert ids[..i] == ids;
      if Sane(G()) {
        FlatSane(G(), ids);
        if Fine() {
          ChoiceOfFlattened(G(), shapes, ids);
        }
      }
      id := Add(Choice(flattened));
    }

    /** `resolve_refs`; false where the source throws, which leaves the arena half resolved. */
    method ResolveRefs() returns (ok: bool)
      modifies this
      ensures ok <==> Resolvable(old(G()))
      ensures ok ==> Resolved(old(G()), G())
    {
      ghost var g := G();
      var i := 0;
      while i < |parsers|
        invariant 0 <= i <= |parsers| && root == g.root && SameRefs(g, G())
        invariant forall k :: 0 <= k < i ==> ResolveParser(g, g.parsers[k]) == Some(parsers[k])
        invariant forall k :: i <= k < |parsers| ==> parsers[k] == g.parsers[k]
      {
        SameResolve(g, G(), parsers[i]);
        ResolvedIsRef(g, parsers[i]);
        var r := ResolveParser(G(), parsers[i]);
        if r.None? {
          return false;
        }
        parsers := parsers[i := r.value];
        i := i + 1;
      }
      if root.Some? {
        var r := ResolveId(G(), root.value);
        if r.None? {
          return false;
        }
        root := r;
      }
      return true;
    }

    // ---- JSON ----

    method Put(p: Parser) returns (id: ParserId)
      requires Fine() && ChildrenBelow(p, |parsers|) && RefKnown(G(), p) && IsStreamable(G(), p)
      modifies `parsers, `shapes
      ensures Fine() && id == |old(shapes)| && shapes == old(shapes) + [ShapeOf(p, old(shapes))]
    {
      id := Add(p);
    }

    method Text(s: string) returns (id: ParserId)
      requires Fine()
      modifies `parsers, `shapes
      ensures Fine() && id == |old(shapes)| && shapes == old(shapes) + [Lit(s)]
    {
      id := Add(Literal(Ascii(s)));
    }

    method Class(ranges: seq<Range>, lo: int, hi: int) returns (id: ParserId)
      requires Fine()
      modifies `parsers, `shapes
      ensures Fine() && id == |old(shapes)| && shapes == old(shapes) + [CharsOf(ranges, lo, hi)]
    {
      id := Add(Chars(ranges, false, lo, hi));
    }

    method Repeat(child: ParserId, lo: int, hi: int) returns (id: ParserId)
      requires Fine() && child < |shapes|
      modifies `parsers, `shapes
      ensures Fine() && id == |old(shapes)| && shapes == old(shapes) + [Times(old(shapes)[child], lo, hi)]
    {
      id := Add(Repetition(child, lo, hi));
    }

    /** `sequence` of parsers of which at most the first is a sequence. */
    method All(ids: seq<ParserId>, ghost first: seq<Shape>, ghost rest: seq<Shape>) returns (id: ParserId)
      requires Fine() && Below(ids, |shapes|)
      requires (forall i :: 0 <= i < |first| ==> !first[i].InOrder?) && forall i :: 0 <= i < |rest| ==>
                 !rest[i].InOrder?
      requires ShapesAt(shapes, ids) == first + rest || ShapesAt(shapes, ids) == [InOrder(first)] + rest
      modifies `parsers, `shapes
      ensures Fine() && id == |old(shapes)| && shapes == old(shapes) + [InOrder(first + rest)]
    {
      FirstInOrder(first, rest, ShapesAt(shapes, ids));
      id := AddSequence(ids);
    }

    method FirstOf(ids: seq<ParserId>, ghost all: seq<Shape>) returns (id: ParserId)
      requires Fine() && Below(ids, |shapes|) && ids != []
      requires ShapesAt(shapes, ids) == all && forall i :: 0 <= i < |all| ==> !all[i].OneOf?
      modifies `parsers, `shapes
      ensures Fine() && id == |old(shapes)| && shapes == old(shapes) + [OneOf(all)]
    {
      NoneOneOf(all);
      id := AddChoice(ids);
    }

    /** `negate` of one character of a class. */
    method NotInClass(ranges: seq<Range>) returns (id: ParserId)
      requires Fine()
      modifies `parsers, `shapes
      ensures Fine() && id < |shapes| && old(shapes) <= shapes && shapes[id] == Around(Not(0), CharsOf(ranges, 1, 1))
    {
      var next := Class(ranges, 1, 1);
      assert parsers[next] == Chars(ranges, false, 1, 1) by {
        assert Open(0);
      }
      id := Put(Not(next));
    }

    /** What a method for a rule leaves behind: a reference to the rule, and rules with the bodies of their names. */
    ghost predicate Leaves(name: string, id: ParserId, rules0: map<string, ParserId>, shapes0: seq<Shape>)
      reads this
    {
      && Fine() && id < |shapes| && shapes[id] == Refers(name) && name in rules
      && Kept(rules0, shapes0, rules, shapes)
    }

    /** `rule`, if there is one of that name. */
    method UseRule(name: string) returns (id: ParserId)
      requires Fine() && name in rules
      modifies `parsers, `shapes
      ensures Leaves(name, id, old(rules), old(shapes))
    {
      id := Put(Ref(name));
      KeptGrow(rules, old(shapes), shapes);
    }

    /** `rule` with a builder function: the placeholder that allows recursion, before the function runs. */
    method OpenRule(name: string) returns (ghost placeholder: ParserId)
      requires Fine()
      modifies `parsers, `rules, `shapes
      ensures Fine() && rules == old(rules)[name := placeholder] && old(shapes) <= shapes
      ensures rules.Keys == old(rules).Keys + {name}
    {
      var any := Put(AnyChar);
      var id := Put(Rule(name, any));
      SaneRule(G(), name, id);
      rules := rules[name := id];
      placeholder := id;
    }

    /** `rule` with a builder function, after the function has run. */
    method CloseRule(name: string, child: ParserId, ghost placeholder: ParserId, ghost rules0: map<string, ParserId>,
                     ghost shapes0: seq<Shape>, ghost shapes1: seq<Shape>)
      returns (id: ParserId)
      requires Fine() && child < |shapes| && shapes[child] == JsonBody(name)
      requires name !in rules0 && shapes0 <= shapes1 && Kept(rules0[name := placeholder], shapes1, rules, shapes)
      modifies `parsers, `rules, `shapes
      ensures Leaves(name, id, rules0, shapes0) && old(rules).Keys <= rules.Keys
    {
      ghost var rules2, shapes2 := rules, shapes;
      var rule := Put(Rule(name, child));
      SaneRule(G(), name, rule);
      rules := rules[name := rule];
      id := Put(Ref(name));
      KeptRule(name, rules0, shapes0, placeholder, shapes1, rules2, shapes2, shapes);
    }

    method JsonNull() returns (id: ParserId)
      requires Fine()
      modifies `parsers, `rules, `shapes
      ensures Leaves("json-null", id, old(rules), old(shapes))
    {
      if "json-null" in rules {
        id := UseRule("json-null");
        return;
      }
      ghost var hole := OpenRule("json-null");
      ghost var shapes1 := shapes;
      var t := Text("null");
      KeptGrow(rules, shapes1, shapes);
      id := CloseRule("json-null", t, hole, old(rules), old(shapes), shapes1);
    }

    method BoolBody() returns (id: ParserId)
      requires Fine()
      modifies `parsers, `shapes
      ensures Fine() && id < |shapes| && old(shapes) <= shapes && shapes[id] == BoolShape()
    {
      var t := Text("true");
      var f := Text("false");
      assert ShapesAt(shapes, [t, f]) == [Lit("true"), Lit("false")];
      id := FirstOf([t, f], [Lit("true"), Lit("false")]);
    }

    method JsonBool() returns (id: ParserId)
      requires Fine()
      modifies `parsers, `rules, `shapes
      ensures Leaves("json-bool", id, old(rules), old(shapes))
    {
      if "json-bool" in rules {
        id := UseRule("json-bool");
        return;
      }
      ghost var hole := OpenRule("json-bool");
      ghost var shapes1 := shapes;
      var c := BoolBody();
      KeptGrow(rules, shapes1, shapes);
      id := CloseRule("json-bool", c, hole, old(rules), old(shapes), shapes1);
    }

    method StringBody() returns (id: ParserId)
      requires Fine()
      modifies `parsers, `shapes
      ensures Fine() && id < |shapes| && old(shapes) <= shapes && shapes[id] == StringShape()
    {
      var open := Text("\"");
      var content := Put(String('"' as int));
      var close := Text("\"");
      ghost var all := [Lit("\""), Leaf(String('"' as int)), Lit("\"")];
      assert ShapesAt(shapes, [open, content, close]) == all == [] + all;
      id := All([open, content, close], [], all);
    }

    method JsonString() returns (id: ParserId)
      requires Fine()
      modifies `parsers, `rules, `shapes
      ensures Leaves("json-string", id, old(rules), old(shapes))
    {
      if "json-string" in rules {
        id := UseRule("json-string");
        return;
      }
      ghost var hole := OpenRule("json-string");
      ghost var shapes1 := shapes;
      var s := StringBody();
      KeptGrow(rules, shapes1, shapes);
      id := CloseRule("json-string", s, hole, old(rules), old(shapes), shapes1);
    }

    method NumberInteger() returns (id: ParserId)
      requires Fine()
      modifies `parsers, `shapes
      ensures Fine() && id < |shapes| && old(shapes) <= shapes && shapes[id] == IntegerShape()
    {
      var digit1To9 := Class([Range('1' as int, '9' as int)], 1, 1);
      var zero := Text("0");
      var moreDigits := Class([DIGIT], 0, -1);
      ghost var digits := [CharsOf([Range('1' as int, '9' as int)], 1, 1), CharsOf([DIGIT], 0, -1)];
      assert ShapesAt(shapes, [digit1To9, moreDigits]) == digits == [] + digits;
      var positive := All([digit1To9, moreDigits], [], digits);
      assert ShapesAt(shapes, [zero, positive]) == [Lit("0"), InOrder(digits)];
      id := FirstOf([zero, positive], [Lit("0"), InOrder(digits)]);
    }

    method NumberFraction(digits: ParserId) returns (id: ParserId)
      requires Fine() && digits < |shapes| && shapes[digits] == CharsOf([DIGIT], 1, -1)
      modifies `parsers, `shapes
      ensures Fine() && id < |shapes| && old(shapes) <= shapes && shapes[id] == FractionShape()
    {
      var dot := Text(".");
      ghost var all := [Lit("."), CharsOf([DIGIT], 1, -1)];
      assert ShapesAt(shapes, [dot, digits]) == all == [] + all;
      id := All([dot, digits], [], all);
    }

    method NumberExponent(digits: ParserId) returns (id: ParserId)
      requires Fine() && digits < |shapes| && shapes[digits] == CharsOf([DIGIT], 1, -1)
      modifies `parsers, `shapes
      ensures Fine() && id < |shapes| && old(shapes) <= shapes && shapes[id] == ExponentShape()
    {
      var lower := Text("e");
      var upper := Text("E");
      assert ShapesAt(shapes, [lower, upper]) == [Lit("e"), Lit("E")];
      var e := FirstOf([lower, upper], [Lit("e"), Lit("E")]);
      var sign := Class([OneChar('+'), OneChar('-')], 1, 1);
      var optionalSign := Repeat(sign, 0, 1);
      ghost var all := ExponentShape().all;
      assert ShapesAt(shapes, [e, optionalSign, digits]) == all == [] + all;
      id := All([e, optionalSign, digits], [], all);
    }

    method NumberBody() returns (id: ParserId)
      requires Fine()
      modifies `parsers, `shapes
      ensures Fine() && id < |shapes| && old(shapes) <= shapes && shapes[id] == NumberShape()
    {
      var integer := NumberInteger();
      var digits := Class([DIGIT], 1, -1);
      var frac := NumberFraction(digits);
      var exp := NumberExponent(digits);
      id := NumberParts(integer, frac, exp);
    }

    method NumberEnds() returns (notContinued: ParserId, optionalMinus: ParserId)
      requires Fine()
      modifies `parsers, `shapes
      ensures Fine() && notContinued < |shapes| && optionalMinus < |shapes| && old(shapes) <= shapes
      ensures shapes[notContinued] == NumberEnd() && shapes[optionalMinus] == Times(Lit("-"), 0, 1)
    {
      notContinued := NotInClass([DIGIT, OneChar('.'), OneChar('e'), OneChar('E'), OneChar('+'), OneChar('-')]);
      var minus := Text("-");
      optionalMinus := Repeat(minus, 0, 1);
    }

    method NumberParts(integer: ParserId, frac: ParserId, exp: ParserId) returns (id: ParserId)
      requires Fine() && integer < |shapes| && frac < |shapes| && exp < |shapes|
      requires shapes[integer] == IntegerShape() && shapes[frac] == FractionShape() && shapes[exp] == ExponentShape()
      modifies `parsers, `shapes
      ensures Fine() && id < |shapes| && old(shapes) <= shapes && shapes[id] == NumberShape()
    {
      var notContinued, optionalMinus := NumberEnds();
      var optionalFrac := Repeat(frac, 0, 1);
      var optionalExp := Repeat(exp, 0, 1);
      ghost var all := NumberShape().all;
      assert ShapesAt(shapes, [optionalMinus, integer, optionalFrac, optionalExp, notContinued]) == all == [] + all;
      id := All([optionalMinus, integer, optionalFrac, optionalExp, notContinued], [], all);
    }

    method JsonNumber() returns (id: ParserId)
      requires Fine()
      modifies `parsers, `rules, `shapes
      ensures Leaves("json-number", id, old(rules), old(shapes))
    {
      if "json-number" in rules {
        id := UseRule("json-number");
        return;
      }
      ghost var hole := OpenRule("json-number");
      ghost var shapes1 := shapes;
      var s := NumberBody();
      KeptGrow(rules, shapes1, shapes);
      id := CloseRule("json-number", s, hole, old(rules), old(shapes), shapes1);
    }

    /** `open ws (close | body ws close)`, where the body is a sequence. */
    method Enclosed(left: string, right: string, ws: ParserId, body: ParserId, ghost all: seq<Shape>)
      returns (id: ParserId)
      requires Fine() && ws < |shapes| && shapes[ws] == Leaf(Space)
      requires body < |shapes| && shapes[body] == InOrder(all) && forall i :: 0 <= i < |all| ==> !all[i].InOrder?
      modifies `parsers, `shapes
      ensures Fine() && id < |shapes| && old(shapes) <= shapes && shapes[id] == EnclosedShape(left, right, all)
    {
      var open := Text(left);
      var empty := Text(right);
      var close := Text(right);
      ghost var after := [Leaf(Space), Lit(right)];
      assert ShapesAt(shapes, [body, ws, close]) == [InOrder(all)] + after;
      var full := All([body, ws, close], all, after);
      assert ShapesAt(shapes, [empty, full]) == [Lit(right), InOrder(all + after)];
      var rest := FirstOf([empty, full], [Lit(right), InOrder(all + after)]);
      ghost var whole := [Lit(left), Leaf(Space), OneOf([Lit(right), InOrder(all + after)])];
      assert ShapesAt(shapes, [open, ws, rest]) == whole == [] + whole;
      id := All([open, ws, rest], [], whole);
    }

    method Members(ws: ParserId, key: ParserId, colon: ParserId, value: ParserId) returns (id: ParserId)
      requires Fine() && ws < |shapes| && key < |shapes| && colon < |shapes| && value < |shapes|
      requires shapes[ws] == Leaf(Space) && shapes[key] == Refers("json-string") && shapes[colon] == Lit(":")
      requires shapes[value] == Refers("json-value")
      modifies `parsers, `shapes
      ensures Fine() && id < |shapes| && old(shapes) <= shapes && shapes[id] == InOrder(MembersShapes())
    {
      ghost var one := MemberShapes();
      assert ShapesAt(shapes, [key, ws, colon, ws, value]) == one == one + [];
      var member := All([key, ws, colon, ws, value], one, []);
      var another := AnotherMember(ws, member);
      var others := Repeat(another, 0, -1);
      ghost var more := [Times(InOrder([Leaf(Space), Lit(","), Leaf(Space)] + one), 0, -1)];
      assert ShapesAt(shapes, [member, others]) == [InOrder(one)] + more;
      id := All([member, others], one, more);
    }

    method AnotherMember(ws: ParserId, member: ParserId) returns (id: ParserId)
      requires Fine() && ws < |shapes| && shapes[ws] == Leaf(Space)
      requires member < |shapes| && shapes[member] == InOrder(MemberShapes())
      modifies `parsers, `shapes
      ensures Fine() && id < |shapes| && old(shapes) <= shapes
      ensures shapes[id] == InOrder([Leaf(Space), Lit(","), Leaf(Space)] + MemberShapes())
    {
      var comma := Text(",");
      ghost var before, one := [Leaf(Space), Lit(","), Leaf(Space)], MemberShapes();
      assert ShapesAt(shapes, [ws, comma, ws, member]) == before + [InOrder(one)];
      LastInOrder(before, one);
      id := AddSequence([ws, comma, ws, member]);
    }

    method JsonObject() returns (id: ParserId)
      requires Fine()
      modifies `parsers, `rules, `shapes
      ensures Leaves("json-object", id, old(rules), old(shapes))
      ensures "json-object" !in old(rules) ==> "json-string" in rules
      decreases JSON_RULES - rules.Keys, 0
    {
      if "json-object" in rules {
        id := UseRule("json-object");
        return;
      }
      ghost var hole := OpenRule("json-object");
      ghost var rules1, shapes1 := rules, shapes;
      var ws := Put(Space);
      KeptGrow(rules, shapes1, shapes);
      var s := ObjectBody(ws, rules1, shapes1);
      id := CloseRule("json-object", s, hole, old(rules), old(shapes), shapes1);
    }

    method ObjectBody(ws: ParserId, ghost rules1: map<string, ParserId>, ghost shapes1: seq<Shape>)
      returns (id: ParserId)
      requires Fine() && ws < |shapes| && shapes[ws] == Leaf(Space) && Kept(rules1, shapes1, rules, shapes)
      modifies `parsers, `rules, `shapes
      ensures Fine() && id < |shapes| && shapes[id] == JsonBody("json-object") && Kept(rules1, shapes1, rules, shapes)
      ensures old(rules).Keys <= rules.Keys && "json-string" in rules
      decreases JSON_RULES - rules.Keys, 1
    {
      var key := JsonString();
      KeptTwice(rules1, shapes1, old(rules), old(shapes), rules, shapes);
      ghost var rules2, shapes2 := rules, shapes;
      var colon := Text(":");
      KeptGrow(rules, shapes2, shapes);
      KeptTwice(rules1, shapes1, rules2, shapes2, rules, shapes);
      ghost var shapes3 := shapes;
      FewerLeft(old(rules).Keys, rules.Keys);
      var value := Json();
      KeptTwice(rules1, shapes1, rules2, shapes3, rules, shapes);
      id := FinishObject(ws, key, colon, value, rules1, shapes1);
    }

    method FinishObject(ws: ParserId, key: ParserId, colon: ParserId, value: ParserId, ghost rules1: map<string,
                        ParserId>,
                        ghost shapes1: seq<Shape>)
      returns (id: ParserId)
      requires Fine() && ws < |shapes| && key < |shapes| && colon < |shapes| && value < |shapes|
      requires shapes[ws] == Leaf(Space) && shapes[key] == Refers("json-string") && shapes[colon] == Lit(":")
      requires shapes[value] == Refers("json-value") && Kept(rules1, shapes1, rules, shapes)
      modifies `parsers, `shapes
      ensures Fine() && id < |shapes| && shapes[id] == JsonBody("json-object") && Kept(rules1, shapes1, rules, shapes)
    {
      var members := Members(ws, key, colon, value);
      id := Enclosed("{", "}", ws, members, MembersShapes());
      KeptGrow(rules, old(shapes), shapes);
      KeptTwice(rules1, shapes1, rules, old(shapes), rules, shapes);
    }

    method JsonArray() returns (id: ParserId)
      requires Fine()
      modifies `parsers, `rules, `shapes
      ensures Leaves("json-array", id, old(rules), old(shapes))
      decreases JSON_RULES - rules.Keys, 0
    {
      if "json-array" in rules {
        id := UseRule("json-array");
        return;
      }
      ghost var hole := OpenRule("json-array");
      ghost var rules1, shapes1 := rules, shapes;
      var ws := Put(Space);
      KeptGrow(rules, shapes1, shapes);
      var s := ArrayBody(ws, rules1, shapes1);
      id := CloseRule("json-array", s, hole, old(rules), old(shapes), shapes1);
    }

    method ArrayBody(ws: ParserId, ghost rules1: map<string, ParserId>, ghost shapes1: seq<Shape>)
      returns (id: ParserId)
      requires Fine() && ws < |shapes| && shapes[ws] == Leaf(Space) && Kept(rules1, shapes1, rules, shapes)
      modifies `parsers, `rules, `shapes
      ensures Fine() && id < |shapes| && shapes[id] == JsonBody("json-array") && Kept(rules1, shapes1, rules, shapes)
      ensures old(rules).Keys <= rules.Keys
      decreases JSON_RULES - rules.Keys, 1
    {
      var first := Json();
      KeptTwice(rules1, shapes1, old(rules), old(shapes), rules, shapes);
      ghost var rules2, shapes2 := rules, shapes;
      var comma := Text(",");
      KeptGrow(rules, shapes2, shapes);
      KeptTwice(rules1, shapes1, rules2, shapes2, rules, shapes);
      ghost var shapes3 := shapes;
      FewerLeft(old(rules).Keys, rules.Keys);
      var value := Json();
      KeptTwice(rules1, shapes1, rules2, shapes3, rules, shapes);
      id := FinishArray(ws, first, comma, value, rules1, shapes1);
    }

    method FinishArray(ws: ParserId, first: ParserId, comma: ParserId, value: ParserId, ghost rules1: map<string,
                       ParserId>,
                       ghost shapes1: seq<Shape>)
      returns (id: ParserId)
      requires Fine() && ws < |shapes| && first < |shapes| && comma < |shapes| && value < |shapes|
      requires shapes[ws] == Leaf(Space) && shapes[first] == shapes[value] == Refers("json-value")
               && shapes[comma] == Lit(",")
      requires Kept(rules1, shapes1, rules, shapes)
      modifies `parsers, `shapes
      ensures Fine() && id < |shapes| && shapes[id] == JsonBody("json-array") && Kept(rules1, shapes1, rules, shapes)
    {
      ghost var more := [Lit(","), Leaf(Space), Refers("json-value")];
      assert ShapesAt(shapes, [comma, ws, value]) == more == [] + more;
      var another := All([comma, ws, value], [], more);
      var others := Repeat(another, 0, -1);
      assert ShapesAt(shapes, [first, others]) == ElementsShapes() == [] + ElementsShapes();
      var elements := All([first, others], [], ElementsShapes());
      id := Enclosed("[", "]", ws, elements, ElementsShapes());
      KeptGrow(rules, old(shapes), shapes);
      KeptTwice(rules1, shapes1, rules, old(shapes), rules, shapes);
    }

    method Json() returns (id: ParserId)
      requires Fine()
      modifies `parsers, `rules, `shapes
      ensures Leaves("json-value", id, old(rules), old(shapes))
      ensures "json-value" !in old(rules) ==> JSON_RULES <= rules.Keys
      decreases JSON_RULES - rules.Keys, 0
    {
      if "json-value" in rules {
        id := UseRule("json-value");
        return;
      }
      ghost var hole := OpenRule("json-value");
      ghost var rules1, shapes1 := rules, shapes;
      KeptGrow(rules, shapes1, shapes);
      var c := ValueBody(rules1, shapes1);
      id := CloseRule("json-value", c, hole, old(rules), old(shapes), shapes1);
    }

    method ValueBody(ghost rules1: map<string, ParserId>, ghost shapes1: seq<Shape>) returns (id: ParserId)
      requires Fine() && Kept(rules1, shapes1, rules, shapes)
      modifies `parsers, `rules, `shapes
      ensures Fine() && id < |shapes| && shapes[id] == ValueShape() && Kept(rules1, shapes1, rules, shapes)
      ensures old(rules).Keys <= rules.Keys && JSON_RULES - {"json-value"} <= rules.Keys
      decreases JSON_RULES - rules.Keys, 1
    {
      ghost var rules2, shapes2 := rules, shapes;
      var o := JsonObject();
      KeptTwice(rules1, shapes1, rules2, shapes2, rules, shapes);
      rules2, shapes2 := rules, shapes;
      FewerLeft(old(rules).Keys, rules.Keys);
      var a := JsonArray();
      KeptTwice(rules1, shapes1, rules2, shapes2, rules, shapes);
      id := ValueRest(o, a, rules1, shapes1);
    }

    method ValueRest(o: ParserId, a: ParserId, ghost rules1: map<string, ParserId>, ghost shapes1: seq<Shape>)
      returns (id: ParserId)
      requires Fine() && Kept(rules1, shapes1, rules, shapes) && o < |shapes| && a < |shapes|
      requires shapes[o] == Refers("json-object") && shapes[a] == Refers("json-array")
      requires "json-object" in rules && "json-array" in rules
      modifies `parsers, `rules, `shapes
      ensures Fine() && id < |shapes| && shapes[id] == ValueShape() && Kept(rules1, shapes1, rules, shapes)
      ensures old(rules).Keys <= rules.Keys && JSON_RULES - {"json-value"} <= rules.Keys
    {
      var s, n := StringAndNumber();
      KeptTwice(rules1, shapes1, old(rules), old(shapes), rules, shapes);
      ghost var rules2, shapes2 := rules, shapes;
      var b, u := BoolAndNull();
      KeptTwice(rules1, shapes1, rules2, shapes2, rules, shapes);
      ghost var shapes3 := shapes;
      assert ShapesAt(shapes, [o, a, s, n, b, u]) == ValueShape().all;
      id := ValueChoice(o, a, s, n, b, u);
      KeptTwice(rules1, shapes1, rules, shapes3, rules, shapes);
    }

    method StringAndNumber() returns (s: ParserId, n: ParserId)
      requires Fine()
      modifies `parsers, `rules, `shapes
      ensures Fine() && Kept(old(rules), old(shapes), rules, shapes) && "json-string" in rules && "json-number" in rules
      ensures s < |shapes| && n < |shapes| && shapes[s] == Refers("json-string") && shapes[n] == Refers("json-number")
    {
      s := JsonString();
      ghost var rules2, shapes2 := rules, shapes;
      n := JsonNumber();
      KeptTwice(old(rules), old(shapes), rules2, shapes2, rules, shapes);
    }

    method BoolAndNull() returns (b: ParserId, u: ParserId)
      requires Fine()
      modifies `parsers, `rules, `shapes
      ensures Fine() && Kept(old(rules), old(shapes), rules, shapes) && "json-bool" in rules && "json-null" in rules
      ensures b < |shapes| && u < |shapes| && shapes[b] == Refers("json-bool") && shapes[u] == Refers("json-null")
    {
      b := JsonBool();
      ghost var rules2, shapes2 := rules, shapes;
      u := JsonNull();
      KeptTwice(old(rules), old(shapes), rules2, shapes2, rules, shapes);
    }

    method ValueChoice(o: ParserId, a: ParserId, s: ParserId, n: ParserId, b: ParserId, u: ParserId)
      returns (id: ParserId)
      requires Fine() && Below([o, a, s, n, b, u], |shapes|) && ShapesAt(shapes, [o, a, s, n, b, u]) == ValueShape().all
      modifies `parsers, `shapes
      ensures Fine() && id < |shapes| && shapes[id] == ValueShape() && Kept(rules, old(shapes), rules, shapes)
    {
      id := FirstOf([o, a, s, n, b, u], ValueShape().all);
      KeptGrow(rules, old(shapes), shapes);
    }
  }

  lemma FewerLeft(before: set<string>, after: set<string>)
    requires before <= after
    ensures JSON_RULES - after < JSON_RULES - before || JSON_RULES - after == JSON_RULES - before
  {
  }

  lemma {:induction false} FlatOrderAppend(a: seq<Shape>, b: seq<Shape>)
    ensures FlatOrder(a + b) == FlatOrder(a) + FlatOrder(b)
  {
    if a == [] {
      assert a + b == b;
    } else {
      assert (a + b)[1..] == a[1..] + b;
      FlatOrderAppend(a[1..], b);
    }
  }

  lemma FlatOrderOne(all: seq<Shape>)
    ensures FlatOrder([InOrder(all)]) == all
  {
    assert [InOrder(all)][1..] == [];
  }

  lemma FirstInOrder(first: seq<Shape>, rest: seq<Shape>, ss: seq<Shape>)
    requires (forall i :: 0 <= i < |first| ==> !first[i].InOrder?) && forall i :: 0 <= i < |rest| ==> !rest[i].InOrder?
    requires ss == first + rest || ss == [InOrder(first)] + rest
    ensures FlatOrder(ss) == first + rest
  {
    NoneInOrder(first);
    NoneInOrder(rest);
    FlatOrderOne(first);
    FlatOrderAppend(first, rest);
    FlatOrderAppend([InOrder(first)], rest);
  }

  lemma LastInOrder(before: seq<Shape>, all: seq<Shape>)
    requires forall i :: 0 <= i < |before| ==> !before[i].InOrder?
    ensures FlatOrder(before + [InOrder(all)]) == before + all
  {
    NoneInOrder(before);
    FlatOrderOne(all);
    FlatOrderAppend(before, [InOrder(all)]);
  }

  lemma SaneRule(g: Arena, name: string, id: ParserId)
    requires Sane(g) && id < |g.parsers|
    ensures Sane(g.(rules := g.rules[name := id]))
  {
    assert Open(0);
    var g' := g.(rules := g.rules[name := id]);
    forall i | 0 <= i < |g'.parsers|
      ensures IsStreamable(g', g'.parsers[i]) && RefKnown(g', g'.parsers[i])
    {
      assert IsStreamable(g, g.parsers[i]) && RefKnown(g, g.parsers[i]);
    }
  }

  lemma SaneRoot(g: Arena, root: Option<ParserId>)
    requires Sane(g) && (root.Some? ==> root.value < |g.parsers|)
    ensures Sane(g.(root := root))
  {
    assert Open(0);
    var g' := g.(root := root);
    forall i | 0 <= i < |g'.parsers|
      ensures IsStreamable(g', g'.parsers[i]) && RefKnown(g', g'.parsers[i])
    {
      assert IsStreamable(g, g.parsers[i]) && RefKnown(g, g.parsers[i]);
    }
  }

  // ---- the arena that is returned ----

  /** The parser at id has this shape, references resolved to the rules they name. */
  ghost predicate HasShape(g: Arena, id: ParserId, s: Shape)
    decreases s
  {
    && id < |g.parsers|
    && match s
       case Leaf(p) => g.parsers[id] == p
       case Refers(name) => name in g.rules && id == g.rules[name]
       case InOrder(all) => g.parsers[id].Sequence? && HaveShapes(g, g.parsers[id].children, all)
       case OneOf(all) => g.parsers[id].Choice? && HaveShapes(g, g.parsers[id].children, all)
       case Around(outer, body) =>
         HasChild(g.parsers[id]) && g.parsers[id].(child := 0) == outer && HasShape(g, g.parsers[id].child, body)
  }

  ghost predicate HaveShapes(g: Arena, ids: seq<ParserId>, all: seq<Shape>)
    decreases all
  {
    |ids| == |all| && forall i :: 0 <= i < |ids| ==> HasShape(g, ids[i], all[i])
  }

  lemma ResolvedAround(g: Arena, p: Parser)
    requires HasChild(p) && ResolveParser(g, p).Some?
    ensures var r := ResolveParser(g, p).value;
            HasChild(r) && r.(child := 0) == p.(child := 0) && ResolveId(g, p.child) == Some(r.child)
  {
  }

  /** After `resolve_refs` every parser has the shape that was noted when it was added. */
  lemma {:induction false} ResolvedShape(g: Arena, shapes: seq<Shape>, g': Arena, id: ParserId)
    requires Resolved(g, g') && Sane(g) && Described(g.parsers, shapes) && id < |shapes|
    ensures ResolveId(g, id).Some? && HasShape(g', ResolveId(g, id).value, shapes[id])
    decreases shapes[id]
  {
    assert Open(0);
    var p := g.parsers[id];
    assert shapes[id] == ShapeOf(p, shapes) && ChildrenBelow(p, |shapes|) && RefKnown(g, p);
    assert ResolveParser(g, p) == Some(g'.parsers[id]);
    if p.Sequence? || p.Choice? {
      var ids := g'.parsers[id].children;
      forall i | 0 <= i < |ids|
        ensures HasShape(g', ids[i], ShapesAt(shapes, p.children)[i])
      {
        assert ShapesAt(shapes, p.children)[i] == shapes[p.children[i]];
        ResolvedShape(g, shapes, g', p.children[i]);
      }
    } else if HasChild(p) {
      ResolvedAround(g, p);
      ResolvedShape(g, shapes, g', p.child);
    }
  }

  /** The rules of JSON under their names, and the rule of values as the root. */
  ghost predicate IsJson(g: Arena) {
    && "json-value" in g.rules && g.root == Some(g.rules["json-value"])
    && forall name :: name in JSON_RULES ==> name in g.rules && HasShape(g, g.rules[name], Named(name))
  }

  lemma RulesHaveShapes(g: Arena, shapes: seq<Shape>, g': Arena)
    requires Resolved(g, g') && Sane(g) && Described(g.parsers, shapes)
    requires JSON_RULES <= g.rules.Keys && Kept(map[], [], g.rules, shapes)
    ensures forall name :: name in JSON_RULES ==> name in g'.rules && HasShape(g', g'.rules[name], Named(name))
  {
    assert Open(0);
    forall name | name in JSON_RULES
      ensures name in g'.rules && HasShape(g', g'.rules[name], Named(name))
    {
      var id := g.rules[name];
      assert name in g.rules.Keys && shapes[id] == Named(name);
      ResolvedShape(g, shapes, g', id);
      assert shapes[id] == ShapeOf(g.parsers[id], shapes);
    }
  }

  lemma FreshIsFine(g: Arena)
    requires g == Arena([], map[], None)
    ensures Sane(g) && Described([], [])
  {
  }

  /** A fresh builder after `json()`, and its rule as the root. */
  ghost predicate HoldsJson(g: Arena, shapes: seq<Shape>) {
    && Sane(g) && Described(g.parsers, shapes) && JSON_RULES <= g.rules.Keys && Kept(map[], [], g.rules, shapes)
    && g.root.Some? && g.root.value < |shapes| && shapes[g.root.value] == Refers("json-value")
  }

  lemma ResolvedIsJson(g: Arena, shapes: seq<Shape>, g': Arena)
    requires HoldsJson(g, shapes) && Resolved(g, g')
    ensures IsJson(g') && IsStreamGrammar(g')
  {
    ResolvedStreams(g, g');
    RulesHaveShapes(g, shapes, g');
    ResolvedShape(g, shapes, g', g.root.value);
  }

  method NewJson() returns (b: Builder)
    ensures fresh(b) && HoldsJson(b.G(), b.shapes)
  {
    b := new Builder();
    FreshIsFine(b.G());
    var id := b.Json();
    SaneRoot(b.G(), Some(id));
    b.root := Some(id);
  }

  /**
    What a caller who asks for `json()` gets: the rules of JSON, in a stream grammar, so that settled parses are final.
   */
  method BuildJson() returns (g: Arena)
    ensures IsJson(g) && IsStreamGrammar(g)
  {
    var b := NewJson();
    ghost var before, shapes := b.G(), b.shapes;
    SaneResolvable(before);
    var ok := b.ResolveRefs();
    g := b.G();
    ResolvedIsJson(before, shapes, g);
  }

  /**
    While a JSON text arrives: if what is there ends with a complete code point, a parse that has failed, or has
    succeeded before the end of it, is the parse of every longer text.
   */
  lemma JsonSettles(g: Arena, x: seq<Byte>, y: seq<Byte>, depth: nat, ast: Ast)
    requires IsJson(g) && IsStreamGrammar(g) && IsComplete(x)
    ensures Keeps(Text(x, true), 0, Run(Env(g, Text(x, true)), depth, g.root.value, 0, ast),
                  Run(Env(g, Text(x + y, true)), depth, g.root.value, 0, ast))
  {
    CompleteDoesNotEndInside(x);
    RunKeeps(Env(g, Text(x, true)), y, depth, g.root.value, 0, ast);
  }
}

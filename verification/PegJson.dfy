/**
  The arena of `json()` of common/peg_parser.cpp: on every input its parse returns, because a rule is entered again only
  behind what it has consumed; and what it refuses of JSON.
 */
module PegJson {
  import opened Hiding
  import opened Wrappers
  import opened Utf8
  import opened Peg
  import opened PegStreaming
  import opened PegRewrite
  import opened PegBuilder

  // ---- no left recursion ----

  /** The rules in the order in which they enter each other without consuming anything. */
  function Level(name: string): nat {
    if name == "json-value" then 3 else if name == "json-object" || name == "json-array" then 2 else 1
  }

  /** A shape that consumes something if it succeeds. */
  predicate Eats(s: Shape) { s.Leaf? && s.p.Literal? && s.p.literal != [] }

  /** References lead to rules of a lower level, or they stand behind something that has been consumed. */
  predicate Guarded(s: Shape, level: nat, consumed: bool)
    decreases s
  {
    match s
    case Leaf(p) => IsLeaf(p)
    case Refers(name) => name in JSON_RULES && (consumed || Level(name) < level)
    case InOrder(all) => AllGuarded(all, level, consumed)
    case OneOf(all) => forall i :: 0 <= i < |all| ==> Guarded(all[i], level, consumed)
    case Around(outer, body) => (IsWrapper(outer) || outer.Repetition?) && Guarded(body, level, consumed)
  }

  predicate AllGuarded(all: seq<Shape>, level: nat, consumed: bool)
    decreases all
  {
    all == [] || (Guarded(all[0], level, consumed) && AllGuarded(all[1..], level, consumed || Eats(all[0])))
  }

  /** What is guarded stays so once something has been consumed. */
  lemma {:induction false} GuardedBehind(s: Shape, level: nat)
    requires Guarded(s, level, false)
    ensures Guarded(s, level, true)
    decreases s
  {
    match s
    case Leaf(_) =>
    case Refers(_) =>
    case InOrder(all) => AllGuardedBehind(all, level);
    case OneOf(all) =>
      forall i | 0 <= i < |all|
        ensures Guarded(all[i], level, true)
      {
        GuardedBehind(all[i], level);
      }
    case Around(_, body) => GuardedBehind(body, level);
  }

  lemma {:induction false} AllGuardedBehind(all: seq<Shape>, level: nat)
    requires AllGuarded(all, level, false)
    ensures AllGuarded(all, level, true)
    decreases all
  {
    if all != [] {
      GuardedBehind(all[0], level);
      if !Eats(all[0]) {
        AllGuardedBehind(all[1..], level);
      }
    }
  }

  /** What is left of the input. */
  function Left(t: Text, pos: nat): nat { if pos <= |t.input| then |t.input| - pos else 0 }

  /** From start the parse has come to pos, and it has consumed something if it says so. */
  predicate Here(t: Text, start: nat, pos: nat, consumed: bool) { Reached(t, start, pos) && (consumed ==> pos > start) }

  lemma HereOn(t: Text, start: nat, pos: nat, consumed: bool, end: nat)
    requires Here(t, start, pos, consumed) && Reached(t, pos, end)
    ensures Here(t, start, end, consumed)
  {
  }

  lemma {:induction false} LiteralEnd(t: Text, lit: seq<Byte>, start: nat, pos: nat, i: nat)
    requires Reached(t, start, pos) && i <= |lit|
    ensures var r := LiteralFrom(t, lit, start, pos, i); r.kind.Success? ==> r.end == pos + |lit| - i
    decreases |lit| - i
  {
    if i < |lit| && pos < |t.input| && t.input[pos] == lit[i] {
      LiteralEnd(t, lit, start, pos + 1, i + 1);
    }
  }

  // ---- every parse returns ----

  ghost predicate HasRules(g: Arena) { forall k {:trigger Open(k)} :: Open(k) ==> IsJson(g) }

  /** A rule and its body. */
  lemma RuleAt(g: Arena, name: string) returns (child: ParserId, body: Shape)
    requires HasRules(g) && name in JSON_RULES
    ensures name in g.rules && g.rules[name] < |g.parsers| && g.parsers[g.rules[name]].Rule?
    ensures child == g.parsers[g.rules[name]].child && HasShape(g, child, body) && Guarded(body, Level(name), false)
  {
    assert Open(0);
    var id := g.rules[name];
    assert HasShape(g, id, Named(name));
    child, body := g.parsers[id].child, JsonBody(name);
    BodyGuarded(name);
  }

  /** Any shape, entered from a rule that was entered at start: d calls are enough. */
  lemma {:induction false} ShapeReturns(g: Arena, t: Text, id: ParserId, s: Shape, start: nat, pos: nat, ast: Ast,
                                        level: nat, consumed: bool)
    returns (d: nat)
    requires HasRules(g) && HasShape(g, id, s) && Guarded(s, level, consumed) && Here(t, start, pos, consumed)
    ensures Run(Env(g, t), d, id, pos, ast).Done?
    decreases Left(t, start), level, 0, s
  {
    match s
    case Leaf(p) => d := 1;
    case Refers(name) => d := RuleReturns(g, t, name, pos, ast);
    case InOrder(all) =>
      d := OrderReturns(g, t, g.parsers[id].children, all, start, pos, pos, [], ast, level, consumed);
      d := d + 1;
    case OneOf(all) =>
      d := ChoiceReturns(g, t, g.parsers[id].children, all, start, pos, ast, level, consumed);
      d := d + 1;
    case Around(outer, body) =>
      if outer.Repetition? {
        d := TimesReturns(g, t, g.parsers[id], s, 0, start, pos, pos, [], ast, level, consumed);
      } else {
        d := ShapeReturns(g, t, g.parsers[id].child, body, start, pos, ast, level, consumed);
      }
      d := d + 1;
  }

  lemma {:induction false} RuleReturns(g: Arena, t: Text, name: string, pos: nat, ast: Ast) returns (d: nat)
    requires HasRules(g) && name in JSON_RULES
    ensures name in g.rules && Run(Env(g, t), d, g.rules[name], pos, ast).Done?
    decreases Left(t, pos), Level(name), 1
  {
    var child, body := RuleAt(g, name);
    d := ShapeReturns(g, t, child, body, pos, pos, ast, Level(name), false);
    d := d + 1;
  }

  lemma {:induction false} OrderReturns(g: Arena, t: Text, ids: seq<ParserId>, all: seq<Shape>, start: nat, from: nat,
                                        pos: nat, nodes: seq<AstId>, ast: Ast, level: nat, consumed: bool)
    returns (d: nat)
    requires HasRules(g) && HaveShapes(g, ids, all) && AllGuarded(all, level, consumed)
    requires Here(t, start, pos, consumed) && Reached(t, from, pos)
    ensures RunSequence(Env(g, t), d, ids, from, pos, nodes, ast).Done?
    decreases Left(t, start), level, 0, all
  {
    if all == [] {
      d := 0;
    } else {
      d := ShapeReturns(g, t, ids[0], all[0], start, pos, ast, level, consumed);
      var o := Run(Env(g, t), d, ids[0], pos, ast);
      if o.res.kind.Success? {
        HereOn(t, start, pos, consumed, o.res.end);
        EatsMore(g, t, d, ids[0], all[0], pos, ast);
        var rest := OrderReturns(g, t, ids[1..], all[1..], start, from, o.res.end, nodes + o.res.nodes, o.ast, level,
                                 consumed || Eats(all[0]));
        DeeperRun(Env(g, t), d, d + rest, ids[0], pos, ast);
        DeeperSequence(Env(g, t), rest, d + rest, ids[1..], from, o.res.end, nodes + o.res.nodes, o.ast);
        d := d + rest;
      }
    }
  }

  lemma EatsMore(g: Arena, t: Text, d: nat, id: ParserId, s: Shape, pos: nat, ast: Ast)
    requires HasShape(g, id, s)
    ensures var o := Run(Env(g, t), d, id, pos, ast); Eats(s) && o.Done? && o.res.kind.Success? ==> o.res.end > pos
  {
    if Eats(s) {
      LiteralEnd(t, s.p.literal, pos, pos, 0);
    }
  }

  lemma {:induction false} ChoiceReturns(g: Arena, t: Text, ids: seq<ParserId>, all: seq<Shape>, start: nat, pos: nat,
                                         ast: Ast, level: nat, consumed: bool)
    returns (d: nat)
    requires HasRules(g) && HaveShapes(g, ids, all) && Here(t, start, pos, consumed)
    requires forall i :: 0 <= i < |all| ==> Guarded(all[i], level, consumed)
    ensures RunChoice(Env(g, t), d, ids, pos, ast).Done?
    decreases Left(t, start), level, 0, all
  {
    if all == [] {
      d := 0;
    } else {
      d := ShapeReturns(g, t, ids[0], all[0], start, pos, ast, level, consumed);
      var o := Run(Env(g, t), d, ids[0], pos, ast);
      if o.res.kind.Fail? {
        var rest := ChoiceReturns(g, t, ids[1..], all[1..], start, pos, o.ast, level, consumed);
        DeeperRun(Env(g, t), d, d + rest, ids[0], pos, ast);
        DeeperChoice(Env(g, t), rest, d + rest, ids[1..], pos, o.ast);
        d := d + rest;
      }
    }
  }

  lemma {:induction false} TimesReturns(g: Arena, t: Text, p: Parser, s: Shape, count: nat, start: nat, from: nat,
                                        pos: nat, nodes: seq<AstId>, ast: Ast, level: nat, consumed: bool)
    returns (d: nat)
    requires HasRules(g) && p.Repetition? && s.Around? && HasShape(g, p.child, s.body)
    requires Guarded(s.body, level, consumed) && Here(t, start, pos, consumed) && Reached(t, from, pos)
    ensures RunRepetition(Env(g, t), d, p, count, from, pos, nodes, ast).Done?
    decreases Left(t, start), level, 0, s, Left(t, pos)
  {
    if !Bounded(count, p.maxCount) || pos >= |t.input| {
      d := 0;
    } else {
      d := ShapeReturns(g, t, p.child, s.body, start, pos, ast, level, consumed);
      var o := Run(Env(g, t), d, p.child, pos, ast);
      if o.res.kind.Success? && o.res.end != pos {
        HereOn(t, start, pos, consumed, o.res.end);
        var rest := TimesReturns(g, t, p, s, count + 1, start, from, o.res.end, nodes + o.res.nodes, o.ast, level,
                                 consumed);
        DeeperRun(Env(g, t), d, d + rest, p.child, pos, ast);
        DeeperRepetition(Env(g, t), rest, d + rest, p, count + 1, from, o.res.end, nodes + o.res.nodes, o.ast);
        d := d + rest;
      }
    }
  }

  lemma BodyGuarded(name: string)
    requires name in JSON_RULES
    ensures Guarded(JsonBody(name), Level(name), false)
  {
    if name == "json-value" {
      ValueGuarded();
    } else if name == "json-object" {
      MembersGuarded();
      EnclosedGuarded("{", "}", MembersShapes());
    } else if name == "json-array" {
      ElementsGuarded();
      EnclosedGuarded("[", "]", ElementsShapes());
    } else if name == "json-number" {
      NumberGuarded();
    } else {
      OtherGuarded(name);
    }
  }

  lemma OtherGuarded(name: string)
    requires name == "json-string" || name == "json-bool" || name == "json-null"
    ensures Guarded(JsonBody(name), 1, false)
  {
    if name == "json-string" {
      EachGuarded([Lit("\""), Leaf(String('"' as int)), Lit("\"")], 1);
    }
  }

  /** Whatever is guarded without anything consumed may stand anywhere in a sequence. */
  lemma {:induction false} EachGuarded(all: seq<Shape>, level: nat)
    requires forall i :: 0 <= i < |all| ==> Guarded(all[i], level, false)
    ensures AllGuarded(all, level, false)
    decreases |all|
  {
    if all != [] {
      EachGuarded(all[1..], level);
      AllGuardedBehind(all[1..], level);
    }
  }

  lemma ValueGuarded()
    ensures Guarded(ValueShape(), 3, false)
  {
  }

  lemma OneMore(s: Shape, all: seq<Shape>, level: nat, consumed: bool)
    requires Guarded(s, level, consumed) && AllGuarded(all, level, consumed || Eats(s))
    ensures AllGuarded([s] + all, level, consumed)
  {
    assert ([s] + all)[1..] == all;
  }

  lemma {:induction false} MoreGuarded(a: seq<Shape>, b: seq<Shape>, level: nat)
    requires AllGuarded(a, level, true) && AllGuarded(b, level, true)
    ensures AllGuarded(a + b, level, true)
    decreases |a|
  {
    if a == [] {
      assert a + b == b;
    } else {
      MoreGuarded(a[1..], b, level);
      assert a + b == [a[0]] + (a[1..] + b);
      OneMore(a[0], a[1..] + b, level, true);
    }
  }

  lemma EnclosedGuarded(left: string, right: string, body: seq<Shape>)
    requires left != [] && AllGuarded(body, 2, true)
    ensures Guarded(EnclosedShape(left, right, body), 2, false)
  {
    var end := [Leaf(Space), Lit(right)];
    assert AllGuarded(end[1..], 2, true);
    MoreGuarded(body, end, 2);
    var inner := OneOf([Lit(right), InOrder(body + end)]);
    assert Guarded(inner, 2, true);
    assert AllGuarded([inner], 2, true);
    OneMore(Leaf(Space), [inner], 2, true);
    OneMore(Lit(left), [Leaf(Space), inner], 2, false);
    assert [Lit(left)] + ([Leaf(Space)] + [inner]) == [Lit(left), Leaf(Space), inner];
  }

  lemma ValueAllowed()
    ensures Guarded(Refers("json-value"), 2, true) && AllGuarded([Refers("json-value")], 2, true)
    ensures Guarded(Refers("json-string"), 2, true)
  {
    var value := Refers("json-value");
    assert "json-value" in JSON_RULES && "json-string" in JSON_RULES;
    OneMore(value, [], 2, true);
    assert [value] + [] == [value];
  }

  lemma ElementsGuarded()
    ensures AllGuarded(ElementsShapes(), 2, true)
  {
    var value := Refers("json-value");
    ValueAllowed();
    OneMore(Leaf(Space), [value], 2, true);
    OneMore(Lit(","), [Leaf(Space), value], 2, true);
    var more := [Lit(","), Leaf(Space), value];
    assert [Lit(",")] + ([Leaf(Space)] + [value]) == more;
    assert Guarded(Times(InOrder(more), 0, -1), 2, true);
    OneMore(value, [Times(InOrder(more), 0, -1)], 2, true);
  }

  lemma MemberGuarded()
    ensures AllGuarded(MemberShapes(), 2, true)
  {
    var value, ws := Refers("json-value"), Leaf(Space);
    ValueAllowed();
    OneMore(ws, [value], 2, true);
    OneMore(Lit(":"), [ws, value], 2, true);
    OneMore(ws, [Lit(":"), ws, value], 2, true);
    OneMore(Refers("json-string"), [ws, Lit(":"), ws, value], 2, true);
    assert MemberShapes() == [Refers("json-string")] + [ws, Lit(":"), ws, value];
    assert [ws] + [value] == [ws, value] && [Lit(":")] + [ws, value] == [Lit(":"), ws, value];
    assert [ws] + [Lit(":"), ws, value] == [ws, Lit(":"), ws, value];
  }

  lemma MembersGuarded()
    ensures AllGuarded(MembersShapes(), 2, true)
  {
    MemberGuarded();
    var before := [Leaf(Space), Lit(","), Leaf(Space)];
    assert AllGuarded(before[2..], 2, true) && before[1..][1..] == before[2..];
    MoreGuarded(before, MemberShapes(), 2);
    assert Guarded(Times(InOrder(before + MemberShapes()), 0, -1), 2, true);
    assert AllGuarded([Times(InOrder(before + MemberShapes()), 0, -1)], 2, true);
    MoreGuarded(MemberShapes(), [Times(InOrder(before + MemberShapes()), 0, -1)], 2);
  }

  lemma ThreeGuarded(a: Shape, b: Shape, c: Shape, level: nat)
    requires Guarded(a, level, false) && Guarded(b, level, false) && Guarded(c, level, false)
    ensures AllGuarded([a, b, c], level, false)
  {
    EachGuarded([a, b, c], level);
  }

  lemma FiveGuarded(a: Shape, b: Shape, c: Shape, d: Shape, e: Shape, level: nat)
    requires Guarded(a, level, false) && Guarded(b, level, false) && Guarded(c, level, false)
    requires Guarded(d, level, false) && Guarded(e, level, false)
    ensures AllGuarded([a, b, c, d, e], level, false)
  {
    EachGuarded([a, b, c, d, e], level);
  }

  lemma TimesGuarded(body: Shape, lo: int, hi: int, level: nat)
    requires Guarded(body, level, false)
    ensures Guarded(Times(body, lo, hi), level, false)
  {
  }

  lemma LeafGuarded(p: Parser, level: nat)
    requires IsLeaf(p)
    ensures Guarded(Leaf(p), level, false)
  {
  }

  lemma NumberGuarded()
    ensures Guarded(NumberShape(), 1, false)
  {
    LeafGuarded(Literal(Ascii("-")), 1);
    TimesGuarded(Lit("-"), 0, 1, 1);
    IntegerGuarded();
    FractionGuarded();
    TimesGuarded(FractionShape(), 0, 1, 1);
    ExponentGuarded();
    TimesGuarded(ExponentShape(), 0, 1, 1);
    EndGuarded();
    FiveGuarded(Times(Lit("-"), 0, 1), IntegerShape(), Times(FractionShape(), 0, 1), Times(ExponentShape(), 0, 1),
        NumberEnd(), 1);
  }

  lemma EndGuarded()
    ensures Guarded(NumberEnd(), 1, false)
  {
    LeafGuarded(Chars([DIGIT, OneChar('.'), OneChar('e'), OneChar('E'), OneChar('+'), OneChar('-')], false, 1, 1), 1);
  }

  lemma IntegerGuarded()
    ensures Guarded(IntegerShape(), 1, false)
  {
    EachGuarded([CharsOf([Range('1' as int, '9' as int)], 1, 1), CharsOf([DIGIT], 0, -1)], 1);
  }

  lemma FractionGuarded()
    ensures Guarded(FractionShape(), 1, false)
  {
    EachGuarded([Lit("."), CharsOf([DIGIT], 1, -1)], 1);
  }

  lemma ExponentGuarded()
    ensures Guarded(ExponentShape(), 1, false)
  {
    var letter, sign := OneOf([Lit("e"), Lit("E")]), CharsOf([OneChar('+'), OneChar('-')], 1, 1);
    LeafGuarded(sign.p, 1);
    TimesGuarded(sign, 0, 1, 1);
    LeafGuarded(Chars([DIGIT], false, 1, -1), 1);
    assert Guarded(letter, 1, false);
    ThreeGuarded(letter, Times(sign, 0, 1), CharsOf([DIGIT], 1, -1), 1);
  }

  /** Whatever the input, the mode and the position are: on a large enough stack, parsing JSON has a result. */
  lemma JsonReturns(g: Arena, t: Text, pos: nat, ast: Ast) returns (o: Outcome)
    requires IsJson(g)
    ensures o.Done? && Returns(Env(g, t), g.root.value, pos, ast, o)
  {
    var d := RuleReturns(g, t, "json-value", pos, ast);
    o := Run(Env(g, t), d, g.root.value, pos, ast);
  }

  // ---- what a shape does at a position ----

  datatype Ending = Fails | To(end: nat)

  predicate IsEnding(o: Outcome, r: Ending) {
    o.Done? && if r.Fails? then o.res.kind.Fail? else o.res.kind.Success? && o.res.end == r.end
  }

  ghost predicate Ends(e: Env, id: ParserId, pos: nat, ast: Ast, r: Ending) {
    exists d: nat :: IsEnding(Run(e, d, id, pos, ast), r)
  }

  /** Every parser of this shape ends so. */
  ghost predicate ShapeEnds(g: Arena, t: Text, s: Shape, pos: nat, r: Ending) {
    forall k {:trigger Open(k)} :: Open(k) ==>
      forall id: ParserId, ast :: HasShape(g, id, s) ==> Ends(Env(g, t), id, pos, ast, r)
  }

  ghost predicate SequenceEnds(e: Env, ids: seq<ParserId>, from: nat, pos: nat, nodes: seq<AstId>, ast: Ast, r: Ending)
    requires Reached(e.text, from, pos)
  {
    exists d: nat :: IsEnding(RunSequence(e, d, ids, from, pos, nodes, ast), r)
  }

  ghost predicate OrderEnds(g: Arena, t: Text, all: seq<Shape>, pos: nat, r: Ending) {
    forall k {:trigger Open(k)} :: Open(k) ==>
      forall ids, from, nodes, ast :: HaveShapes(g, ids, all) && Reached(t, from, pos) ==>
        SequenceEnds(Env(g, t), ids, from, pos, nodes, ast, r)
  }

  ghost predicate ChoiceEnds(g: Arena, t: Text, all: seq<Shape>, pos: nat, r: Ending) {
    forall k {:trigger Open(k)} :: Open(k) ==>
      forall ids, ast :: HaveShapes(g, ids, all) ==> OneEnds(Env(g, t), ids, pos, ast, r)
  }

  ghost predicate OneEnds(e: Env, ids: seq<ParserId>, pos: nat, ast: Ast, r: Ending) {
    exists d: nat :: IsEnding(RunChoice(e, d, ids, pos, ast), r)
  }

  lemma LeafEnds(g: Arena, t: Text, p: Parser, pos: nat, r: Ending)
    requires IsLeaf(p) && IsEnding(Done(RunLeaf(t, p, pos), []), r)
    ensures ShapeEnds(g, t, Leaf(p), pos, r)
  {
    forall id: ParserId, ast | HasShape(g, id, Leaf(p))
      ensures Ends(Env(g, t), id, pos, ast, r)
    {
      assert Run(Env(g, t), 1, id, pos, ast) == Done(RunLeaf(t, p, pos), ast);
    }
  }

  lemma OrderNone(g: Arena, t: Text, pos: nat)
    ensures OrderEnds(g, t, [], pos, To(pos))
  {
    forall ids, from, nodes, ast | HaveShapes(g, ids, []) && Reached(t, from, pos)
      ensures SequenceEnds(Env(g, t), ids, from, pos, nodes, ast, To(pos))
    {
      assert IsEnding(RunSequence(Env(g, t), 0, ids, from, pos, nodes, ast), To(pos));
    }
  }

  lemma OrderFails(g: Arena, t: Text, s: Shape, rest: seq<Shape>, pos: nat)
    requires ShapeEnds(g, t, s, pos, Fails)
    ensures OrderEnds(g, t, [s] + rest, pos, Fails)
  {
    assert Open(0);
    forall ids, from, nodes, ast | HaveShapes(g, ids, [s] + rest) && Reached(t, from, pos)
      ensures SequenceEnds(Env(g, t), ids, from, pos, nodes, ast, Fails)
    {
      assert HasShape(g, ids[0], ([s] + rest)[0]);
      assert Ends(Env(g, t), ids[0], pos, ast, Fails);
      var d: nat :| IsEnding(Run(Env(g, t), d, ids[0], pos, ast), Fails);
      assert IsEnding(RunSequence(Env(g, t), d, ids, from, pos, nodes, ast), Fails);
    }
  }

  lemma TailShapes(g: Arena, ids: seq<ParserId>, s: Shape, rest: seq<Shape>)
    requires HaveShapes(g, ids, [s] + rest)
    ensures ids != [] && HasShape(g, ids[0], s) && HaveShapes(g, ids[1..], rest)
  {
    var all := [s] + rest;
    assert HasShape(g, ids[0], all[0]);
    forall i | 0 <= i < |rest|
      ensures HasShape(g, ids[1..][i], rest[i])
    {
      assert HasShape(g, ids[i + 1], all[i + 1]);
    }
  }

  lemma OrderMore(g: Arena, t: Text, s: Shape, rest: seq<Shape>, pos: nat, mid: nat, r: Ending)
    requires ShapeEnds(g, t, s, pos, To(mid)) && OrderEnds(g, t, rest, mid, r)
    ensures OrderEnds(g, t, [s] + rest, pos, r)
  {
    assert Open(0);
    forall ids, from, nodes, ast | HaveShapes(g, ids, [s] + rest) && Reached(t, from, pos)
      ensures SequenceEnds(Env(g, t), ids, from, pos, nodes, ast, r)
    {
      TailShapes(g, ids, s, rest);
      SequenceMore(g, t, ids, from, pos, nodes, ast, rest, mid, r);
    }
  }

  lemma SequenceMore(g: Arena, t: Text, ids: seq<ParserId>, from: nat, pos: nat, nodes: seq<AstId>, ast: Ast,
                     rest: seq<Shape>, mid: nat, r: Ending)
    requires ids != [] && Reached(t, from, pos) && Ends(Env(g, t), ids[0], pos, ast, To(mid))
    requires HaveShapes(g, ids[1..], rest) && OrderEnds(g, t, rest, mid, r)
    ensures SequenceEnds(Env(g, t), ids, from, pos, nodes, ast, r)
  {
    assert Open(0);
    var e := Env(g, t);
    var d: nat :| IsEnding(Run(e, d, ids[0], pos, ast), To(mid));
    var o := Run(e, d, ids[0], pos, ast);
    assert SequenceEnds(e, ids[1..], from, mid, nodes + o.res.nodes, o.ast, r);
    var k: nat :| IsEnding(RunSequence(e, k, ids[1..], from, mid, nodes + o.res.nodes, o.ast), r);
    DeeperRun(e, d, d + k, ids[0], pos, ast);
    DeeperSequence(e, k, d + k, ids[1..], from, mid, nodes + o.res.nodes, o.ast);
    assert IsEnding(RunSequence(e, d + k, ids, from, pos, nodes, ast), r);
  }

  lemma ChoiceNone(g: Arena, t: Text, pos: nat)
    ensures ChoiceEnds(g, t, [], pos, Fails)
  {
    forall ids, ast | HaveShapes(g, ids, [])
      ensures OneEnds(Env(g, t), ids, pos, ast, Fails)
    {
      assert IsEnding(RunChoice(Env(g, t), 0, ids, pos, ast), Fails);
    }
  }

  lemma ChoiceTakes(g: Arena, t: Text, s: Shape, rest: seq<Shape>, pos: nat, end: nat)
    requires ShapeEnds(g, t, s, pos, To(end))
    ensures ChoiceEnds(g, t, [s] + rest, pos, To(end))
  {
    assert Open(0);
    forall ids, ast | HaveShapes(g, ids, [s] + rest)
      ensures OneEnds(Env(g, t), ids, pos, ast, To(end))
    {
      TailShapes(g, ids, s, rest);
      assert Ends(Env(g, t), ids[0], pos, ast, To(end));
      var d: nat :| IsEnding(Run(Env(g, t), d, ids[0], pos, ast), To(end));
      assert IsEnding(RunChoice(Env(g, t), d, ids, pos, ast), To(end));
    }
  }

  lemma ChoiceMore(g: Arena, t: Text, s: Shape, rest: seq<Shape>, pos: nat, r: Ending)
    requires ShapeEnds(g, t, s, pos, Fails) && ChoiceEnds(g, t, rest, pos, r)
    ensures ChoiceEnds(g, t, [s] + rest, pos, r)
  {
    assert Open(0);
    forall ids, ast | HaveShapes(g, ids, [s] + rest)
      ensures OneEnds(Env(g, t), ids, pos, ast, r)
    {
      TailShapes(g, ids, s, rest);
      OneMoreChoice(g, t, ids, pos, ast, rest, r);
    }
  }

  lemma OneMoreChoice(g: Arena, t: Text, ids: seq<ParserId>, pos: nat, ast: Ast, rest: seq<Shape>, r: Ending)
    requires ids != [] && Ends(Env(g, t), ids[0], pos, ast, Fails)
    requires HaveShapes(g, ids[1..], rest) && ChoiceEnds(g, t, rest, pos, r)
    ensures OneEnds(Env(g, t), ids, pos, ast, r)
  {
    assert Open(0);
    var e := Env(g, t);
    var d: nat :| IsEnding(Run(e, d, ids[0], pos, ast), Fails);
    var o := Run(e, d, ids[0], pos, ast);
    assert OneEnds(e, ids[1..], pos, o.ast, r);
    var k: nat :| IsEnding(RunChoice(e, k, ids[1..], pos, o.ast), r);
    DeeperRun(e, d, d + k, ids[0], pos, ast);
    DeeperChoice(e, k, d + k, ids[1..], pos, o.ast);
    assert IsEnding(RunChoice(e, d + k, ids, pos, ast), r);
  }

  lemma InOrderEnds(g: Arena, t: Text, all: seq<Shape>, pos: nat, r: Ending)
    requires OrderEnds(g, t, all, pos, r)
    ensures ShapeEnds(g, t, InOrder(all), pos, r)
  {
    assert Open(0);
    forall id: ParserId, ast | HasShape(g, id, InOrder(all))
      ensures Ends(Env(g, t), id, pos, ast, r)
    {
      var ids := g.parsers[id].children;
      assert SequenceEnds(Env(g, t), ids, pos, pos, [], ast, r);
      var d: nat :| IsEnding(RunSequence(Env(g, t), d, ids, pos, pos, [], ast), r);
      assert IsEnding(Run(Env(g, t), d + 1, id, pos, ast), r);
    }
  }

  lemma OneOfEnds(g: Arena, t: Text, all: seq<Shape>, pos: nat, r: Ending)
    requires ChoiceEnds(g, t, all, pos, r)
    ensures ShapeEnds(g, t, OneOf(all), pos, r)
  {
    assert Open(0);
    forall id: ParserId, ast | HasShape(g, id, OneOf(all))
      ensures Ends(Env(g, t), id, pos, ast, r)
    {
      assert OneEnds(Env(g, t), g.parsers[id].children, pos, ast, r);
      var d: nat :| IsEnding(RunChoice(Env(g, t), d, g.parsers[id].children, pos, ast), r);
      assert IsEnding(Run(Env(g, t), d + 1, id, pos, ast), r);
    }
  }

  /** A repetition that may be empty, where its body fails. */
  lemma TimesNone(g: Arena, t: Text, body: Shape, hi: int, pos: nat)
    requires ShapeEnds(g, t, body, pos, Fails)
    ensures ShapeEnds(g, t, Times(body, 0, hi), pos, To(pos))
  {
    assert Open(0);
    forall id: ParserId, ast | HasShape(g, id, Times(body, 0, hi))
      ensures Ends(Env(g, t), id, pos, ast, To(pos))
    {
      var p := g.parsers[id];
      assert HasShape(g, p.child, body) && Ends(Env(g, t), p.child, pos, ast, Fails);
      var d: nat :| IsEnding(Run(Env(g, t), d, p.child, pos, ast), Fails);
      assert IsEnding(RunRepetition(Env(g, t), d, p, 0, pos, pos, [], ast), To(pos));
      assert IsEnding(Run(Env(g, t), d + 1, id, pos, ast), To(pos));
    }
  }

  /** The child of a rule has the shape of its body. */
  lemma BodyAt(g: Arena, name: string, body: Shape)
    requires HasRules(g) && name in JSON_RULES && body == JsonBody(name)
    ensures name in g.rules && g.rules[name] < |g.parsers| && g.parsers[g.rules[name]].Rule?
    ensures HasShape(g, g.parsers[g.rules[name]].child, body)
  {
    assert Open(0);
    assert HasShape(g, g.rules[name], Named(name));
  }

  lemma RefersEnds(g: Arena, t: Text, name: string, body: Shape, pos: nat, r: Ending)
    requires HasRules(g) && name in JSON_RULES && body == JsonBody(name) && ShapeEnds(g, t, body, pos, r)
    ensures ShapeEnds(g, t, Refers(name), pos, r)
  {
    BodyAt(g, name, body);
    var child := g.parsers[g.rules[name]].child;
    forall id: ParserId, ast | HasShape(g, id, Refers(name))
      ensures Ends(Env(g, t), id, pos, ast, r)
    {
      RuleEnds(g, t, id, child, body, pos, ast, r);
    }
  }

  lemma RuleEnds(g: Arena, t: Text, id: ParserId, child: ParserId, body: Shape, pos: nat, ast: Ast, r: Ending)
    requires id < |g.parsers| && g.parsers[id].Rule? && g.parsers[id].child == child
    requires HasShape(g, child, body) && ShapeEnds(g, t, body, pos, r)
    ensures Ends(Env(g, t), id, pos, ast, r)
  {
    assert Open(0);
    assert Ends(Env(g, t), child, pos, ast, r);
    var d: nat :| IsEnding(Run(Env(g, t), d, child, pos, ast), r);
    assert IsEnding(Run(Env(g, t), d + 1, id, pos, ast), r);
  }

  // ---- a space before a comma ----

  /** A literal that is not what stands here. */
  lemma LitFails(g: Arena, t: Text, text: string, pos: nat)
    requires pos < |t.input| && text != [] && t.input[pos] != text[0] as int % 0x100
    ensures ShapeEnds(g, t, Lit(text), pos, Fails)
  {
    LeafEnds(g, t, Literal(Ascii(text)), pos, Fails);
  }

  lemma LitTakes(g: Arena, t: Text, c: char, pos: nat)
    requires pos < |t.input| && t.input[pos] == c as int % 0x100
    ensures ShapeEnds(g, t, Lit([c]), pos, To(pos + 1))
  {
    assert LiteralFrom(t, Ascii([c]), pos, pos, 0) == LiteralFrom(t, Ascii([c]), pos, pos + 1, 1);
    LeafEnds(g, t, Literal(Ascii([c])), pos, To(pos + 1));
  }

  lemma SpaceTakes(g: Arena, t: Text, pos: nat, end: nat)
    requires SpaceFrom(t, pos, pos).end == end
    ensures ShapeEnds(g, t, Leaf(Space), pos, To(end))
  {
    SpaceSucceeds(t, pos, pos);
    LeafEnds(g, t, Space, pos, To(end));
  }

  lemma {:induction false} SpaceSucceeds(t: Text, start: nat, pos: nat)
    requires Reached(t, start, pos)
    ensures SpaceFrom(t, start, pos).kind.Success?
    decreases |t.input| - pos
  {
    if pos < |t.input| && IsSpace(t.input[pos]) {
      SpaceSucceeds(t, start, pos + 1);
    }
  }

  /** What follows a bracket and spaces in an array: its end, or elements. */
  function InsideArray(): Shape { OneOf([Lit("]"), InOrder(ElementsShapes() + [Leaf(Space), Lit("]")])]) }

  function MoreElements(): Shape { Times(InOrder([Lit(","), Leaf(Space), Refers("json-value")]), 0, -1) }

  lemma ArrayBody(body: Shape)
    requires body == JsonBody("json-array")
    ensures body == InOrder([Lit("[")] + ([Leaf(Space)] + ([InsideArray()] + [])))
  {
    assert [Lit("[")] + ([Leaf(Space)] + ([InsideArray()] + [])) == [Lit("["), Leaf(Space), InsideArray()];
  }

  lemma ElementsList()
    ensures ElementsShapes() + [Leaf(Space), Lit("]")]
         == [Refers("json-value")] + ([MoreElements()] + ([Leaf(Space)] + ([Lit("]")] + [])))
  {
    assert ElementsShapes() == [Refers("json-value"), MoreElements()];
  }

  lemma InsideFails(g: Arena, t: Text, q: nat, m: nat, n: nat)
    requires q < |t.input| && t.input[q] != ']' as int && ShapeEnds(g, t, Refers("json-value"), q, To(m))
    requires m < |t.input| && IsSpace(t.input[m]) && SpaceFrom(t, m, m).end == n
    requires n < |t.input| && t.input[n] == ',' as int
    ensures ShapeEnds(g, t, InsideArray(), q, Fails)
  {
    LitFails(g, t, "]", n);
    OrderFails(g, t, Lit("]"), [], n);
    SpaceTakes(g, t, m, n);
    OrderMore(g, t, Leaf(Space), [Lit("]")] + [], m, n, Fails);
    NoComma(g, t, m);
    OrderMore(g, t, MoreElements(), [Leaf(Space)] + ([Lit("]")] + []), m, m, Fails);
    OrderMore(g, t, Refers("json-value"), [MoreElements()] + ([Leaf(Space)] + ([Lit("]")] + [])), q, m, Fails);
    ElementsList();
    var elements := ElementsShapes() + [Leaf(Space), Lit("]")];
    InOrderEnds(g, t, elements, q, Fails);
    LitFails(g, t, "]", q);
    ChoiceOfTwo(g, t, Lit("]"), InOrder(elements), q);
  }

  lemma NoComma(g: Arena, t: Text, m: nat)
    requires m < |t.input| && t.input[m] != ',' as int
    ensures ShapeEnds(g, t, MoreElements(), m, To(m))
  {
    var more := [Leaf(Space), Refers("json-value")];
    LitFails(g, t, ",", m);
    OrderFails(g, t, Lit(","), more, m);
    assert [Lit(",")] + more == [Lit(","), Leaf(Space), Refers("json-value")];
    InOrderEnds(g, t, [Lit(","), Leaf(Space), Refers("json-value")], m, Fails);
    TimesNone(g, t, InOrder([Lit(","), Leaf(Space), Refers("json-value")]), -1, m);
  }

  lemma ChoiceOfTwo(g: Arena, t: Text, a: Shape, b: Shape, pos: nat)
    requires ShapeEnds(g, t, a, pos, Fails) && ShapeEnds(g, t, b, pos, Fails)
    ensures ShapeEnds(g, t, OneOf([a, b]), pos, Fails)
  {
    ChoiceNone(g, t, pos);
    ChoiceMore(g, t, b, [], pos, Fails);
    ChoiceMore(g, t, a, [b] + [], pos, Fails);
    assert [a] + ([b] + []) == [a, b];
    OneOfEnds(g, t, [a, b], pos, Fails);
  }

  /**
    An array is refused if spaces stand between its first element and the comma behind it, whatever the element is and
    whatever follows; section 2 of RFC 8259 allows white space there, and so does the rule of objects.
   */
  lemma SpaceBeforeCommaFails(g: Arena, t: Text, p: nat, q: nat, m: nat, n: nat)
    requires HasRules(g) && p < |t.input| && t.input[p] == '[' as int && SpaceFrom(t, p + 1, p + 1).end == q
    requires q < |t.input| && t.input[q] != ']' as int && ShapeEnds(g, t, Refers("json-value"), q, To(m))
    requires m < |t.input| && IsSpace(t.input[m]) && SpaceFrom(t, m, m).end == n
    requires n < |t.input| && t.input[n] == ',' as int
    ensures ShapeEnds(g, t, Refers("json-array"), p, Fails)
  {
    InsideFails(g, t, q, m, n);
    ArrayFails(g, t, p, q);
  }

  lemma ArrayFails(g: Arena, t: Text, p: nat, q: nat)
    requires HasRules(g) && p < |t.input| && t.input[p] == '[' as int && SpaceFrom(t, p + 1, p + 1).end == q
    requires ShapeEnds(g, t, InsideArray(), q, Fails)
    ensures ShapeEnds(g, t, Refers("json-array"), p, Fails)
  {
    OrderFails(g, t, InsideArray(), [], q);
    SpaceTakes(g, t, p + 1, q);
    OrderMore(g, t, Leaf(Space), [InsideArray()] + [], p + 1, q, Fails);
    LitTakes(g, t, '[', p);
    OrderMore(g, t, Lit("["), [Leaf(Space)] + ([InsideArray()] + []), p, p + 1, Fails);
    var body := JsonBody("json-array");
    ArrayBody(body);
    InOrderEnds(g, t, [Lit("[")] + ([Leaf(Space)] + ([InsideArray()] + [])), p, Fails);
    RefersEnds(g, t, "json-array", body, p, Fails);
  }

  // ---- one such text ----

  lemma FirstFails(g: Arena, t: Text, name: string, body: Shape, first: Shape, rest: seq<Shape>, pos: nat)
    requires HasRules(g) && name in JSON_RULES && body == JsonBody(name) && body == InOrder([first] + rest)
    requires ShapeEnds(g, t, first, pos, Fails)
    ensures ShapeEnds(g, t, Refers(name), pos, Fails)
  {
    OrderFails(g, t, first, rest, pos);
    InOrderEnds(g, t, [first] + rest, pos, Fails);
    RefersEnds(g, t, name, body, pos, Fails);
  }

  lemma ObjectFails(g: Arena, t: Text, pos: nat)
    requires HasRules(g) && pos < |t.input| && t.input[pos] != '{' as int
    ensures ShapeEnds(g, t, Refers("json-object"), pos, Fails)
  {
    var body := JsonBody("json-object");
    LitFails(g, t, "{", pos);
    var rest := [Leaf(Space), OneOf([Lit("}"), InOrder(MembersShapes() + [Leaf(Space), Lit("}")])])];
    assert body == InOrder([Lit("{")] + rest);
    FirstFails(g, t, "json-object", body, Lit("{"), rest, pos);
  }

  lemma StringFails(g: Arena, t: Text, pos: nat)
    requires HasRules(g) && pos < |t.input| && t.input[pos] != '"' as int
    ensures ShapeEnds(g, t, Refers("json-string"), pos, Fails)
  {
    var body := JsonBody("json-string");
    LitFails(g, t, "\"", pos);
    var rest := [Leaf(String('"' as int)), Lit("\"")];
    assert body == InOrder([Lit("\"")] + rest);
    FirstFails(g, t, "json-string", body, Lit("\""), rest, pos);
  }

  lemma WordsFail(g: Arena, t: Text, pos: nat)
    requires HasRules(g) && pos < |t.input| && t.input[pos] !in {'t' as int, 'f' as int, 'n' as int}
    ensures ShapeEnds(g, t, Refers("json-bool"), pos, Fails) && ShapeEnds(g, t, Refers("json-null"), pos, Fails)
  {
    LitFails(g, t, "true", pos);
    LitFails(g, t, "false", pos);
    ChoiceOfTwo(g, t, Lit("true"), Lit("false"), pos);
    RefersEnds(g, t, "json-bool", BoolShape(), pos, Fails);
    LitFails(g, t, "null", pos);
    RefersEnds(g, t, "json-null", NullShape(), pos, Fails);
  }

  lemma DigitFails(g: Arena, t: Text, pos: nat)
    requires pos < |t.input| && t.input[pos] == '[' as int
    ensures ShapeEnds(g, t, CharsOf([Range('1' as int, '9' as int)], 1, 1), pos, Fails)
  {
    var p := Chars([Range('1' as int, '9' as int)], false, 1, 1);
    assert Decode(t.input, pos) == Char('[' as int, 1) && !InClass(p.ranges, false, '[' as int);
    assert CharsFrom(t, p, pos, pos, 0) == CharsDone(t, p, pos, pos, 0);
    LeafEnds(g, t, p, pos, Fails);
  }

  lemma IntegerFails(g: Arena, t: Text, pos: nat)
    requires pos < |t.input| && t.input[pos] == '[' as int
    ensures ShapeEnds(g, t, IntegerShape(), pos, Fails)
  {
    var first, rest := CharsOf([Range('1' as int, '9' as int)], 1, 1), [CharsOf([DIGIT], 0, -1)];
    DigitFails(g, t, pos);
    OrderFails(g, t, first, rest, pos);
    InOrderEnds(g, t, [first] + rest, pos, Fails);
    assert [first] + rest == [first, CharsOf([DIGIT], 0, -1)];
    LitFails(g, t, "0", pos);
    ChoiceOfTwo(g, t, Lit("0"), InOrder([first] + rest), pos);
  }

  lemma NumberFails(g: Arena, t: Text, pos: nat)
    requires HasRules(g) && pos < |t.input| && t.input[pos] == '[' as int
    ensures ShapeEnds(g, t, Refers("json-number"), pos, Fails)
  {
    var minus, rest := Times(Lit("-"), 0, 1), [Times(FractionShape(), 0, 1), Times(ExponentShape(), 0, 1), NumberEnd()];
    IntegerFails(g, t, pos);
    OrderFails(g, t, IntegerShape(), rest, pos);
    LitFails(g, t, "-", pos);
    TimesNone(g, t, Lit("-"), 1, pos);
    OrderMore(g, t, minus, [IntegerShape()] + rest, pos, pos, Fails);
    InOrderEnds(g, t, [minus] + ([IntegerShape()] + rest), pos, Fails);
    NumberList(minus, rest);
    RefersEnds(g, t, "json-number", NumberShape(), pos, Fails);
  }

  lemma NumberList(minus: Shape, rest: seq<Shape>)
    requires minus == Times(Lit("-"), 0, 1)
    requires rest == [Times(FractionShape(), 0, 1), Times(ExponentShape(), 0, 1), NumberEnd()]
    ensures NumberShape() == InOrder([minus] + ([IntegerShape()] + rest))
  {
  }

  /** At an opening bracket, a value is what the rule of arrays says it is. */
  lemma ValueIsArray(g: Arena, t: Text, pos: nat, r: Ending)
    requires HasRules(g) && pos < |t.input| && t.input[pos] == '[' as int
    requires ShapeEnds(g, t, Refers("json-array"), pos, r)
    ensures ShapeEnds(g, t, Refers("json-value"), pos, r)
  {
    var o, a, s := Refers("json-object"), Refers("json-array"), Refers("json-string");
    var n, b, u := Refers("json-number"), Refers("json-bool"), Refers("json-null");
    if r.Fails? {
      StringFails(g, t, pos);
      NumberFails(g, t, pos);
      WordsFail(g, t, pos);
      ChoiceNone(g, t, pos);
      ChoiceMore(g, t, u, [], pos, r);
      ChoiceMore(g, t, b, [u] + [], pos, r);
      ChoiceMore(g, t, n, [b] + ([u] + []), pos, r);
      ChoiceMore(g, t, s, [n] + ([b] + ([u] + [])), pos, r);
      ChoiceMore(g, t, a, [s] + ([n] + ([b] + ([u] + []))), pos, r);
    } else {
      ChoiceTakes(g, t, a, [s] + ([n] + ([b] + ([u] + []))), pos, r.end);
    }
    ObjectFails(g, t, pos);
    ChoiceMore(g, t, o, [a] + ([s] + ([n] + ([b] + ([u] + [])))), pos, r);
    ValueList(o, a, s, n, b, u);
    OneOfEnds(g, t, [o] + ([a] + ([s] + ([n] + ([b] + ([u] + []))))), pos, r);
    RefersEnds(g, t, "json-value", ValueShape(), pos, r);
  }

  lemma ValueList(o: Shape, a: Shape, s: Shape, n: Shape, b: Shape, u: Shape)
    ensures [o] + ([a] + ([s] + ([n] + ([b] + ([u] + []))))) == [o, a, s, n, b, u]
  {
  }

  lemma EmptyArray(g: Arena, t: Text, pos: nat)
    requires HasRules(g) && pos + 1 < |t.input| && t.input[pos] == '[' as int && t.input[pos + 1] == ']' as int
    ensures ShapeEnds(g, t, Refers("json-array"), pos, To(pos + 2))
  {
    LitTakes(g, t, ']', pos + 1);
    var elements := InOrder(ElementsShapes() + [Leaf(Space), Lit("]")]);
    ChoiceTakes(g, t, Lit("]"), [elements], pos + 1, pos + 2);
    assert [Lit("]")] + [elements] == [Lit("]"), elements];
    OneOfEnds(g, t, [Lit("]"), elements], pos + 1, To(pos + 2));
    OrderNone(g, t, pos + 2);
    OrderMore(g, t, InsideArray(), [], pos + 1, pos + 2, To(pos + 2));
    SpaceTakes(g, t, pos + 1, pos + 1);
    OrderMore(g, t, Leaf(Space), [InsideArray()] + [], pos + 1, pos + 1, To(pos + 2));
    LitTakes(g, t, '[', pos);
    OrderMore(g, t, Lit("["), [Leaf(Space)] + ([InsideArray()] + []), pos, pos + 1, To(pos + 2));
    var body := JsonBody("json-array");
    ArrayBody(body);
    InOrderEnds(g, t, [Lit("[")] + ([Leaf(Space)] + ([InsideArray()] + [])), pos, To(pos + 2));
    RefersEnds(g, t, "json-array", body, pos, To(pos + 2));
  }

  /** The text `[[] ,[]]`, which is JSON, is refused in either mode and on any stack that is large enough. */
  lemma SpacedArrayRefused(g: Arena, lenient: bool, depth: nat, ast: Ast)
    requires IsJson(g)
    ensures var o := Run(Env(g, Text(Ascii("[[] ,[]]"), lenient)), depth, g.root.value, 0, ast);
            !Overflows(o) ==> o.Done? && o.res.kind.Fail?
  {
    RootAt(g);
    var t := Text(Ascii("[[] ,[]]"), lenient);
    SpacedArrayFails(g, t);
    RootFails(g, t, g.root.value, depth, ast);
  }

  lemma SpacedArrayFails(g: Arena, t: Text)
    requires HasRules(g) && t.input == Ascii("[[] ,[]]")
    ensures ShapeEnds(g, t, Refers("json-value"), 0, Fails)
  {
    assert t.input[0] == '[' as int && t.input[1] == '[' as int && t.input[2] == ']' as int;
    assert t.input[3] == ' ' as int && t.input[4] == ',' as int;
    SpacedFails(g, t);
    ValueIsArray(g, t, 0, Fails);
  }

  lemma SpacedFails(g: Arena, t: Text)
    requires HasRules(g) && |t.input| > 4 && t.input[0] == '[' as int && t.input[1] == '[' as int
    requires t.input[2] == ']' as int && t.input[3] == ' ' as int && t.input[4] == ',' as int
    ensures ShapeEnds(g, t, Refers("json-array"), 0, Fails)
  {
    EmptyArray(g, t, 1);
    ValueIsArray(g, t, 1, To(3));
    assert SpaceFrom(t, 3, 3) == SpaceFrom(t, 3, 4);
    SpaceBeforeCommaFails(g, t, 0, 1, 3, 4);
  }

  lemma RootAt(g: Arena)
    requires IsJson(g)
    ensures HasRules(g) && g.root.Some? && HasShape(g, g.root.value, Refers("json-value"))
  {
  }

  lemma RootFails(g: Arena, t: Text, root: ParserId, depth: nat, ast: Ast)
    requires HasShape(g, root, Refers("json-value")) && ShapeEnds(g, t, Refers("json-value"), 0, Fails)
    ensures var o := Run(Env(g, t), depth, root, 0, ast); !Overflows(o) ==> o.Done? && o.res.kind.Fail?
  {
    var e := Env(g, t);
    assert Open(0);
    assert Ends(e, root, 0, ast, Fails);
    var d: nat :| IsEnding(Run(e, d, root, 0, ast), Fails);
    DeeperRun(e, d, d + depth, root, 0, ast);
    DeeperRun(e, depth, d + depth, root, 0, ast);
  }
}

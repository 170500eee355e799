/**
  What more input cannot change: in lenient mode, a failure and a success that stops before the end of the
  input are final. This is what makes it sound to act on a parse of an answer that is still being produced.
 */
module PegStreaming {
  import opened Wrappers
  import opened Utf8
  import opened Peg

  /** A result that leaves some input untouched, or refuses it. */
  ghost predicate Settled(r: Result, n: nat) { r.kind.Fail? || (r.kind.Success? && r.end < n) }

  function Grow(t: Text, y: seq<Byte>): Text { t.(input := t.input + y) }

  function GrowRun(e: Env, y: seq<Byte>): Env { e.(text := Grow(e.text, y)) }

  /** The code point at pos wants more bytes than x has, and nothing in x speaks against it. */
  ghost predicate Truncated(x: seq<Byte>, pos: nat) {
    Decode(x, pos).Incomplete? && forall k :: pos < k < |x| ==> IsCont(x[k])
  }

  ghost predicate EndsInsideCodePoint(x: seq<Byte>) { exists pos :: 0 <= pos < |x| && Truncated(x, pos) }

  /** A lookahead child that reads a fixed number of code points or bytes, and at least one. */
  predicate IsOneShot(p: Parser) {
    p.AnyChar? || (p.Literal? && p.literal != []) || (p.Chars? && p.minCount == p.maxCount >= 1)
  }

  /** Parsers that do not ask where the input begins or ends, and look ahead only by one-shot children. */
  predicate IsStreamable(g: Arena, p: Parser) {
    match p
    case Start => false
    case End => false
    case Until(_) => false
    case Choice(cs) => cs != []
    case And(c) => c < |g.parsers| ==> IsOneShot(g.parsers[c])
    case Not(c) => c < |g.parsers| ==> IsOneShot(g.parsers[c])
    case _ => true
  }

  ghost predicate IsStreamGrammar(g: Arena) {
    forall i :: 0 <= i < |g.parsers| ==> IsStreamable(g, g.parsers[i])
  }

  /** A lenient run of a grammar over an input that does not end inside a code point. */
  ghost predicate Streaming(e: Env) { IsStreamGrammar(e.g) && Whole(e.text) }

  ghost predicate Whole(t: Text) { t.lenient && !EndsInsideCodePoint(t.input) }

  ghost predicate KeepsLeaf(t: Text, pos: nat, r: Result, grown: Result) {
    Settled(r, |t.input|) ==> pos < |t.input| && grown == r
  }

  ghost predicate Keeps(t: Text, pos: nat, o: Outcome, grown: Outcome) {
    o.Done? && Settled(o.res, |t.input|) ==> pos < |t.input| && grown == o
  }

  // ---- decoding ----

  lemma DecodeGrows(x: seq<Byte>, y: seq<Byte>, pos: nat)
    ensures !Decode(x, pos).Incomplete? ==> pos < |x| && Decode(x + y, pos) == Decode(x, pos)
  {
    var s := x + y;
    if pos < |x| { assert s[pos] == x[pos]; }
    if pos + 1 < |x| { assert s[pos + 1] == x[pos + 1]; }
    if pos + 2 < |x| { assert s[pos + 2] == x[pos + 2]; }
    if pos + 3 < |x| { assert s[pos + 3] == x[pos + 3]; }
  }

  lemma IncompleteGrows(x: seq<Byte>, y: seq<Byte>, pos: nat)
    requires pos < |x| && Decode(x, pos).Incomplete? && !Truncated(x, pos)
    ensures !Decode(x + y, pos).Char?
  {
    var k :| pos < k < |x| && !IsCont(x[k]);
    var s := x + y;
    assert s[pos] == x[pos] && s[k] == x[k];
    assert k <= pos + 3;
  }

  /** The check of the repository rules the trouble out. */
  lemma CompleteDoesNotEndInside(x: seq<Byte>)
    requires IsComplete(x)
    ensures !EndsInsideCodePoint(x)
  {
    forall pos | 0 <= pos < |x| && Truncated(x, pos)
      ensures false
    {
      StepsBack(x, |x| - pos, 1);
    }
  }

  lemma StepsBack(x: seq<Byte>, n: nat, i: nat)
    requires 1 <= i <= n <= |x| && Truncated(x, |x| - n)
    ensures !CompleteFrom(x, i)
    decreases n - i
  {
    if i < n {
      StepsBack(x, n, i + 1);
    }
  }

  // ---- parsers without children ----

  lemma {:induction false} LiteralKeeps(t: Text, y: seq<Byte>, lit: seq<Byte>, start: nat, pos: nat, i: nat)
    requires t.lenient && Reached(t, start, pos) && i <= |lit|
    ensures var r := LiteralFrom(t, lit, start, pos, i);
            (r.kind.Fail? || r.kind.Success?) ==>
              (i < |lit| ==> pos < |t.input|) && (r.kind.Success? ==> r.end >= pos)
              && Reached(Grow(t, y), start, pos) && LiteralFrom(Grow(t, y), lit, start, pos, i) == r
    decreases |lit| - i
  {
    if i < |lit| && pos < |t.input| {
      assert Grow(t, y).input[pos] == t.input[pos];
      if t.input[pos] == lit[i] {
        LiteralKeeps(t, y, lit, start, pos + 1, i + 1);
      }
    }
  }

  lemma {:induction false} SpaceKeeps(t: Text, y: seq<Byte>, start: nat, pos: nat)
    requires Reached(t, start, pos)
    ensures SpaceFrom(t, start, pos).end >= pos
    ensures Reached(Grow(t, y), start, pos)
            && KeepsLeaf(t, pos, SpaceFrom(t, start, pos), SpaceFrom(Grow(t, y), start, pos))
    decreases |t.input| - pos
  {
    if pos < |t.input| {
      assert Grow(t, y).input[pos] == t.input[pos];
      if IsSpace(t.input[pos]) {
        SpaceKeeps(t, y, start, pos + 1);
      }
    }
  }

  /** A class stops early only at a code point it can see; exactly counted ones never look further than they read. */
  lemma {:induction false} CharsKeeps(t: Text, y: seq<Byte>, p: Parser, start: nat, pos: nat, count: nat)
    requires t.lenient && !EndsInsideCodePoint(t.input) && p.Chars? && Reached(t, start, pos)
    ensures Reached(Grow(t, y), start, pos)
    ensures var r, grown := CharsFrom(t, p, start, pos, count), CharsFrom(Grow(t, y), p, start, pos, count);
            KeepsLeaf(t, pos, r, grown)
    decreases |t.input| - pos
  {
    if Bounded(count, p.maxCount) {
      DecodeGrows(t.input, y, pos);
      match Decode(t.input, pos)
      case Invalid =>
      case Incomplete =>
        if pos < |t.input| {
          IncompleteGrows(t.input, y, pos);
        }
      case Char(cp, n) =>
        if InClass(p.ranges, p.negated, cp) {
          CharsKeeps(t, y, p, start, pos + n, count + 1);
          CharsGoOn(t, p, start, pos + n, count + 1);
        }
    }
  }

  lemma {:induction false} CharsOneShot(t: Text, y: seq<Byte>, p: Parser, start: nat, pos: nat, count: nat)
    requires t.lenient && !EndsInsideCodePoint(t.input) && p.Chars? && Reached(t, start, pos)
    ensures Reached(Grow(t, y), start, pos)
    ensures var r, grown := CharsFrom(t, p, start, pos, count), CharsFrom(Grow(t, y), p, start, pos, count);
            p.minCount == p.maxCount && 0 <= count < p.maxCount && !r.kind.NeedMore? ==> pos < |t.input| && grown == r
    decreases |t.input| - pos
  {
    if Bounded(count, p.maxCount) {
      DecodeGrows(t.input, y, pos);
      match Decode(t.input, pos)
      case Invalid =>
      case Incomplete =>
        if pos < |t.input| {
          IncompleteGrows(t.input, y, pos);
        }
      case Char(cp, n) =>
        if InClass(p.ranges, p.negated, cp) {
          CharsOneShot(t, y, p, start, pos + n, count + 1);
        }
    }
  }

  lemma {:induction false} CharsGoOn(t: Text, p: Parser, start: nat, pos: nat, count: nat)
    requires p.Chars? && Reached(t, start, pos)
    ensures var r := CharsFrom(t, p, start, pos, count); r.kind.Success? ==> r.end >= pos
    decreases |t.input| - pos
  {
    var d := Decode(t.input, pos);
    if Bounded(count, p.maxCount) && d.Char? && InClass(p.ranges, p.negated, d.cp) {
      CharsGoOn(t, p, start, pos + d.bytes, count + 1);
    }
  }

  lemma {:induction false} HexKeeps(t: Text, y: seq<Byte>, start: nat, pos: nat, left: nat)
    requires t.lenient && Reached(t, start, pos)
    ensures Reached(Grow(t, y), start, pos)
    ensures var r := HexFrom(t, start, pos, left); !r.kind.NeedMore? ==> HexFrom(Grow(t, y), start, pos, left) == r
    decreases left
  {
    if left > 0 && pos < |t.input| {
      assert Grow(t, y).input[pos] == t.input[pos];
      if IsHexDigit(t.input[pos]) {
        HexKeeps(t, y, start, pos + 1, left - 1);
      }
    }
  }

  lemma EscapeKeeps(t: Text, y: seq<Byte>, delimiter: Byte, start: nat, pos: nat)
    requires t.lenient && Reached(t, start, pos) && pos < |t.input|
    ensures Reached(Grow(t, y), start, pos)
    ensures var r := EscapeAt(t, delimiter, start, pos);
            !r.kind.NeedMore? ==> EscapeAt(Grow(t, y), delimiter, start, pos) == r
  {
    if pos + 1 < |t.input| {
      assert Grow(t, y).input[pos + 1] == t.input[pos + 1];
      HexKeeps(t, y, start, pos + 2, 4);
    }
  }

  lemma {:induction false} StringKeeps(t: Text, y: seq<Byte>, delimiter: Byte, start: nat, pos: nat)
    requires t.lenient && Reached(t, start, pos)
    ensures Reached(Grow(t, y), start, pos)
    ensures KeepsLeaf(t, pos, StringFrom(t, delimiter, start, pos), StringFrom(Grow(t, y), delimiter, start, pos))
    decreases |t.input| - pos
  {
    if pos < |t.input| {
      assert Grow(t, y).input[pos] == t.input[pos];
      if t.input[pos] == delimiter {
      } else if t.input[pos] == BACKSLASH {
        EscapeKeeps(t, y, delimiter, start, pos);
        var r := EscapeAt(t, delimiter, start, pos);
        if r.kind.Success? {
          StringKeeps(t, y, delimiter, start, r.end);
        }
      } else {
        DecodeGrows(t.input, y, pos);
        var d := Decode(t.input, pos);
        if d.Char? {
          StringKeeps(t, y, delimiter, start, pos + d.bytes);
        }
      }
    }
  }

  lemma LeafKeeps(t: Text, y: seq<Byte>, p: Parser, pos: nat)
    requires Whole(t) && IsLeaf(p) && !p.Start? && !p.End? && !p.Until?
    ensures KeepsLeaf(t, pos, RunLeaf(t, p, pos), RunLeaf(Grow(t, y), p, pos))
  {
    match p
    case Literal(lit) => LiteralKeeps(t, y, lit, pos, pos, 0);
    case AnyChar => DecodeGrows(t.input, y, pos);
    case Space => SpaceKeeps(t, y, pos, pos);
    case Chars(_, _, _, _) => CharsKeeps(t, y, p, pos, pos, 0);
    case String(delimiter) => StringKeeps(t, y, delimiter, pos, pos);
    case _ =>
  }

  /** One-shot parsers keep even a success that uses up the input, and wait at its end. */
  lemma OneShotKeeps(t: Text, y: seq<Byte>, p: Parser, pos: nat)
    requires Whole(t) && IsOneShot(p)
    ensures var r := RunLeaf(t, p, pos); !r.kind.NeedMore? ==> pos < |t.input| && RunLeaf(Grow(t, y), p, pos) == r
  {
    match p
    case Literal(lit) => LiteralKeeps(t, y, lit, pos, pos, 0);
    case AnyChar => DecodeGrows(t.input, y, pos);
    case Chars(_, _, _, _) => CharsOneShot(t, y, p, pos, pos, 0);
  }

  // ---- parsers with children ----

  /**
    For every stream grammar, input x that does not end inside a code point, continuation y, parser, position,
    stack depth and arena: if the lenient run on x fails, or succeeds before the end of x, then the run on
    x + y returns the same result and leaves the same syntax tree.
   */
  lemma {:induction false} RunKeeps(e: Env, y: seq<Byte>, depth: nat, id: ParserId, pos: nat, ast: Ast)
    requires Streaming(e)
    ensures Keeps(e.text, pos, Run(e, depth, id, pos, ast), Run(GrowRun(e, y), depth, id, pos, ast))
    decreases depth, 0, 0
  {
    if depth > 0 && id < |e.g.parsers| {
      var p := e.g.parsers[id];
      assert IsStreamable(e.g, p);
      if IsLeaf(p) {
        LeafKeeps(e.text, y, p, pos);
      } else if p.And? || p.Not? {
        LookaheadKeeps(e, y, depth - 1, p, pos, ast);
      } else if IsWrapper(p) {
        RunKeeps(e, y, depth - 1, p.child, pos, ast);
        WrapKeeps(e.text, y, p, Run(e, depth - 1, p.child, pos, ast), pos);
      } else {
        match p
        case Sequence(cs) => SequenceKeeps(e, y, depth - 1, cs, pos, pos, [], ast);
        case Choice(cs) => ChoiceKeeps(e, y, depth - 1, cs, pos, ast);
        case Repetition(_, _, _) => RepetitionKeeps(e, y, depth - 1, p, 0, pos, pos, [], ast);
        case Ref(name) =>
          if name in e.g.rules {
            RunKeeps(e, y, depth - 1, e.g.rules[name], pos, ast);
          }
      }
    }
  }

  lemma LookaheadKeeps(e: Env, y: seq<Byte>, depth: nat, p: Parser, pos: nat, ast: Ast)
    requires Streaming(e) && (p.And? || p.Not?) && IsStreamable(e.g, p)
    ensures Keeps(e.text, pos, Wrap(e.text, p, Run(e, depth, p.child, pos, ast), pos),
                  Wrap(Grow(e.text, y), p, Run(GrowRun(e, y), depth, p.child, pos, ast), pos))
  {
    if depth > 0 && p.child < |e.g.parsers| {
      OneShotKeeps(e.text, y, e.g.parsers[p.child], pos);
    }
  }

  lemma WrapKeeps(t: Text, y: seq<Byte>, p: Parser, o: Outcome, pos: nat)
    requires IsWrapper(p) && !p.And? && !p.Not? && Sound(t, pos, o)
    requires o.Done? && Settled(o.res, |t.input|) ==> pos < |t.input|
    ensures Sound(Grow(t, y), pos, o) && Keeps(t, pos, Wrap(t, p, o, pos), Wrap(Grow(t, y), p, o, pos))
  {
    if o.Done? && Settled(o.res, |t.input|) && o.res.kind.Success? {
      assert Grow(t, y).input[o.res.start..o.res.end] == t.input[o.res.start..o.res.end];
    }
  }

  lemma {:induction false} SequenceKeeps(e: Env, y: seq<Byte>, depth: nat, cs: seq<ParserId>, start: nat, pos: nat,
                                         nodes: seq<AstId>, ast: Ast)
    requires Streaming(e) && Reached(e.text, start, pos)
    ensures Reached(Grow(e.text, y), start, pos)
    ensures Keeps(e.text, pos, RunSequence(e, depth, cs, start, pos, nodes, ast),
            RunSequence(GrowRun(e, y), depth, cs, start, pos, nodes, ast))
    decreases depth, 1, |cs|
  {
    if cs != [] {
      RunKeeps(e, y, depth, cs[0], pos, ast);
      var o := Run(e, depth, cs[0], pos, ast);
      if o.Done? && o.res.kind.Success? {
        SequenceKeeps(e, y, depth, cs[1..], start, o.res.end, nodes + o.res.nodes, o.ast);
      }
    }
  }

  lemma {:induction false} ChoiceKeeps(e: Env, y: seq<Byte>, depth: nat, cs: seq<ParserId>, pos: nat, ast: Ast)
    requires Streaming(e) && (cs != [] || pos < |e.text.input|)
    ensures Keeps(e.text, pos, RunChoice(e, depth, cs, pos, ast), RunChoice(GrowRun(e, y), depth, cs, pos, ast))
    decreases depth, 1, |cs|
  {
    if cs != [] {
      RunKeeps(e, y, depth, cs[0], pos, ast);
      var o := Run(e, depth, cs[0], pos, ast);
      if o.Done? && o.res.kind.Fail? {
        ChoiceKeeps(e, y, depth, cs[1..], pos, o.ast);
      }
    }
  }

  lemma {:induction false} RepetitionKeeps(e: Env, y: seq<Byte>, depth: nat, p: Parser, count: nat, start: nat,
                                           pos: nat, nodes: seq<AstId>, ast: Ast)
    requires Streaming(e) && p.Repetition? && Reached(e.text, start, pos)
    ensures Reached(Grow(e.text, y), start, pos)
    ensures Keeps(e.text, pos, RunRepetition(e, depth, p, count, start, pos, nodes, ast),
                  RunRepetition(GrowRun(e, y), depth, p, count, start, pos, nodes, ast))
    decreases depth, 1, |e.text.input| - pos
  {
    if Bounded(count, p.maxCount) && pos < |e.text.input| {
      RunKeeps(e, y, depth, p.child, pos, ast);
      var o := Run(e, depth, p.child, pos, ast);
      if o.Done? && o.res.kind.Success? && o.res.end != pos {
        RepetitionKeeps(e, y, depth, p, count + 1, start, o.res.end, nodes + o.res.nodes, o.ast);
      }
    }
  }

  // ---- the exact condition ----

  /** What a caller may rely on after parsing x: settled outcomes survive every continuation. */
  ghost predicate StreamsSafely(x: seq<Byte>) {
    forall g: Arena, y: seq<Byte>, depth: nat, id: ParserId, pos: nat, ast: Ast
      {:trigger Run(Env(g, Text(x + y, true)), depth, id, pos, ast)}
      :: IsStreamGrammar(g) ==>
        Keeps(Text(x, true), pos, Run(Env(g, Text(x, true)), depth, id, pos, ast),
            Run(Env(g, Text(x + y, true)), depth, id, pos, ast))
  }

  /** Settled outcomes survive for every stream grammar exactly when the input does not end inside a code point. */
  lemma StreamsSafelyIff(x: seq<Byte>)
    ensures StreamsSafely(x) <==> !EndsInsideCodePoint(x)
  {
    if EndsInsideCodePoint(x) {
      var pos :| 0 <= pos < |x| && Truncated(x, pos);
      UnsafeInside(x, pos);
    } else {
      forall g: Arena, y: seq<Byte>, depth: nat, id: ParserId, pos: nat, ast: Ast | IsStreamGrammar(g)
        ensures Keeps(Text(x, true), pos, Run(Env(g, Text(x, true)), depth, id, pos, ast),
                Run(Env(g, Text(x + y, true)), depth, id, pos, ast))
      {
        RunKeeps(Env(g, Text(x, true)), y, depth, id, pos, ast);
      }
    }
  }

  /** At a truncated code point, "any characters" stops; with the missing bytes it goes on. */
  lemma UnsafeInside(x: seq<Byte>, pos: nat)
    requires pos < |x| && Truncated(x, pos)
    ensures !StreamsSafely(x)
  {
    var y: seq<Byte> := [0x80, 0x80, 0x80];
    var g := Arena([Chars([], true, 0, -1)], map[], None);
    var e, e' := Env(g, Text(x, true)), Env(g, Text(x + y, true));
    assert IsStreamGrammar(g);
    var p, s := g.parsers[0], x + y;
    assert Run(e, 1, 0, pos, []) == Done(Span(Success, pos, pos), []);
    assert s[pos] == x[pos];
    assert forall k :: pos < k < |s| ==> IsCont(s[k]);
    var d := Decode(s, pos);
    assert d.Char?;
    assert CharsFrom(e'.text, p, pos, pos, 0) == CharsFrom(e'.text, p, pos, pos + d.bytes, 1);
    CharsGoOn(e'.text, p, pos, pos + d.bytes, 1);
    assert Run(e', 1, 0, pos, []) == Done(CharsFrom(e'.text, p, pos, pos, 0), []);
    assert !Keeps(e.text, pos, Run(e, 1, 0, pos, []), Run(e', 1, 0, pos, []));
  }
}

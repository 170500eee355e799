/** What the lenient flag can change: a lenient run that does not ask for more input is a strict run. */
module PegModes {
  import opened Utf8
  import opened Peg

  /** The lenient outcome is the strict one unless it says NEED_MORE_INPUT, which the strict one never does. */
  ghost predicate Agree(lenient: Outcome, strict: Outcome) {
    && (strict.Done? ==> !strict.res.kind.NeedMore?)
    && ((lenient.Done? && lenient.res.kind.NeedMore?) || lenient == strict)
  }

  ghost predicate AgreeLeaf(lenient: Result, strict: Result) {
    !strict.kind.NeedMore? && (lenient.kind.NeedMore? || lenient == strict)
  }

  function Strict(t: Text): Text { t.(lenient := false) }

  function StrictRun(e: Env): Env { e.(text := Strict(e.text)) }

  // ---- parsers without children ----

  lemma {:induction false} LiteralModes(t: Text, lit: seq<Byte>, start: nat, pos: nat, i: nat)
    requires t.lenient && Reached(t, start, pos) && i <= |lit|
    ensures AgreeLeaf(LiteralFrom(t, lit, start, pos, i), LiteralFrom(Strict(t), lit, start, pos, i))
    decreases |lit| - i
  {
    if i < |lit| && pos < |t.input| && t.input[pos] == lit[i] {
      LiteralModes(t, lit, start, pos + 1, i + 1);
    }
  }

  lemma {:induction false} SpaceModes(t: Text, start: nat, pos: nat)
    requires Reached(t, start, pos)
    ensures AgreeLeaf(SpaceFrom(t, start, pos), SpaceFrom(Strict(t), start, pos))
    decreases |t.input| - pos
  {
    if pos < |t.input| && IsSpace(t.input[pos]) {
      SpaceModes(t, start, pos + 1);
    }
  }

  lemma {:induction false} CharsModes(t: Text, p: Parser, start: nat, pos: nat, count: nat)
    requires t.lenient && p.Chars? && Reached(t, start, pos)
    ensures AgreeLeaf(CharsFrom(t, p, start, pos, count), CharsFrom(Strict(t), p, start, pos, count))
    decreases |t.input| - pos
  {
    var d := Decode(t.input, pos);
    if Bounded(count, p.maxCount) && d.Char? && InClass(p.ranges, p.negated, d.cp) {
      CharsModes(t, p, start, pos + d.bytes, count + 1);
    }
  }

  lemma {:induction false} HexModes(t: Text, start: nat, pos: nat, left: nat)
    requires t.lenient && Reached(t, start, pos)
    ensures AgreeLeaf(HexFrom(t, start, pos, left), HexFrom(Strict(t), start, pos, left))
    decreases left
  {
    if left > 0 && pos < |t.input| && IsHexDigit(t.input[pos]) {
      HexModes(t, start, pos + 1, left - 1);
    }
  }

  lemma EscapeModes(t: Text, delimiter: Byte, start: nat, pos: nat)
    requires t.lenient && Reached(t, start, pos) && pos < |t.input|
    ensures AgreeLeaf(EscapeAt(t, delimiter, start, pos), EscapeAt(Strict(t), delimiter, start, pos))
  {
    if pos + 2 <= |t.input| {
      HexModes(t, start, pos + 2, 4);
    }
  }

  lemma {:induction false} StringModes(t: Text, delimiter: Byte, start: nat, pos: nat)
    requires t.lenient && Reached(t, start, pos)
    ensures AgreeLeaf(StringFrom(t, delimiter, start, pos), StringFrom(Strict(t), delimiter, start, pos))
    decreases |t.input| - pos
  {
    if pos < |t.input| && t.input[pos] != delimiter {
      if t.input[pos] == BACKSLASH {
        EscapeModes(t, delimiter, start, pos);
        var r := EscapeAt(Strict(t), delimiter, start, pos);
        if r.kind.Success? {
          StringModes(t, delimiter, start, r.end);
        }
      } else {
        var d := Decode(t.input, pos);
        if d.Char? {
          StringModes(t, delimiter, start, pos + d.bytes);
        }
      }
    }
  }

  lemma {:induction false} UntilModes(t: Text, ws: seq<Word>, start: nat, pos: nat)
    requires t.lenient && Reached(t, start, pos)
    ensures AgreeLeaf(UntilFrom(t, ws, start, pos), UntilFrom(Strict(t), ws, start, pos))
    decreases |t.input| - pos
  {
    var d := Decode(t.input, pos);
    if d.Char? {
      UntilModes(t, ws, start, pos + d.bytes);
    }
  }

  lemma LeafModes(t: Text, p: Parser, pos: nat)
    requires t.lenient && IsLeaf(p)
    ensures AgreeLeaf(RunLeaf(t, p, pos), RunLeaf(Strict(t), p, pos))
  {
    match p
    case Literal(lit) => LiteralModes(t, lit, pos, pos, 0);
    case Space => SpaceModes(t, pos, pos);
    case Chars(_, _, _, _) => CharsModes(t, p, pos, pos, 0);
    case String(delimiter) => StringModes(t, delimiter, pos, pos);
    case Until(ds) => UntilModes(t, Words(ds), pos, pos);
    case _ =>
  }

  // ---- parsers with children ----

  /**
    For every grammar, input, position and stack depth: the lenient run either returns NEED_MORE_INPUT or
    is, result and syntax tree and exceptions included, the strict run. So no parser takes a different turn
    in lenient mode without saying NEED_MORE_INPUT, and no parser around it loses that answer. A strict run
    never says NEED_MORE_INPUT.
   */
  lemma {:induction false} LenientRefinesStrict(e: Env, depth: nat, id: ParserId, pos: nat, ast: Ast)
    requires e.text.lenient
    ensures Agree(Run(e, depth, id, pos, ast), Run(StrictRun(e), depth, id, pos, ast))
    decreases depth, 0, 0
  {
    if depth > 0 && id < |e.g.parsers| {
      var p := e.g.parsers[id];
      if IsLeaf(p) {
        LeafModes(e.text, p, pos);
      } else if IsWrapper(p) {
        LenientRefinesStrict(e, depth - 1, p.child, pos, ast);
      } else {
        match p
        case Sequence(cs) => SequenceModes(e, depth - 1, cs, pos, pos, [], ast);
        case Choice(cs) => ChoiceModes(e, depth - 1, cs, pos, ast);
        case Repetition(_, _, _) => RepetitionModes(e, depth - 1, p, 0, pos, pos, [], ast);
        case Ref(name) =>
          if name in e.g.rules {
            LenientRefinesStrict(e, depth - 1, e.g.rules[name], pos, ast);
          }
      }
    }
  }

  lemma {:induction false} SequenceModes(e: Env, depth: nat, cs: seq<ParserId>, start: nat, pos: nat, nodes: seq<AstId>,
                                         ast: Ast)
    requires e.text.lenient && Reached(e.text, start, pos)
    ensures Agree(RunSequence(e, depth, cs, start, pos, nodes, ast),
            RunSequence(StrictRun(e), depth, cs, start, pos, nodes, ast))
    decreases depth, 1, |cs|
  {
    if cs != [] {
      LenientRefinesStrict(e, depth, cs[0], pos, ast);
      var o := Run(StrictRun(e), depth, cs[0], pos, ast);
      if o.Done? && o.res.kind.Success? {
        SequenceModes(e, depth, cs[1..], start, o.res.end, nodes + o.res.nodes, o.ast);
      }
    }
  }

  lemma {:induction false} ChoiceModes(e: Env, depth: nat, cs: seq<ParserId>, pos: nat, ast: Ast)
    requires e.text.lenient
    ensures Agree(RunChoice(e, depth, cs, pos, ast), RunChoice(StrictRun(e), depth, cs, pos, ast))
    decreases depth, 1, |cs|
  {
    if cs != [] {
      LenientRefinesStrict(e, depth, cs[0], pos, ast);
      var o := Run(StrictRun(e), depth, cs[0], pos, ast);
      if o.Done? && o.res.kind.Fail? {
        ChoiceModes(e, depth, cs[1..], pos, o.ast);
      }
    }
  }

  lemma {:induction false} RepetitionModes(e: Env, depth: nat, p: Parser, count: nat, start: nat, pos: nat,
                                           nodes: seq<AstId>, ast: Ast)
    requires e.text.lenient && p.Repetition? && Reached(e.text, start, pos)
    ensures Agree(RunRepetition(e, depth, p, count, start, pos, nodes, ast),
            RunRepetition(StrictRun(e), depth, p, count, start, pos, nodes, ast))
    decreases depth, 1, |e.text.input| - pos
  {
    if Bounded(count, p.maxCount) && pos < |e.text.input| {
      LenientRefinesStrict(e, depth, p.child, pos, ast);
      var o := Run(StrictRun(e), depth, p.child, pos, ast);
      if o.Done? && o.res.kind.Success? && o.res.end != pos {
        RepetitionModes(e, depth, p, count + 1, start, o.res.end, nodes + o.res.nodes, o.ast);
      }
    }
  }
}

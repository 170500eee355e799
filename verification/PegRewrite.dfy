/** The rewrites of the parser builder, flattening and reference resolution, preserve meaning. */
module PegRewrite {
  import opened Wrappers
  import opened Utf8
  import opened Peg

  predicate Overflows(o: Outcome) { o == Abort(StackOverflow) }

  /** Some stack is large enough for the call to return o: a result, or an exception of the source. */
  ghost predicate Returns(e: Env, id: ParserId, pos: nat, ast: Ast, o: Outcome) {
    !Overflows(o) && exists depth :: Run(e, depth, id, pos, ast) == o
  }

  // ---- a larger stack changes nothing but overflows ----

  lemma {:induction false} DeeperRun(e: Env, depth: nat, depth': nat, id: ParserId, pos: nat, ast: Ast)
    requires depth <= depth'
    ensures var o := Run(e, depth, id, pos, ast); !Overflows(o) ==> Run(e, depth', id, pos, ast) == o
    decreases depth, 0, 0
  {
    if depth > 0 && id < |e.g.parsers| {
      var p := e.g.parsers[id];
      if IsLeaf(p) {
      } else if IsWrapper(p) {
        DeeperRun(e, depth - 1, depth' - 1, p.child, pos, ast);
      } else {
        match p
        case Sequence(cs) => DeeperSequence(e, depth - 1, depth' - 1, cs, pos, pos, [], ast);
        case Choice(cs) => DeeperChoice(e, depth - 1, depth' - 1, cs, pos, ast);
        case Repetition(_, _, _) => DeeperRepetition(e, depth - 1, depth' - 1, p, 0, pos, pos, [], ast);
        case Ref(name) =>
          if name in e.g.rules {
            DeeperRun(e, depth - 1, depth' - 1, e.g.rules[name], pos, ast);
          }
      }
    }
  }

  lemma {:induction false} DeeperSequence(e: Env, depth: nat, depth': nat, cs: seq<ParserId>, start: nat, pos: nat,
                                          nodes: seq<AstId>, ast: Ast)
    requires depth <= depth' && Reached(e.text, start, pos)
    ensures var o := RunSequence(e, depth, cs, start, pos, nodes, ast);
            !Overflows(o) ==> RunSequence(e, depth', cs, start, pos, nodes, ast) == o
    decreases depth, 1, |cs|
  {
    if cs != [] {
      DeeperRun(e, depth, depth', cs[0], pos, ast);
      var o := Run(e, depth, cs[0], pos, ast);
      if o.Done? && o.res.kind.Success? {
        DeeperSequence(e, depth, depth', cs[1..], start, o.res.end, nodes + o.res.nodes, o.ast);
      }
    }
  }

  lemma {:induction false} DeeperChoice(e: Env, depth: nat, depth': nat, cs: seq<ParserId>, pos: nat, ast: Ast)
    requires depth <= depth'
    ensures var o := RunChoice(e, depth, cs, pos, ast); !Overflows(o) ==> RunChoice(e, depth', cs, pos, ast) == o
    decreases depth, 1, |cs|
  {
    if cs != [] {
      DeeperRun(e, depth, depth', cs[0], pos, ast);
      var o := Run(e, depth, cs[0], pos, ast);
      if o.Done? && o.res.kind.Fail? {
        DeeperChoice(e, depth, depth', cs[1..], pos, o.ast);
      }
    }
  }

  lemma {:induction false} DeeperRepetition(e: Env, depth: nat, depth': nat, p: Parser, count: nat, start: nat,
                                            pos: nat, nodes: seq<AstId>, ast: Ast)
    requires depth <= depth' && p.Repetition? && Reached(e.text, start, pos)
    ensures var o := RunRepetition(e, depth, p, count, start, pos, nodes, ast);
            !Overflows(o) ==> RunRepetition(e, depth', p, count, start, pos, nodes, ast) == o
    decreases depth, 1, |e.text.input| - pos
  {
    if Bounded(count, p.maxCount) && pos < |e.text.input| {
      DeeperRun(e, depth, depth', p.child, pos, ast);
      var o := Run(e, depth, p.child, pos, ast);
      if o.Done? && o.res.kind.Success? && o.res.end != pos {
        DeeperRepetition(e, depth, depth', p, count + 1, start, o.res.end, nodes + o.res.nodes, o.ast);
      }
    }
  }

  /** A call returns at most one outcome, whatever the stack. */
  lemma ReturnsOnce(e: Env, id: ParserId, pos: nat, ast: Ast, o: Outcome, o': Outcome)
    requires Returns(e, id, pos, ast, o) && Returns(e, id, pos, ast, o')
    ensures o == o'
  {
    var d: nat, d': nat :| Run(e, d, id, pos, ast) == o && Run(e, d', id, pos, ast) == o';
    DeeperRun(e, d, d + d', id, pos, ast);
    DeeperRun(e, d', d + d', id, pos, ast);
  }

  // ---- resolve_refs ----

  /** `resolve_ref`: one step; None where the source throws. */
  function ResolveId(g: Arena, id: ParserId): Option<ParserId> {
    if id >= |g.parsers| then None
    else if g.parsers[id].Ref? then
      if g.parsers[id].name in g.rules then Some(g.rules[g.parsers[id].name]) else None
    else Some(id)
  }

  function ResolveIds(g: Arena, ids: seq<ParserId>): (r: Option<seq<ParserId>>)
    ensures r.Some? ==> |r.value| == |ids| && forall i :: 0 <= i < |ids| ==> ResolveId(g, ids[i]) == Some(r.value[i])
  {
    if ids == [] then Some([])
    else
      var first, rest := ResolveId(g, ids[0]), ResolveIds(g, ids[1..]);
      if first.Some? && rest.Some? then Some([first.value] + rest.value) else None
  }

  function ResolveParser(g: Arena, p: Parser): Option<Parser> {
    match p
    case Sequence(cs) => var r := ResolveIds(g, cs); if r.Some? then Some(Sequence(r.value)) else None
    case Choice(cs) => var r := ResolveIds(g, cs); if r.Some? then Some(Choice(r.value)) else None
    case Repetition(c, _, _) => var r := ResolveId(g, c);
        if r.Some? then Some(Repetition(r.value, p.minCount, p.maxCount)) else None
    case And(c) => var r := ResolveId(g, c); if r.Some? then Some(And(r.value)) else None
    case Not(c) => var r := ResolveId(g, c); if r.Some? then Some(Not(r.value)) else None
    case Schema(c) => var r := ResolveId(g, c); if r.Some? then Some(Schema(r.value)) else None
    case Rule(name, c) => var r := ResolveId(g, c); if r.Some? then Some(Rule(name, r.value)) else None
    case Atomic(c) => var r := ResolveId(g, c); if r.Some? then Some(Atomic(r.value)) else None
    case Tag(tag, c) => var r := ResolveId(g, c); if r.Some? then Some(Tag(tag, r.value)) else None
    case Gbnf(c) => var r := ResolveId(g, c); if r.Some? then Some(Gbnf(r.value)) else None
    case _ => Some(p)
  }

  /** g' is g after `resolve_refs` has run to its end. */
  ghost predicate Resolved(g: Arena, g': Arena) {
    && |g'.parsers| == |g.parsers| && g'.rules == g.rules
    && (forall i :: 0 <= i < |g.parsers| ==> ResolveParser(g, g.parsers[i]) == Some(g'.parsers[i]))
    && (if g.root.Some? then ResolveId(g, g.root.value).Some?
       && g'.root == ResolveId(g, g.root.value) else g'.root == None)
  }

  function With(e: Env, g': Arena): Env { e.(g := g') }

  /** Each call that returns in the original arena returns the same in the resolved one, on the same stack. */
  lemma {:induction false} ResolvedFollows(e: Env, g': Arena, depth: nat, id: ParserId, pos: nat, ast: Ast)
    requires Resolved(e.g, g')
    ensures var o := Run(e, depth, id, pos, ast); !Overflows(o) ==> Run(With(e, g'), depth, id, pos, ast) == o
    decreases depth, 0, 0
  {
    if depth > 0 && id < |e.g.parsers| {
      var p := e.g.parsers[id];
      if IsWrapper(p) {
        WrapperAtFollows(e, g', depth, id, pos, ast);
      } else if p.Ref? {
        RefFollows(e, g', depth, id, pos, ast);
      } else if p.Sequence? {
        SequenceAtFollows(e, g', depth, id, pos, ast);
      } else if p.Choice? {
        ChoiceAtFollows(e, g', depth, id, pos, ast);
      } else if p.Repetition? {
        RepetitionAtFollows(e, g', depth, id, pos, ast);
      } else {
        assert ResolveParser(e.g, p) == Some(g'.parsers[id]);
      }
    }
  }

  lemma {:induction false} RefFollows(e: Env, g': Arena, depth: nat, id: ParserId, pos: nat, ast: Ast)
    requires Resolved(e.g, g') && depth > 0 && id < |e.g.parsers| && e.g.parsers[id].Ref?
    ensures var o := Run(e, depth, id, pos, ast); !Overflows(o) ==> Run(With(e, g'), depth, id, pos, ast) == o
    decreases depth - 1, 1, 0
  {
    var p := e.g.parsers[id];
    assert ResolveParser(e.g, p) == Some(g'.parsers[id]);
    if p.name in e.g.rules {
      ResolvedFollows(e, g', depth - 1, e.g.rules[p.name], pos, ast);
    }
  }

  lemma {:induction false} WrapperAtFollows(e: Env, g': Arena, depth: nat, id: ParserId, pos: nat, ast: Ast)
    requires Resolved(e.g, g') && depth > 0 && id < |e.g.parsers| && IsWrapper(e.g.parsers[id])
    ensures var o := Run(e, depth, id, pos, ast); !Overflows(o) ==> Run(With(e, g'), depth, id, pos, ast) == o
    decreases depth - 1, 3, 0
  {
    var p, p' := e.g.parsers[id], g'.parsers[id];
    assert ResolveParser(e.g, p) == Some(p');
    ChildFollows(e, g', depth - 1, p.child, p'.child, pos, ast);
  }

  lemma {:induction false} SequenceAtFollows(e: Env, g': Arena, depth: nat, id: ParserId, pos: nat, ast: Ast)
    requires Resolved(e.g, g') && depth > 0 && id < |e.g.parsers| && e.g.parsers[id].Sequence?
    ensures var o := Run(e, depth, id, pos, ast); !Overflows(o) ==> Run(With(e, g'), depth, id, pos, ast) == o
    decreases depth - 1, 3, 0
  {
    var p, p' := e.g.parsers[id], g'.parsers[id];
    assert ResolveParser(e.g, p) == Some(p');
    SequenceFollows(e, g', depth - 1, p.children, p'.children, pos, pos, [], ast);
  }

  lemma {:induction false} ChoiceAtFollows(e: Env, g': Arena, depth: nat, id: ParserId, pos: nat, ast: Ast)
    requires Resolved(e.g, g') && depth > 0 && id < |e.g.parsers| && e.g.parsers[id].Choice?
    ensures var o := Run(e, depth, id, pos, ast); !Overflows(o) ==> Run(With(e, g'), depth, id, pos, ast) == o
    decreases depth - 1, 3, 0
  {
    var p, p' := e.g.parsers[id], g'.parsers[id];
    assert ResolveParser(e.g, p) == Some(p');
    ChoiceFollows(e, g', depth - 1, p.children, p'.children, pos, ast);
  }

  lemma {:induction false} RepetitionAtFollows(e: Env, g': Arena, depth: nat, id: ParserId, pos: nat, ast: Ast)
    requires Resolved(e.g, g') && depth > 0 && id < |e.g.parsers| && e.g.parsers[id].Repetition?
    ensures var o := Run(e, depth, id, pos, ast); !Overflows(o) ==> Run(With(e, g'), depth, id, pos, ast) == o
    decreases depth - 1, 3, 0
  {
    var p, p' := e.g.parsers[id], g'.parsers[id];
    assert ResolveParser(e.g, p) == Some(p');
    RepetitionFollows(e, g', depth - 1, p, p', 0, pos, pos, [], ast);
  }

  lemma {:induction false} ChildFollows(e: Env, g': Arena, depth: nat, c: ParserId, c': ParserId, pos: nat, ast: Ast)
    requires Resolved(e.g, g') && ResolveId(e.g, c) == Some(c')
    ensures var o := Run(e, depth, c, pos, ast); !Overflows(o) ==> Run(With(e, g'), depth, c', pos, ast) == o
    decreases depth, 1, 0
  {
    if !e.g.parsers[c].Ref? {
      ResolvedFollows(e, g', depth, c, pos, ast);
    } else if depth > 0 {
      ResolvedFollows(e, g', depth - 1, c', pos, ast);
      DeeperRun(With(e, g'), depth - 1, depth, c', pos, ast);
    }
  }

  lemma {:induction false} SequenceFollows(e: Env, g': Arena, depth: nat, cs: seq<ParserId>, cs': seq<ParserId>,
                                           start: nat, pos: nat, nodes: seq<AstId>, ast: Ast)
    requires Resolved(e.g, g') && Reached(e.text, start, pos)
    requires |cs'| == |cs| && forall i :: 0 <= i < |cs| ==> ResolveId(e.g, cs[i]) == Some(cs'[i])
    ensures var o := RunSequence(e, depth, cs, start, pos, nodes, ast);
            !Overflows(o) ==> RunSequence(With(e, g'), depth, cs', start, pos, nodes, ast) == o
    decreases depth, 2, |cs|
  {
    if cs != [] {
      ChildFollows(e, g', depth, cs[0], cs'[0], pos, ast);
      var o := Run(e, depth, cs[0], pos, ast);
      if o.Done? && o.res.kind.Success? {
        SequenceFollows(e, g', depth, cs[1..], cs'[1..], start, o.res.end, nodes + o.res.nodes, o.ast);
      }
    }
  }

  lemma {:induction false} ChoiceFollows(e: Env, g': Arena, depth: nat, cs: seq<ParserId>, cs': seq<ParserId>, pos: nat,
                                         ast: Ast)
    requires Resolved(e.g, g')
    requires |cs'| == |cs| && forall i :: 0 <= i < |cs| ==> ResolveId(e.g, cs[i]) == Some(cs'[i])
    ensures var o := RunChoice(e, depth, cs, pos, ast);
            !Overflows(o) ==> RunChoice(With(e, g'), depth, cs', pos, ast) == o
    decreases depth, 2, |cs|
  {
    if cs != [] {
      ChildFollows(e, g', depth, cs[0], cs'[0], pos, ast);
      var o := Run(e, depth, cs[0], pos, ast);
      if o.Done? && o.res.kind.Fail? {
        ChoiceFollows(e, g', depth, cs[1..], cs'[1..], pos, o.ast);
      }
    }
  }

  lemma {:induction false} RepetitionFollows(e: Env, g': Arena, depth: nat, p: Parser, p': Parser, count: nat,
                                             start: nat, pos: nat, nodes: seq<AstId>, ast: Ast)
    requires Resolved(e.g, g') && Reached(e.text, start, pos)
    requires p.Repetition? && ResolveId(e.g, p.child).Some?
             && p' == Repetition(ResolveId(e.g, p.child).value, p.minCount, p.maxCount)
    ensures var o := RunRepetition(e, depth, p, count, start, pos, nodes, ast);
            !Overflows(o) ==> RunRepetition(With(e, g'), depth, p', count, start, pos, nodes, ast) == o
    decreases depth, 2, |e.text.input| - pos
  {
    if Bounded(count, p.maxCount) && pos < |e.text.input| {
      ChildFollows(e, g', depth, p.child, p'.child, pos, ast);
      var o := Run(e, depth, p.child, pos, ast);
      if o.Done? && o.res.kind.Success? && o.res.end != pos {
        RepetitionFollows(e, g', depth, p, p', count + 1, start, o.res.end, nodes + o.res.nodes, o.ast);
      }
    }
  }

  /** Each call that returns in the resolved arena returns the same in the original one, on twice the stack. */
  lemma {:induction false} ResolvedLeads(e: Env, g': Arena, depth: nat, id: ParserId, pos: nat, ast: Ast)
    requires Resolved(e.g, g')
    ensures var o := Run(With(e, g'), depth, id, pos, ast); !Overflows(o) ==> Run(e, 2 * depth, id, pos, ast) == o
    decreases depth, 0, 0
  {
    if depth > 0 && id < |e.g.parsers| {
      var p := e.g.parsers[id];
      if IsWrapper(p) {
        WrapperAtLeads(e, g', depth, id, pos, ast);
      } else if p.Ref? {
        RefLeads(e, g', depth, id, pos, ast);
      } else if p.Sequence? {
        SequenceAtLeads(e, g', depth, id, pos, ast);
      } else if p.Choice? {
        ChoiceAtLeads(e, g', depth, id, pos, ast);
      } else if p.Repetition? {
        RepetitionAtLeads(e, g', depth, id, pos, ast);
      } else {
        assert ResolveParser(e.g, p) == Some(g'.parsers[id]);
      }
    }
  }

  lemma {:induction false} WrapperAtLeads(e: Env, g': Arena, depth: nat, id: ParserId, pos: nat, ast: Ast)
    requires Resolved(e.g, g') && depth > 0 && id < |e.g.parsers| && IsWrapper(e.g.parsers[id])
    ensures var o := Run(With(e, g'), depth, id, pos, ast); !Overflows(o) ==> Run(e, 2 * depth, id, pos, ast) == o
    decreases depth - 1, 3, 0
  {
    var p, p' := e.g.parsers[id], g'.parsers[id];
    WrapperResolved(e.g, p, p');
    ChildLeads(e, g', depth - 1, p.child, p'.child, pos, ast);
    WrapperRun(With(e, g'), depth, id, pos, ast);
    WrapperRun(e, 2 * depth, id, pos, ast);
    SameWrap(e.g, e.text, p, p', Run(With(e, g'), depth - 1, p'.child, pos, ast), pos);
  }

  lemma WrapperRun(e: Env, depth: nat, id: ParserId, pos: nat, ast: Ast)
    requires depth > 0 && id < |e.g.parsers| && IsWrapper(e.g.parsers[id])
    ensures var p := e.g.parsers[id];
            && Run(e, depth, id, pos, ast) == Wrap(e.text, p, Run(e, depth - 1, p.child, pos, ast), pos)
            && (Overflows(Run(e, depth - 1, p.child, pos, ast)) ==> Overflows(Run(e, depth, id, pos, ast)))
  {
  }

  lemma WrapperResolved(g: Arena, p: Parser, p': Parser)
    requires IsWrapper(p) && ResolveParser(g, p) == Some(p')
    ensures IsWrapper(p') && ResolveId(g, p.child) == Some(p'.child)
  {
  }

  lemma SameWrap(g: Arena, t: Text, p: Parser, p': Parser, o: Outcome, pos: nat)
    requires IsWrapper(p) && ResolveParser(g, p) == Some(p') && Sound(t, pos, o)
    ensures IsWrapper(p') && Wrap(t, p', o, pos) == Wrap(t, p, o, pos)
  {
  }

  lemma {:induction false} SequenceAtLeads(e: Env, g': Arena, depth: nat, id: ParserId, pos: nat, ast: Ast)
    requires Resolved(e.g, g') && depth > 0 && id < |e.g.parsers| && e.g.parsers[id].Sequence?
    ensures var o := Run(With(e, g'), depth, id, pos, ast); !Overflows(o) ==> Run(e, 2 * depth, id, pos, ast) == o
    decreases depth - 1, 3, 0
  {
    var p, p' := e.g.parsers[id], g'.parsers[id];
    assert ResolveParser(e.g, p) == Some(p');
    SequenceLeads(e, g', depth - 1, p.children, p'.children, pos, pos, [], ast);
  }

  lemma {:induction false} ChoiceAtLeads(e: Env, g': Arena, depth: nat, id: ParserId, pos: nat, ast: Ast)
    requires Resolved(e.g, g') && depth > 0 && id < |e.g.parsers| && e.g.parsers[id].Choice?
    ensures var o := Run(With(e, g'), depth, id, pos, ast); !Overflows(o) ==> Run(e, 2 * depth, id, pos, ast) == o
    decreases depth - 1, 3, 0
  {
    var p, p' := e.g.parsers[id], g'.parsers[id];
    assert ResolveParser(e.g, p) == Some(p');
    ChoiceLeads(e, g', depth - 1, p.children, p'.children, pos, ast);
  }

  lemma {:induction false} RepetitionAtLeads(e: Env, g': Arena, depth: nat, id: ParserId, pos: nat, ast: Ast)
    requires Resolved(e.g, g') && depth > 0 && id < |e.g.parsers| && e.g.parsers[id].Repetition?
    ensures var o := Run(With(e, g'), depth, id, pos, ast); !Overflows(o) ==> Run(e, 2 * depth, id, pos, ast) == o
    decreases depth - 1, 3, 0
  {
    var p, p' := e.g.parsers[id], g'.parsers[id];
    assert ResolveParser(e.g, p) == Some(p');
    RepetitionLeads(e, g', depth - 1, p, p', 0, pos, pos, [], ast);
  }

  lemma RefRuns(e: Env, depth: nat, id: ParserId, pos: nat, ast: Ast)
    requires depth > 0 && id < |e.g.parsers| && e.g.parsers[id].Ref?
    ensures var name := e.g.parsers[id].name;
            Run(e, depth, id, pos, ast)
            == if name in e.g.rules then Run(e, depth - 1, e.g.rules[name], pos, ast) else Abort(NoSuchRule)
  {
  }

  lemma {:induction false} RefLeads(e: Env, g': Arena, depth: nat, id: ParserId, pos: nat, ast: Ast)
    requires Resolved(e.g, g') && depth > 0 && id < |e.g.parsers| && e.g.parsers[id].Ref?
    ensures var o := Run(With(e, g'), depth, id, pos, ast); !Overflows(o) ==> Run(e, 2 * depth, id, pos, ast) == o
    decreases depth - 1, 1, 0
  {
    var p := e.g.parsers[id];
    assert ResolveParser(e.g, p) == Some(g'.parsers[id]);
    RefRuns(e, 2 * depth, id, pos, ast);
    RefRuns(With(e, g'), depth, id, pos, ast);
    if p.name in e.g.rules {
      ResolvedLeads(e, g', depth - 1, e.g.rules[p.name], pos, ast);
      DeeperRun(e, 2 * depth - 2, 2 * depth - 1, e.g.rules[p.name], pos, ast);
    }
  }

  lemma {:induction false} ChildLeads(e: Env, g': Arena, depth: nat, c: ParserId, c': ParserId, pos: nat, ast: Ast)
    requires Resolved(e.g, g') && ResolveId(e.g, c) == Some(c')
    ensures var o := Run(With(e, g'), depth, c', pos, ast); !Overflows(o) ==> Run(e, 2 * depth + 1, c, pos, ast) == o
    decreases depth, 1, 0
  {
    ResolvedLeads(e, g', depth, c', pos, ast);
    if !e.g.parsers[c].Ref? {
      DeeperRun(e, 2 * depth, 2 * depth + 1, c, pos, ast);
    }
  }

  lemma {:induction false} SequenceLeads(e: Env, g': Arena, depth: nat, cs: seq<ParserId>, cs': seq<ParserId>,
                                         start: nat, pos: nat, nodes: seq<AstId>, ast: Ast)
    requires Resolved(e.g, g') && Reached(e.text, start, pos)
    requires |cs'| == |cs| && forall i :: 0 <= i < |cs| ==> ResolveId(e.g, cs[i]) == Some(cs'[i])
    ensures var o := RunSequence(With(e, g'), depth, cs', start, pos, nodes, ast);
            !Overflows(o) ==> RunSequence(e, 2 * depth + 1, cs, start, pos, nodes, ast) == o
    decreases depth, 2, |cs|
  {
    if cs != [] {
      ChildLeads(e, g', depth, cs[0], cs'[0], pos, ast);
      var o := Run(With(e, g'), depth, cs'[0], pos, ast);
      if o.Done? && o.res.kind.Success? {
        SequenceLeads(e, g', depth, cs[1..], cs'[1..], start, o.res.end, nodes + o.res.nodes, o.ast);
      }
    }
  }

  lemma {:induction false} ChoiceLeads(e: Env, g': Arena, depth: nat, cs: seq<ParserId>, cs': seq<ParserId>, pos: nat,
                                       ast: Ast)
    requires Resolved(e.g, g')
    requires |cs'| == |cs| && forall i :: 0 <= i < |cs| ==> ResolveId(e.g, cs[i]) == Some(cs'[i])
    ensures var o := RunChoice(With(e, g'), depth, cs', pos, ast);
            !Overflows(o) ==> RunChoice(e, 2 * depth + 1, cs, pos, ast) == o
    decreases depth, 2, |cs|
  {
    if cs != [] {
      ChildLeads(e, g', depth, cs[0], cs'[0], pos, ast);
      var o := Run(With(e, g'), depth, cs'[0], pos, ast);
      if o.Done? && o.res.kind.Fail? {
        ChoiceLeads(e, g', depth, cs[1..], cs'[1..], pos, o.ast);
      }
    }
  }

  lemma {:induction false} RepetitionLeads(e: Env, g': Arena, depth: nat, p: Parser, p': Parser, count: nat, start: nat,
                                           pos: nat, nodes: seq<AstId>, ast: Ast)
    requires Resolved(e.g, g') && Reached(e.text, start, pos)
    requires p.Repetition? && ResolveId(e.g, p.child).Some?
             && p' == Repetition(ResolveId(e.g, p.child).value, p.minCount, p.maxCount)
    ensures var o := RunRepetition(With(e, g'), depth, p', count, start, pos, nodes, ast);
            !Overflows(o) ==> RunRepetition(e, 2 * depth + 1, p, count, start, pos, nodes, ast) == o
    decreases depth, 2, |e.text.input| - pos
  {
    if Bounded(count, p.maxCount) && pos < |e.text.input| {
      ChildLeads(e, g', depth, p.child, p'.child, pos, ast);
      var o := Run(With(e, g'), depth, p'.child, pos, ast);
      if o.Done? && o.res.kind.Success? && o.res.end != pos {
        RepetitionLeads(e, g', depth, p, p', count + 1, start, o.res.end, nodes + o.res.nodes, o.ast);
      }
    }
  }

  /**
    `resolve_refs` preserves meaning: every parser returns exactly what it returned before, in every mode and place.
   */
  lemma ResolvePreserves(e: Env, g': Arena, id: ParserId, pos: nat, ast: Ast, o: Outcome)
    requires Resolved(e.g, g')
    ensures Returns(e, id, pos, ast, o) <==> Returns(With(e, g'), id, pos, ast, o)
  {
    if Returns(e, id, pos, ast, o) {
      var d: nat :| Run(e, d, id, pos, ast) == o;
      ResolvedFollows(e, g', d, id, pos, ast);
    }
    if Returns(With(e, g'), id, pos, ast, o) {
      var d: nat :| Run(With(e, g'), d, id, pos, ast) == o;
      ResolvedLeads(e, g', d, id, pos, ast);
    }
  }

  /** The new root, which may be the rule a reference named, returns what the old one did. */
  lemma ResolvePreservesRoot(e: Env, g': Arena, pos: nat, ast: Ast, o: Outcome)
    requires Resolved(e.g, g') && e.g.root.Some?
    ensures Returns(e, e.g.root.value, pos, ast, o) <==> Returns(With(e, g'), g'.root.value, pos, ast, o)
  {
    var c, c' := e.g.root.value, g'.root.value;
    if Returns(e, c, pos, ast, o) {
      var d: nat :| Run(e, d, c, pos, ast) == o;
      ChildFollows(e, g', d, c, c', pos, ast);
    }
    if Returns(With(e, g'), c', pos, ast, o) {
      var d: nat :| Run(With(e, g'), d, c', pos, ast) == o;
      ChildLeads(e, g', d, c, c', pos, ast);
    }
  }

  // ---- flattening ----

  /** The children a builder call puts in place of the given ones; None where a child does not exist. */
  function FlattenSequence(g: Arena, ids: seq<ParserId>): Option<seq<ParserId>> {
    if ids == [] then Some([])
    else if ids[0] >= |g.parsers| then None
    else
      var p, rest := g.parsers[ids[0]], FlattenSequence(g, ids[1..]);
      if rest.None? then None else Some((if p.Sequence? then p.children else [ids[0]]) + rest.value)
  }

  function FlattenChoice(g: Arena, ids: seq<ParserId>): Option<seq<ParserId>> {
    if ids == [] then Some([])
    else if ids[0] >= |g.parsers| then None
    else
      var p, rest := g.parsers[ids[0]], FlattenChoice(g, ids[1..]);
      if rest.None? then None else Some((if p.Choice? then p.children else [ids[0]]) + rest.value)
  }

  /** An outcome seen from a sequence that had started earlier and already had some nodes. */
  function Prefixed(o: Outcome, start: nat, nodes: seq<AstId>): Outcome {
    if o.Abort? then o
    else if o.res.kind.Fail? then Done(Span(Fail, start, o.res.end), o.ast)
    else Done(Result(o.res.kind, start, o.res.end, nodes + o.res.nodes), o.ast)
  }

  lemma {:induction false} SequencePrefixed(e: Env, depth: nat, cs: seq<ParserId>, start: nat, from: nat, pos: nat,
                                            nodes: seq<AstId>, inner: seq<AstId>, ast: Ast)
    requires Reached(e.text, start, from) && Reached(e.text, from, pos)
    ensures Reached(e.text, start, pos)
    ensures RunSequence(e, depth, cs, start, pos, nodes + inner, ast)
            == Prefixed(RunSequence(e, depth, cs, from, pos, inner, ast), start, nodes)
    decreases |cs|
  {
    if cs != [] {
      var o := Run(e, depth, cs[0], pos, ast);
      if o.Done? && !o.res.kind.Fail? {
        assert (nodes + inner) + o.res.nodes == nodes + (inner + o.res.nodes);
        if o.res.kind.Success? {
          SequencePrefixed(e, depth, cs[1..], start, from, o.res.end, nodes, inner + o.res.nodes, o.ast);
        }
      }
    }
  }

  lemma {:induction false} SequenceAppend(e: Env, depth: nat, a: seq<ParserId>, b: seq<ParserId>, start: nat, pos: nat,
                                          nodes: seq<AstId>, ast: Ast)
    requires Reached(e.text, start, pos)
    ensures var o := RunSequence(e, depth, a, start, pos, nodes, ast);
            RunSequence(e, depth, a + b, start, pos, nodes, ast)
            == if o.Done?
               && o.res.kind.Success? then RunSequence(e, depth, b, start, o.res.end, o.res.nodes, o.ast) else o
    decreases |a|
  {
    if a == [] {
      assert a + b == b;
    } else {
      assert (a + b)[1..] == a[1..] + b;
      var o := Run(e, depth, a[0], pos, ast);
      if o.Done? && o.res.kind.Success? {
        SequenceAppend(e, depth, a[1..], b, start, o.res.end, nodes + o.res.nodes, o.ast);
      }
    }
  }

  /** One child of a flattened sequence: a nested sequence in line, or the child itself. */
  lemma InlinedSequence(e: Env, depth: nat, id: ParserId, start: nat, pos: nat, nodes: seq<AstId>, ast: Ast)
    requires id < |e.g.parsers| && Reached(e.text, start, pos)
    ensures var p := e.g.parsers[id];
            var inline := RunSequence(e, depth, if p.Sequence? then p.children else [id], start, pos, nodes, ast);
            && (var o := Run(e, depth, id, pos, ast); !Overflows(o) ==> inline == Prefixed(o, start, nodes))
            && (!Overflows(inline) ==> Prefixed(Run(e, depth + 1, id, pos, ast), start, nodes) == inline)
  {
    var p := e.g.parsers[id];
    if p.Sequence? {
      SequencePrefixed(e, depth, p.children, start, pos, pos, nodes, [], ast);
      assert nodes + [] == nodes;
      if depth > 0 {
        DeeperSequence(e, depth - 1, depth, p.children, pos, pos, [], ast);
      }
    } else {
      DeeperRun(e, depth, depth + 1, id, pos, ast);
      var o := Run(e, depth, id, pos, ast);
      if o.Done? && o.res.kind.Success? {
        assert [id][1..] == [];
      }
    }
  }

  lemma {:induction false} FlatSequence(e: Env, depth: nat, ids: seq<ParserId>, start: nat, pos: nat, nodes: seq<AstId>,
                                        ast: Ast)
    requires FlattenSequence(e.g, ids).Some? && Reached(e.text, start, pos)
    ensures var flat := FlattenSequence(e.g, ids).value;
            var o, o' := RunSequence(e, depth, ids, start, pos, nodes, ast),
                RunSequence(e, depth, flat, start, pos, nodes, ast);
            (!Overflows(o) ==> o' == o)
                && (!Overflows(o') ==> RunSequence(e, depth + 1, ids, start, pos, nodes, ast) == o')
    decreases |ids|
  {
    if ids != [] {
      var p, rest := e.g.parsers[ids[0]], FlattenSequence(e.g, ids[1..]).value;
      InlinedSequence(e, depth, ids[0], start, pos, nodes, ast);
      SequenceAppend(e, depth, if p.Sequence? then p.children else [ids[0]], rest, start, pos, nodes, ast);
      DeeperRun(e, depth, depth + 1, ids[0], pos, ast);
      var o := Run(e, depth + 1, ids[0], pos, ast);
      if o.Done? && o.res.kind.Success? {
        FlatSequence(e, depth, ids[1..], start, o.res.end, nodes + o.res.nodes, o.ast);
      }
    }
  }

  lemma {:induction false} ChoiceAppend(e: Env, depth: nat, a: seq<ParserId>, b: seq<ParserId>, pos: nat, ast: Ast)
    ensures var o := RunChoice(e, depth, a, pos, ast);
            RunChoice(e, depth, a + b, pos, ast) == if o.Done?
                && o.res.kind.Fail? then RunChoice(e, depth, b, pos, o.ast) else o
    decreases |a|
  {
    if a == [] {
      assert a + b == b;
    } else {
      assert (a + b)[1..] == a[1..] + b;
      var o := Run(e, depth, a[0], pos, ast);
      if o.Done? && o.res.kind.Fail? {
        ChoiceAppend(e, depth, a[1..], b, pos, o.ast);
      }
    }
  }

  lemma InlinedChoice(e: Env, depth: nat, id: ParserId, pos: nat, ast: Ast)
    requires id < |e.g.parsers|
    ensures var p := e.g.parsers[id];
            var inline := RunChoice(e, depth, if p.Choice? then p.children else [id], pos, ast);
            && (var o := RunChoice(e, depth, [id], pos, ast); !Overflows(o) ==> inline == o)
            && (!Overflows(inline) ==> RunChoice(e, depth + 1, [id], pos, ast) == inline)
  {
    var p := e.g.parsers[id];
    assert [id][1..] == [];
    if p.Choice? {
      FailedChoice(e, depth, p.children, pos, ast);
      if depth > 0 {
        DeeperChoice(e, depth - 1, depth, p.children, pos, ast);
      }
    } else {
      DeeperRun(e, depth, depth + 1, id, pos, ast);
    }
  }

  lemma {:induction false} FailedChoice(e: Env, depth: nat, cs: seq<ParserId>, pos: nat, ast: Ast)
    ensures var o := RunChoice(e, depth, cs, pos, ast); o.Done? && o.res.kind.Fail? ==> o.res == At(Fail, pos)
    decreases |cs|
  {
    if cs != [] {
      var o := Run(e, depth, cs[0], pos, ast);
      if o.Done? && o.res.kind.Fail? {
        FailedChoice(e, depth, cs[1..], pos, o.ast);
      }
    }
  }

  lemma {:induction false} FlatChoice(e: Env, depth: nat, ids: seq<ParserId>, pos: nat, ast: Ast)
    requires FlattenChoice(e.g, ids).Some?
    ensures var flat := FlattenChoice(e.g, ids).value;
            var o, o' := RunChoice(e, depth, ids, pos, ast), RunChoice(e, depth, flat, pos, ast);
            (!Overflows(o) ==> o' == o) && (!Overflows(o') ==> RunChoice(e, depth + 1, ids, pos, ast) == o')
    decreases |ids|
  {
    if ids != [] {
      var p, rest := e.g.parsers[ids[0]], FlattenChoice(e.g, ids[1..]).value;
      assert ids == [ids[0]] + ids[1..];
      ChoiceAppend(e, depth, [ids[0]], ids[1..], pos, ast);
      ChoiceAppend(e, depth + 1, [ids[0]], ids[1..], pos, ast);
      InlinedChoice(e, depth, ids[0], pos, ast);
      ChoiceAppend(e, depth, if p.Choice? then p.children else [ids[0]], rest, pos, ast);
      DeeperChoice(e, depth, depth + 1, [ids[0]], pos, ast);
      var o := RunChoice(e, depth + 1, [ids[0]], pos, ast);
      if o.Done? && o.res.kind.Fail? {
        FlatChoice(e, depth, ids[1..], pos, o.ast);
      }
    }
  }

  /** What `sequence` adds to the arena returns exactly what the unflattened sequence would. */
  lemma FlattenSequencePreserves(e: Env, nested: ParserId, flat: ParserId, pos: nat, ast: Ast, o: Outcome)
    requires nested < |e.g.parsers| && e.g.parsers[nested].Sequence? && flat < |e.g.parsers|
             && e.g.parsers[flat].Sequence?
    requires FlattenSequence(e.g, e.g.parsers[nested].children) == Some(e.g.parsers[flat].children)
    ensures Returns(e, nested, pos, ast, o) <==> Returns(e, flat, pos, ast, o)
  {
    var ids := e.g.parsers[nested].children;
    if Returns(e, nested, pos, ast, o) {
      var d: nat :| Run(e, d, nested, pos, ast) == o;
      FlatSequence(e, d - 1, ids, pos, pos, [], ast);
      assert Run(e, d, flat, pos, ast) == o;
    }
    if Returns(e, flat, pos, ast, o) {
      var d: nat :| Run(e, d, flat, pos, ast) == o;
      FlatSequence(e, d - 1, ids, pos, pos, [], ast);
      assert Run(e, d + 1, nested, pos, ast) == o;
    }
  }

  /** What `choice` adds to the arena returns exactly what the unflattened choice would. */
  lemma FlattenChoicePreserves(e: Env, nested: ParserId, flat: ParserId, pos: nat, ast: Ast, o: Outcome)
    requires nested < |e.g.parsers| && e.g.parsers[nested].Choice? && flat < |e.g.parsers| && e.g.parsers[flat].Choice?
    requires FlattenChoice(e.g, e.g.parsers[nested].children) == Some(e.g.parsers[flat].children)
    ensures Returns(e, nested, pos, ast, o) <==> Returns(e, flat, pos, ast, o)
  {
    var ids := e.g.parsers[nested].children;
    if Returns(e, nested, pos, ast, o) {
      var d: nat :| Run(e, d, nested, pos, ast) == o;
      FlatChoice(e, d - 1, ids, pos, ast);
      assert Run(e, d, flat, pos, ast) == o;
    }
    if Returns(e, flat, pos, ast, o) {
      var d: nat :| Run(e, d, flat, pos, ast) == o;
      FlatChoice(e, d - 1, ids, pos, ast);
      assert Run(e, d + 1, nested, pos, ast) == o;
    }
  }
}

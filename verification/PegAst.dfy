/** The shape of every syntax tree that a parse can leave behind, in either mode and for every grammar. */
module PegAst {
  import opened Utf8
  import opened Peg

  /**
    The nodes a result may carry: known nodes, inside the span of the result, in input order without
    overlap; none partial after a success, and only the last one after NEED_MORE_INPUT.
   */
  ghost predicate Forest(ast: Ast, nodes: seq<AstId>, start: nat, end: nat, partial: bool) {
    && start <= end
    && (forall i :: 0 <= i < |nodes| ==> nodes[i] < |ast| && start <= ast[nodes[i]].start <= ast[nodes[i]].end <= end)
    && (forall i, j :: 0 <= i < j < |nodes| ==> ast[nodes[i]].end <= ast[nodes[j]].start)
    && (forall i :: 0 <= i < |nodes| && ast[nodes[i]].partial ==> partial && i == |nodes| - 1)
  }

  /** Children come before their parent, and are a forest inside it; the text is the input at the span. */
  ghost predicate NodeShaped(input: seq<Byte>, ast: Ast, id: AstId)
    requires id < |ast|
  {
    var n := ast[id];
    && (forall i :: 0 <= i < |n.children| ==> n.children[i] < id)
    && Forest(ast, n.children, n.start, n.end, n.partial)
    && (if n.start < |input| then n.end <= |input| && n.text == input[n.start..n.end] else n.text == [])
  }

  ghost predicate Shaped(input: seq<Byte>, ast: Ast) {
    forall id :: 0 <= id < |ast| ==> NodeShaped(input, ast, id)
  }

  ghost predicate Good(t: Text, ast: Ast, o: Outcome) {
    o.Done? ==>
      && ast <= o.ast && Shaped(t.input, o.ast)
      && (!o.res.kind.Fail? ==> Forest(o.ast, o.res.nodes, o.res.start, o.res.end, o.res.kind.NeedMore?))
  }

  lemma ForestGrows(ast: Ast, ast': Ast, nodes: seq<AstId>, start: nat, end: nat, end': nat, partial: bool)
    requires Forest(ast, nodes, start, end, partial) && ast <= ast' && end <= end'
    ensures Forest(ast', nodes, start, end', partial)
  {
  }

  lemma ForestJoin(ast: Ast, a: seq<AstId>, b: seq<AstId>, start: nat, mid: nat, end: nat, partial: bool)
    requires Forest(ast, a, start, mid, false) && Forest(ast, b, mid, end, partial)
    ensures Forest(ast, a + b, start, end, partial)
  {
    var c := a + b;
    forall i | 0 <= i < |c|
      ensures c[i] < |ast| && start <= ast[c[i]].start <= ast[c[i]].end <= end
      ensures ast[c[i]].partial ==> partial && i == |c| - 1
    {
      if i >= |a| { assert c[i] == b[i - |a|]; }
    }
    forall i, j | 0 <= i < j < |c|
      ensures ast[c[i]].end <= ast[c[j]].start
    {
      if i >= |a| {
        assert c[i] == b[i - |a|] && c[j] == b[j - |a|];
      } else if j >= |a| {
        assert c[i] == a[i] && c[j] == b[j - |a|];
      }
    }
  }

  lemma ShapedExtend(input: seq<Byte>, ast: Ast, n: AstNode)
    requires Shaped(input, ast) && NodeShaped(input, ast + [n], |ast|)
    ensures Shaped(input, ast + [n])
  {
    var ast' := ast + [n];
    forall id | 0 <= id < |ast'|
      ensures NodeShaped(input, ast', id)
    {
      if id < |ast| {
        assert NodeShaped(input, ast, id) && ast'[id] == ast[id];
        ForestGrows(ast, ast', ast[id].children, ast[id].start, ast[id].end, ast[id].end, ast[id].partial);
      }
    }
  }

  lemma LabelShape(t: Text, ast: Ast, o: Outcome, pos: nat, rule: string, tag: string)
    requires Good(t, ast, o) && Sound(t, pos, o)
    ensures Good(t, ast, Label(t, o, pos, rule, tag))
  {
    if o.Done? && !o.res.kind.Fail? {
      var r, o' := o.res, Label(t, o, pos, rule, tag);
      var n := o'.ast[|o.ast|];
      ForestGrows(o.ast, o'.ast, r.nodes, r.start, r.end, r.end, r.kind.NeedMore?);
      assert NodeShaped(t.input, o'.ast, |o.ast|);
      ShapedExtend(t.input, o.ast, n);
      assert Forest(o'.ast, [|o.ast|], r.start, r.end, r.kind.NeedMore?);
    }
  }

  lemma WrapShape(t: Text, p: Parser, ast: Ast, o: Outcome, pos: nat)
    requires IsWrapper(p) && Good(t, ast, o) && Sound(t, pos, o)
    ensures Good(t, ast, Wrap(t, p, o, pos))
  {
    match p
    case Rule(name, _) => LabelShape(t, ast, o, pos, name, "");
    case Tag(tag, _) => LabelShape(t, ast, o, pos, "", tag);
    case _ =>
  }

  /** For every grammar, mode, input and position, a run keeps the arena shaped and returns a forest. */
  lemma {:induction false} RunShape(e: Env, depth: nat, id: ParserId, pos: nat, ast: Ast)
    requires Shaped(e.text.input, ast)
    ensures Good(e.text, ast, Run(e, depth, id, pos, ast))
    decreases depth, 0, 0
  {
    if depth > 0 && id < |e.g.parsers| {
      var p := e.g.parsers[id];
      if IsLeaf(p) {
      } else if IsWrapper(p) {
        RunShape(e, depth - 1, p.child, pos, ast);
        WrapShape(e.text, p, ast, Run(e, depth - 1, p.child, pos, ast), pos);
      } else {
        match p
        case Sequence(cs) => SequenceShape(e, depth - 1, cs, pos, pos, [], ast);
        case Choice(cs) => ChoiceShape(e, depth - 1, cs, pos, ast);
        case Repetition(_, _, _) => RepetitionShape(e, depth - 1, p, 0, pos, pos, [], ast);
        case Ref(name) =>
          if name in e.g.rules {
            RunShape(e, depth - 1, e.g.rules[name], pos, ast);
          }
      }
    }
  }

  lemma {:induction false} SequenceShape(e: Env, depth: nat, cs: seq<ParserId>, start: nat, pos: nat, nodes: seq<AstId>,
                                         ast: Ast)
    requires Reached(e.text, start, pos) && Shaped(e.text.input, ast) && Forest(ast, nodes, start, pos, false)
    ensures Good(e.text, ast, RunSequence(e, depth, cs, start, pos, nodes, ast))
    decreases depth, 1, |cs|
  {
    if cs != [] {
      RunShape(e, depth, cs[0], pos, ast);
      var o := Run(e, depth, cs[0], pos, ast);
      if o.Done? && !o.res.kind.Fail? {
        ForestGrows(ast, o.ast, nodes, start, pos, pos, false);
        ForestJoin(o.ast, nodes, o.res.nodes, start, pos, o.res.end, o.res.kind.NeedMore?);
        if o.res.kind.Success? {
          SequenceShape(e, depth, cs[1..], start, o.res.end, nodes + o.res.nodes, o.ast);
        }
      }
    }
  }

  lemma {:induction false} ChoiceShape(e: Env, depth: nat, cs: seq<ParserId>, pos: nat, ast: Ast)
    requires Shaped(e.text.input, ast)
    ensures Good(e.text, ast, RunChoice(e, depth, cs, pos, ast))
    decreases depth, 1, |cs|
  {
    if cs != [] {
      RunShape(e, depth, cs[0], pos, ast);
      var o := Run(e, depth, cs[0], pos, ast);
      if o.Done? && o.res.kind.Fail? {
        ChoiceShape(e, depth, cs[1..], pos, o.ast);
      }
    }
  }

  lemma {:induction false} RepetitionShape(e: Env, depth: nat, p: Parser, count: nat, start: nat, pos: nat,
                                           nodes: seq<AstId>, ast: Ast)
    requires p.Repetition? && Reached(e.text, start, pos) && Shaped(e.text.input, ast)
             && Forest(ast, nodes, start, pos, false)
    ensures Good(e.text, ast, RunRepetition(e, depth, p, count, start, pos, nodes, ast))
    decreases depth, 1, |e.text.input| - pos
  {
    if Bounded(count, p.maxCount) && pos < |e.text.input| {
      RunShape(e, depth, p.child, pos, ast);
      var o := Run(e, depth, p.child, pos, ast);
      if o.Done? {
        ForestGrows(ast, o.ast, nodes, start, pos, pos, false);
        if !o.res.kind.Fail? {
          ForestJoin(o.ast, nodes, o.res.nodes, start, pos, o.res.end, o.res.kind.NeedMore?);
          if o.res.kind.Success? && o.res.end != pos {
            RepetitionShape(e, depth, p, count + 1, start, o.res.end, nodes + o.res.nodes, o.ast);
          }
        }
      }
    }
  }

  // ---- partial nodes in the whole tree below a result ----

  /** No partial node at or below this one. */
  ghost predicate Finished(ast: Ast, id: AstId)
    decreases id
  {
    id < |ast| && !ast[id].partial
    && forall i :: 0 <= i < |ast[id].children| ==> ast[id].children[i] < id && Finished(ast, ast[id].children[i])
  }

  /** Partial nodes at or below this one lie on the path of last children. */
  ghost predicate RightSpine(ast: Ast, id: AstId)
    decreases id
  {
    id < |ast|
    && forall i :: 0 <= i < |ast[id].children| ==>
        ast[id].children[i] < id
        && if i < |ast[id].children| - 1 then Finished(ast, ast[id].children[i])
           else RightSpine(ast, ast[id].children[i])
  }

  lemma {:induction false} CompleteIsFinished(input: seq<Byte>, ast: Ast, id: AstId)
    requires Shaped(input, ast) && id < |ast| && !ast[id].partial
    ensures Finished(ast, id)
    decreases id
  {
    assert NodeShaped(input, ast, id);
    forall i | 0 <= i < |ast[id].children|
      ensures Finished(ast, ast[id].children[i])
    {
      CompleteIsFinished(input, ast, ast[id].children[i]);
    }
  }

  lemma {:induction false} AnyIsRightSpine(input: seq<Byte>, ast: Ast, id: AstId)
    requires Shaped(input, ast) && id < |ast|
    ensures RightSpine(ast, id)
    decreases id
  {
    assert NodeShaped(input, ast, id);
    forall i | 0 <= i < |ast[id].children|
      ensures if i < |ast[id].children| - 1 then Finished(ast, ast[id].children[i])
              else RightSpine(ast, ast[id].children[i])
    {
      if i < |ast[id].children| - 1 {
        CompleteIsFinished(input, ast, ast[id].children[i]);
      } else {
        AnyIsRightSpine(input, ast, ast[id].children[i]);
      }
    }
  }

  /** From an empty arena: a success reaches no partial node, NEED_MORE_INPUT only along the right spine. */
  lemma PartialOnlyOnRightSpine(e: Env, depth: nat, pos: nat)
    ensures var o := Parse(e, depth, pos, []);
            o.Done? && !o.res.kind.Fail? ==>
              && Shaped(e.text.input, o.ast)
              && (o.res.kind.Success? ==> forall i :: 0 <= i < |o.res.nodes| ==> Finished(o.ast, o.res.nodes[i]))
              && (o.res.kind.NeedMore? ==> forall i :: 0 <= i < |o.res.nodes| ==>
                    if i < |o.res.nodes| - 1 then Finished(o.ast, o.res.nodes[i])
                        else RightSpine(o.ast, o.res.nodes[i]))
  {
    if e.g.root.Some? {
      RunShape(e, depth, e.g.root.value, pos, []);
      var o := Run(e, depth, e.g.root.value, pos, []);
      if o.Done? && !o.res.kind.Fail? {
        forall i | 0 <= i < |o.res.nodes|
          ensures o.res.nodes[i] < |o.ast| && RightSpine(o.ast, o.res.nodes[i])
          ensures o.res.kind.Success? || i < |o.res.nodes| - 1 ==> Finished(o.ast, o.res.nodes[i])
        {
          AnyIsRightSpine(e.text.input, o.ast, o.res.nodes[i]);
          if !o.ast[o.res.nodes[i]].partial {
            CompleteIsFinished(e.text.input, o.ast, o.res.nodes[i]);
          }
        }
      }
    }
  }
}

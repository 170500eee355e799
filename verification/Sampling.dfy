/**
  common/sampling.cpp: sampling one token, and checking a draft against the tokens that are sampled. For any grammar,
  any chain of samplers with a state of its own, and a target whose outputs depend only on the tokens before.
 */
module Sampling {
  import opened Wrappers
  import Budget = ReasoningBudget

  type Token = Budget.Token

  /** The logit of each token; none stands for minus infinity. */
  type Logits = Token -> Option<real>

  /** What the context holds for a position; sampled if a sampler of the backend has already chosen. */
  datatype Output = Output(logits: Logits, sampled: Option<Token>)

  /** The parts of a sampler that do not change: how the grammar and the chain behave, and the parameters. */
  datatype Setup<!G, !C> = Setup(
    config: Budget.Config,
    grammarLazy: bool,
    grammarFirst: bool,
    allows: (G, Token) -> bool,
    advance: (G, Token) -> G,
    pick: (C, Logits) -> (Token, C),
    chainAccept: (C, Token) -> C)

  datatype Sampler<G, C> = Sampler(budget: Option<Budget.Ctx>, grammar: Option<G>, chain: C, prev: seq<Token>)

  predicate IsValid<G, C>(u: Setup<G, C>, s: Sampler<G, C>) {
    s.budget.Some? ==> Budget.IsValid(u.config, s.budget.value)
  }

  /** `grammar_should_apply` */
  predicate GrammarApplies<G, C>(u: Setup<G, C>, s: Sampler<G, C>) {
    s.grammar.Some?
    && (s.budget.Some? && u.grammarLazy ==> s.budget.value.phase == Budget.Idle || s.budget.value.phase == Budget.Done)
  }

  function BudgetMask<G, C>(u: Setup<G, C>, s: Sampler<G, C>, l: Logits): Logits {
    if s.budget.None? then l
    else
      var only := Budget.OnlyToken(u.config, s.budget.value);
      t => if Budget.Keeps(only, t) then l(t) else None
  }

  function GrammarMask<G, C>(u: Setup<G, C>, s: Sampler<G, C>, l: Logits): Logits
    requires s.grammar.Some?
  {
    t => if u.allows(s.grammar.value, t) then l(t) else None
  }

  /** A token chosen by the backend goes with neither a grammar nor a budget. */
  predicate CanSample<G, C>(s: Sampler<G, C>, out: Output) { out.sampled.Some? ==> s.grammar.None? && s.budget.None? }

  /** `common_sampler_sample` */
  function Sample<G, C>(u: Setup<G, C>, s: Sampler<G, C>, out: Output): (Token, Sampler<G, C>)
    requires CanSample(s, out)
  {
    if out.sampled.Some? then (out.sampled.value, s)
    else
      var applies := GrammarApplies(u, s);
      var l := BudgetMask(u, s, out.logits);
      var (id, c) := u.pick(s.chain, if u.grammarFirst && applies then GrammarMask(u, s, l) else l);
      if u.grammarFirst || !applies || u.allows(s.grammar.value, id) then (id, s.(chain := c))
      else
        var (id', c') := u.pick(c, GrammarMask(u, s, l));
        (id', s.(chain := c'))
  }

  /** `common_sampler_accept`; whether the grammar takes part is decided before the budget moves on. */
  function Accept<G, C>(u: Setup<G, C>, s: Sampler<G, C>, t: Token, isGenerated: bool): (r: Sampler<G, C>)
    requires IsValid(u, s)
    ensures IsValid(u, r)
  {
    var acceptGrammar := isGenerated && GrammarApplies(u, s);
    Sampler(
      if s.budget.Some? && isGenerated then Some(Budget.Accept(u.config, s.budget.value, t)) else s.budget,
      if acceptGrammar then Some(u.advance(s.grammar.value, t)) else s.grammar,
      u.chainAccept(s.chain, t),
      s.prev + [t])
  }

  // ---- one token at a time ----

  /** What the target gives after each sequence of tokens. */
  type Target = seq<Token> -> Output

  /** The backend chooses tokens only where there is neither a grammar nor a budget. */
  ghost predicate Suits<G, C>(s: Sampler<G, C>, f: Target) {
    (exists ts :: f(ts).sampled.Some?) ==> s.grammar.None? && s.budget.None?
  }

  lemma SuitsOutput<G, C>(s: Sampler<G, C>, f: Target, ts: seq<Token>)
    requires Suits(s, f)
    ensures CanSample(s, f(ts))
  {
  }

  datatype Emitted<G, C> = Emitted(tokens: seq<Token>, sampler: Sampler<G, C>)

  /** A sampler that can take its turn, whatever the target gives. */
  ghost predicate Ready<G, C>(u: Setup<G, C>, s: Sampler<G, C>, f: Target) { IsValid(u, s) && Suits(s, f) }

  ghost function Next<G, C>(u: Setup<G, C>, s: Sampler<G, C>, f: Target, ts: seq<Token>): (r: (Token, Sampler<G, C>))
    requires Ready(u, s, f)
    ensures Ready(u, r.1, f)
  {
    SuitsOutput(s, f, ts);
    var (id, s') := Sample(u, s, f(ts));
    (id, Accept(u, s', id, true))
  }

  /** n tokens sampled and accepted one after the other. */
  ghost function Sequential<G, C>(u: Setup<G, C>, s: Sampler<G, C>, f: Target, prefix: seq<Token>,
                                  n: nat): (r: Emitted<G, C>)
    requires Ready(u, s, f)
    ensures |r.tokens| == n && Ready(u, r.sampler, f)
  {
    if n == 0 then Emitted([], s)
    else
      var before := Sequential(u, s, f, prefix, n - 1);
      var (id, s') := Next(u, before.sampler, f, prefix + before.tokens);
      Emitted(before.tokens + [id], s')
  }

  lemma {:induction false} SequentialAppend<G, C>(u: Setup<G, C>, s: Sampler<G, C>, f: Target, prefix: seq<Token>,
                                                  n: nat, k: nat)
    requires Ready(u, s, f)
    ensures var a := Sequential(u, s, f, prefix, n);
            var b := Sequential(u, a.sampler, f, prefix + a.tokens, k);
            Sequential(u, s, f, prefix, n + k) == Emitted(a.tokens + b.tokens, b.sampler)
    decreases k
  {
    var a := Sequential(u, s, f, prefix, n);
    if k == 0 {
      assert a.tokens + [] == a.tokens;
    } else {
      SequentialAppend(u, s, f, prefix, n, k - 1);
      NextAppend(u, s, f, prefix, n, k, a);
    }
  }

  lemma NextAppend<G, C>(u: Setup<G, C>, s: Sampler<G, C>, f: Target, prefix: seq<Token>, n: nat, k: nat, a: Emitted<G,
                         C>)
    requires Ready(u, s, f) && k > 0 && a == Sequential(u, s, f, prefix, n)
    requires var b := Sequential(u, a.sampler, f, prefix + a.tokens, k - 1);
             Sequential(u, s, f, prefix, n + k - 1) == Emitted(a.tokens + b.tokens, b.sampler)
    ensures var b := Sequential(u, a.sampler, f, prefix + a.tokens, k);
            Sequential(u, s, f, prefix, n + k) == Emitted(a.tokens + b.tokens, b.sampler)
  {
    var b := Sequential(u, a.sampler, f, prefix + a.tokens, k - 1);
    assert prefix + (a.tokens + b.tokens) == prefix + a.tokens + b.tokens;
    var next := Next(u, b.sampler, f, prefix + a.tokens + b.tokens);
    assert a.tokens + b.tokens + [next.0] == a.tokens + (b.tokens + [next.0]);
  }

  lemma {:induction false} SequentialPrefix<G, C>(u: Setup<G, C>, s: Sampler<G, C>, f: Target, prefix: seq<Token>,
                                                  n: nat, k: nat)
    requires Ready(u, s, f) && k <= n
    ensures Sequential(u, s, f, prefix, k).tokens == Sequential(u, s, f, prefix, n).tokens[..k]
    decreases n
  {
    if k < n {
      SequentialPrefix(u, s, f, prefix, n - 1, k);
    } else {
      var ts := Sequential(u, s, f, prefix, n).tokens;
      assert ts[..n] == ts;
    }
  }

  /** How many tokens a round emits: the draft up to its first mismatch, and one token more. */
  ghost function RoundLength<G, C>(u: Setup<G, C>, s: Sampler<G, C>, f: Target, prefix: seq<Token>, draft: seq<Token>,
                                   i: nat): (n: nat)
    requires Ready(u, s, f) && i <= |draft|
    ensures i < n <= |draft| + 1
    decreases |draft| - i
  {
    if i == |draft| || Sequential(u, s, f, prefix, i + 1).tokens[i] != draft[i] then i + 1
    else RoundLength(u, s, f, prefix, draft, i + 1)
  }

  /** One more token of a round, and whether it is the last one. */
  lemma NextToken<G, C>(u: Setup<G, C>, s: Sampler<G, C>, f: Target, prefix: seq<Token>, draft: seq<Token>, i: nat,
                        result: seq<Token>, before: Sampler<G, C>, id: Token, after: Sampler<G, C>)
    requires Ready(u, s, f) && i <= |draft| && Emitted(result, before) == Sequential(u, s, f, prefix, i)
    requires result == draft[..i] && Ready(u, before, f) && (id, after) == Next(u, before, f, prefix + result)
    ensures Emitted(result + [id], after) == Sequential(u, s, f, prefix, i + 1)
    ensures RoundLength(u, s, f, prefix, draft, i)
         == if i == |draft| || id != draft[i] then i + 1 else RoundLength(u, s, f, prefix, draft, i + 1)
    ensures i < |draft| && id == draft[i] ==> result + [id] == draft[..i + 1]
  {
  }

  /** What a round emits: a piece of the sequential run. */
  ghost function SpecRound<G, C>(u: Setup<G, C>, s: Sampler<G, C>, f: Target, prefix: seq<Token>,
                                 draft: seq<Token>): Emitted<G, C>
    requires Ready(u, s, f)
  {
    Sequential(u, s, f, prefix, RoundLength(u, s, f, prefix, draft, 0))
  }

  /** The draft agrees with the sequential run on its first i tokens. */
  ghost predicate AgreesUpTo<G, C>(u: Setup<G, C>, s: Sampler<G, C>, f: Target, prefix: seq<Token>, draft: seq<Token>,
                                   i: nat)
    requires Ready(u, s, f)
  {
    i <= |draft| && Sequential(u, s, f, prefix, i).tokens == draft[..i]
  }

  lemma AgreesMore<G, C>(u: Setup<G, C>, s: Sampler<G, C>, f: Target, prefix: seq<Token>, draft: seq<Token>, i: nat)
    requires Ready(u, s, f) && AgreesUpTo(u, s, f, prefix, draft, i)
    ensures var ts := Sequential(u, s, f, prefix, i + 1).tokens;
            ts[..i] == draft[..i] && (i < |draft| && ts[i] == draft[i] ==> AgreesUpTo(u, s, f, prefix, draft, i + 1))
  {
    SequentialPrefix(u, s, f, prefix, i + 1, i);
    var ts := Sequential(u, s, f, prefix, i + 1).tokens;
    assert ts == ts[..i] + [ts[i]];
    if i < |draft| {
      assert draft[..i + 1] == draft[..i] + [draft[i]];
    }
  }

  /** n tokens follow the draft up to their last one, which differs from it if the draft goes on. */
  ghost predicate IsRound(ts: seq<Token>, draft: seq<Token>) {
    1 <= |ts| <= |draft| + 1 && ts[..|ts| - 1] == draft[..|ts| - 1]
        && (|ts| <= |draft| ==> ts[|ts| - 1] != draft[|ts| - 1])
  }

  lemma {:induction false} RoundFrom<G, C>(u: Setup<G, C>, s: Sampler<G, C>, f: Target, prefix: seq<Token>,
                                           draft: seq<Token>, i: nat)
    requires Ready(u, s, f) && AgreesUpTo(u, s, f, prefix, draft, i)
    ensures IsRound(Sequential(u, s, f, prefix, RoundLength(u, s, f, prefix, draft, i)).tokens, draft)
    decreases |draft| - i
  {
    AgreesMore(u, s, f, prefix, draft, i);
    if i < |draft| && Sequential(u, s, f, prefix, i + 1).tokens[i] == draft[i] {
      RoundFrom(u, s, f, prefix, draft, i + 1);
    }
  }

  /** A round emits between one token and one more than the draft has, all but the last of them equal to the draft. */
  lemma RoundShape<G, C>(u: Setup<G, C>, s: Sampler<G, C>, f: Target, prefix: seq<Token>, draft: seq<Token>)
    requires Ready(u, s, f)
    ensures IsRound(SpecRound(u, s, f, prefix, draft).tokens, draft)
  {
    assert AgreesUpTo(u, s, f, prefix, draft, 0);
    RoundFrom(u, s, f, prefix, draft, 0);
  }

  /** Any number of rounds, whatever is drafted in each. */
  ghost function Rounds<G, C>(u: Setup<G, C>, s: Sampler<G, C>, f: Target, prefix: seq<Token>,
                              drafts: seq<seq<Token>>): Emitted<G, C>
    requires Ready(u, s, f)
    decreases |drafts|
  {
    if drafts == [] then Emitted([], s)
    else
      var one := SpecRound(u, s, f, prefix, drafts[0]);
      var more := Rounds(u, one.sampler, f, prefix + one.tokens, drafts[1..]);
      Emitted(one.tokens + more.tokens, more.sampler)
  }

  /** Speculation changes nothing: rounds emit the tokens, and leave the sampler, of sampling one at a time. */
  lemma {:induction false} RoundsAreSequential<G, C>(u: Setup<G, C>, s: Sampler<G, C>, f: Target, prefix: seq<Token>,
                                                     drafts: seq<seq<Token>>)
    requires Ready(u, s, f)
    ensures var r := Rounds(u, s, f, prefix, drafts);
            r == Sequential(u, s, f, prefix, |r.tokens|) && |r.tokens| >= |drafts|
    decreases |drafts|
  {
    if drafts != [] {
      var one := SpecRound(u, s, f, prefix, drafts[0]);
      var more := Rounds(u, one.sampler, f, prefix + one.tokens, drafts[1..]);
      RoundsAreSequential(u, one.sampler, f, prefix + one.tokens, drafts[1..]);
      Continued(u, s, f, prefix, one, more);
    }
  }

  lemma Continued<G, C>(u: Setup<G, C>, s: Sampler<G, C>, f: Target, prefix: seq<Token>, one: Emitted<G, C>,
                        more: Emitted<G, C>)
    requires Ready(u, s, f) && one == Sequential(u, s, f, prefix, |one.tokens|)
    requires more == Sequential(u, one.sampler, f, prefix + one.tokens, |more.tokens|)
    ensures Emitted(one.tokens + more.tokens, more.sampler) == Sequential(u, s, f, prefix, |one.tokens + more.tokens|)
  {
    SequentialJoin(u, s, f, prefix, |one.tokens|, |more.tokens|, |one.tokens + more.tokens|, one, more);
  }

  lemma SequentialJoin<G, C>(u: Setup<G, C>, s: Sampler<G, C>, f: Target, prefix: seq<Token>, n: nat, k: nat,
                             total: nat, a: Emitted<G, C>, b: Emitted<G, C>)
    requires Ready(u, s, f) && a == Sequential(u, s, f, prefix, n) && total == n + k
    requires b == Sequential(u, a.sampler, f, prefix + a.tokens, k)
    ensures Emitted(a.tokens + b.tokens, b.sampler) == Sequential(u, s, f, prefix, total)
  {
    SequentialAppend(u, s, f, prefix, n, k);
  }

  // ---- what the masks guarantee ----

  ghost predicate HasToken(l: Logits) { exists t :: l(t).Some? }

  /** The chain selects a token that has a logit, if there is one. */
  ghost predicate PicksAlive<G, C(!new)>(u: Setup<G, C>) {
    forall c: C, l: Logits :: HasToken(l) ==> l(u.pick(c, l).0).Some?
  }

  /** Some token is left by the budget and the grammar. */
  ghost predicate Possible<G, C>(u: Setup<G, C>, s: Sampler<G, C>, l: Logits, t: Token) {
    && l(t).Some? && (s.budget.Some? ==> Budget.Keeps(Budget.OnlyToken(u.config, s.budget.value), t))
    && (GrammarApplies(u, s) ==> u.allows(s.grammar.value, t))
  }

  /**
    Whether the grammar masks the logits first or only checks the sampled token, the token that is returned is allowed
    by the grammar wherever it applies, and is the forced one while the budget forces.
  */
  lemma SampledIsAllowed<G, C(!new)>(u: Setup<G, C>, s: Sampler<G, C>, out: Output, t: Token)
    requires PicksAlive(u) && out.sampled.None? && Possible(u, s, out.logits, t)
    ensures var id := Sample(u, s, out).0;
            && (GrammarApplies(u, s) ==> u.allows(s.grammar.value, id))
            && (s.budget.Some? ==> Budget.Keeps(Budget.OnlyToken(u.config, s.budget.value), id))
  {
    var l := BudgetMask(u, s, out.logits);
    assert l(t).Some?;
    if GrammarApplies(u, s) {
      assert GrammarMask(u, s, l)(t).Some?;
    }
  }

  class GenSampler<G, C> {
    const setup: Setup<G, C>
    var budget: Option<Budget.Ctx>
    var grammar: Option<G>
    var chain: C
    var prev: seq<Token>

    function State(): Sampler<G, C>
      reads this
    {
      Sampler(budget, grammar, chain, prev)
    }

    constructor (setup: Setup<G, C>, s: Sampler<G, C>)
      ensures this.setup == setup && State() == s
    {
      this.setup := setup;
      budget, grammar, chain, prev := s.budget, s.grammar, s.chain, s.prev;
    }

    method SampleToken(out: Output) returns (id: Token)
      requires CanSample(State(), out)
      modifies `chain
      ensures (id, State()) == Sample(setup, old(State()), out)
    {
      if out.sampled.Some? {
        return out.sampled.value;
      }
      var l := BudgetMask(setup, State(), out.logits);
      if setup.grammarFirst && GrammarApplies(setup, State()) {
        l := GrammarMask(setup, State(), l);
      }
      var picked := setup.pick(chain, l);
      id, chain := picked.0, picked.1;
      if setup.grammarFirst || !GrammarApplies(setup, State()) {
        return;
      }
      var isValid := setup.allows(grammar.value, id);
      if isValid {
        return;
      }
      l := BudgetMask(setup, State(), out.logits);
      if GrammarApplies(setup, State()) {
        l := GrammarMask(setup, State(), l);
      }
      picked := setup.pick(chain, l);
      id, chain := picked.0, picked.1;
    }

    method AcceptToken(token: Token, isGenerated: bool)
      requires IsValid(setup, State())
      modifies this
      ensures State() == Accept(setup, old(State()), token, isGenerated)
    {
      var acceptGrammar := isGenerated && GrammarApplies(setup, State());
      if budget.Some? && isGenerated {
        budget := Some(Budget.Accept(setup.config, budget.value, token));
      }
      if grammar.Some? && acceptGrammar {
        grammar := Some(setup.advance(grammar.value, token));
      }
      chain := setup.chainAccept(chain, token);
      prev := prev + [token];
    }

    method Turn(out: Output, ghost f: Target, ghost prefix: seq<Token>) returns (id: Token)
      requires Ready(setup, State(), f) && out == f(prefix)
      modifies this
      ensures (id, State()) == Next(setup, old(State()), f, prefix)
    {
      SuitsOutput(State(), f, prefix);
      id := SampleToken(out);
      AcceptToken(id, true);
    }

    /** `common_sampler_sample_and_accept_n`: the tokens of a piece of the sequential run. */
    method SampleAndAcceptN(ctx: seq<Output>, idxs: seq<nat>, draft: seq<Token>, ghost f: Target,
                            ghost prefix: seq<Token>)
      returns (result: seq<Token>)
      requires Ready(setup, State(), f) && |idxs| == |draft| + 1
      requires forall i :: 0 <= i < |idxs| ==> idxs[i] < |ctx| && ctx[idxs[i]] == f(prefix + draft[..i])
      modifies this
      ensures Emitted(result, State()) == SpecRound(setup, old(State()), f, prefix, draft)
    {
      ghost var s := State();
      result := [];
      var i := 0;
      while i < |draft|
        invariant 0 <= i <= |draft| && result == draft[..i]
        invariant Emitted(result, State()) == Sequential(setup, s, f, prefix, i)
        invariant RoundLength(setup, s, f, prefix, draft, i) == RoundLength(setup, s, f, prefix, draft, 0)
      {
        ghost var before := State();
        var id := Turn(ctx[idxs[i]], f, prefix + result);
        NextToken(setup, s, f, prefix, draft, i, result, before, id, State());
        result := result + [id];
        if draft[i] != id {
          break;
        }
        i := i + 1;
      }
      if i == |draft| {
        ghost var before := State();
        var id := Turn(ctx[idxs[i]], f, prefix + result);
        NextToken(setup, s, f, prefix, draft, i, result, before, id, State());
        result := result + [id];
      }
    }
  }
}

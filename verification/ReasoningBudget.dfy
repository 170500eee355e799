/**
  common/reasoning_budget.cpp: the token matcher, and the sampler that counts the tokens of a reasoning block and
  forces its end.
 */
module ReasoningBudget {
  import opened Wrappers
  import Utf8

  type Token = int

  // ---- the matcher ----

  datatype Matched = Matched(hit: bool, pos: nat)

  /** `token_matcher::advance`, from position pos of the pattern. */
  function Advanced(pattern: seq<Token>, pos: nat, t: Token): (m: Matched)
    requires pattern == [] || pos < |pattern|
    ensures pattern == [] || m.pos < |pattern|
  {
    if pattern == [] then Matched(false, pos)
    else if t == pattern[pos] then (if pos + 1 >= |pattern| then Matched(true, 0) else Matched(false, pos + 1))
    else if t == pattern[0] then Matched(false, 1)
    else Matched(false, 0)
  }

  /** The matcher after the tokens ts, from its fresh state; hit if the last of them completed the pattern. */
  function Fed(pattern: seq<Token>, ts: seq<Token>): (m: Matched)
    ensures pattern == [] || m.pos < |pattern|
  {
    if ts == [] then Matched(false, 0)
    else Advanced(pattern, Fed(pattern, ts[..|ts| - 1]).pos, ts[|ts| - 1])
  }

  predicate EndsWith(ts: seq<Token>, u: seq<Token>) { |u| <= |ts| && ts[|ts| - |u|..] == u }

  lemma EndsWithSnoc(ts: seq<Token>, t: Token, pattern: seq<Token>, k: nat)
    requires k < |pattern|
    ensures EndsWith(ts + [t], pattern[..k + 1]) <==> EndsWith(ts, pattern[..k]) && t == pattern[k]
  {
    var u := pattern[..k + 1];
    assert u == pattern[..k] + [pattern[k]];
    if EndsWith(ts + [t], u) {
      assert (ts + [t])[|ts + [t]| - |u|..][..k] == ts[|ts| - k..];
      assert (ts + [t])[|ts + [t]| - |u|..][k] == t;
    }
    if EndsWith(ts, pattern[..k]) && t == pattern[k] {
      assert (ts + [t])[|ts + [t]| - |u|..] == ts[|ts| - k..] + [t];
    }
  }

  lemma FedSnoc(pattern: seq<Token>, ts: seq<Token>, t: Token)
    ensures Fed(pattern, ts + [t]) == Advanced(pattern, Fed(pattern, ts).pos, t)
  {
    assert (ts + [t])[..|ts|] == ts;
  }

  /** One step keeps the position at a beginning that the tokens end with. */
  lemma AdvancedEnds(pattern: seq<Token>, u: seq<Token>, t: Token, pos: nat)
    requires pos < |pattern| && EndsWith(u, pattern[..pos])
    ensures var m := Advanced(pattern, pos, t);
            EndsWith(u + [t], pattern[..m.pos]) && (m.hit ==> EndsWith(u + [t], pattern))
  {
    EndsWithSnoc(u, t, pattern, pos);
    EndsWithSnoc(u, t, pattern, 0);
    assert pattern[..|pattern|] == pattern;
  }

  /** The position says that the tokens end with so much of the pattern, and a hit that they end with all of it. */
  lemma {:induction false} HitIsMatch(pattern: seq<Token>, ts: seq<Token>)
    requires pattern != []
    ensures EndsWith(ts, pattern[..Fed(pattern, ts).pos])
    ensures Fed(pattern, ts).hit ==> EndsWith(ts, pattern)
  {
    if ts != [] {
      var u, t := ts[..|ts| - 1], ts[|ts| - 1];
      assert ts == u + [t];
      HitIsMatch(pattern, u);
      AdvancedEnds(pattern, u, t, Fed(pattern, u).pos);
    }
  }

  predicate FirstOccursOnce(pattern: seq<Token>) { forall i :: 0 < i < |pattern| ==> pattern[i] != pattern[0] }

  /**
    If the first token of the pattern occurs only once in it, the position is the only beginning the tokens end with.
   */
  lemma {:induction false} PositionIsUnique(pattern: seq<Token>, ts: seq<Token>, k: nat)
    requires FirstOccursOnce(pattern) && 0 < k <= |pattern| && EndsWith(ts, pattern[..k])
    ensures if k == |pattern| then Fed(pattern, ts).hit else Fed(pattern, ts).pos == k && !Fed(pattern, ts).hit
    decreases |ts|
  {
    var u, t := ts[..|ts| - 1], ts[|ts| - 1];
    assert ts == u + [t];
    EndsWithSnoc(u, t, pattern, k - 1);
    if k > 1 {
      PositionIsUnique(pattern, u, k - 1);
    }
    FedSnoc(pattern, u, t);
    AdvancesTo(pattern, Fed(pattern, u).pos, t, k);
  }

  lemma AdvancesTo(pattern: seq<Token>, pos: nat, t: Token, k: nat)
    requires FirstOccursOnce(pattern) && 0 < k <= |pattern| && pos < |pattern| && t == pattern[k - 1]
    requires k > 1 ==> pos == k - 1
    ensures var m := Advanced(pattern, pos, t); if k == |pattern| then m.hit else m == Matched(false, k)
  {
  }

  lemma {:induction false} RisesByOne(pattern: seq<Token>, u: seq<Token>, v: seq<Token>)
    requires pattern != [] && v != [] && Fed(pattern, u).pos + |v| < |pattern|
    ensures !Fed(pattern, u + v).hit && Fed(pattern, u + v).pos <= Fed(pattern, u).pos + |v|
    decreases |v|
  {
    var w, t := v[..|v| - 1], v[|v| - 1];
    assert (u + v)[..|u + v| - 1] == u + w;
    if w == [] {
      assert u + w == u;
    } else {
      RisesByOne(pattern, u, w);
    }
  }

  lemma {:induction false} BeginningFed(pattern: seq<Token>, k: nat)
    requires k <= |pattern| && pattern != []
    ensures Fed(pattern, pattern[..k]) == if k == |pattern| then Matched(true, 0) else Matched(false, k)
    decreases k
  {
    if k > 0 {
      BeginningFed(pattern, k - 1);
      assert pattern[..k][..k - 1] == pattern[..k - 1];
    }
  }

  /** How far the pattern goes on as it began, from its j-th token. */
  function Agrees(pattern: seq<Token>, j: nat, m: nat): (r: nat)
    requires j <= m <= |pattern| && pattern[j..m] == pattern[..m - j]
    ensures m <= r <= |pattern| && pattern[j..r] == pattern[..r - j] && (r < |pattern| ==> pattern[r] != pattern[r - j])
    decreases |pattern| - m
  {
    if m == |pattern| || pattern[m] != pattern[m - j] then m
    else
      assert pattern[j..m + 1] == pattern[..m + 1 - j] by {
        assert pattern[j..m + 1] == pattern[j..m] + [pattern[m]];
        assert pattern[..m + 1 - j] == pattern[..m - j] + [pattern[m - j]];
      }
      Agrees(pattern, j, m + 1)
  }

  /** A second occurrence that starts inside the first attempt is missed. */
  lemma Missed(pattern: seq<Token>, j: nat)
    requires 0 < j < |pattern| && pattern[j] == pattern[0]
    ensures exists ts :: EndsWith(ts, pattern) && !Fed(pattern, ts).hit
  {
    assert pattern[j..j] == pattern[..0];
    var m := Agrees(pattern, j, j);
    OverlapEnds(pattern, j, m);
    if m == |pattern| {
      MissedAfterHit(pattern, j);
    } else {
      MissedAfterMismatch(pattern, j, m);
    }
    assert EndsWith(pattern[..m] + pattern[m - j..], pattern);
  }

  lemma OverlapEnds(pattern: seq<Token>, j: nat, m: nat)
    requires j <= m <= |pattern| && pattern[j..m] == pattern[..m - j]
    ensures EndsWith(pattern[..m] + pattern[m - j..], pattern)
  {
    assert (pattern[..m] + pattern[m - j..])[j..] == pattern[j..m] + pattern[m - j..];
    assert pattern[..m - j] + pattern[m - j..] == pattern;
  }

  lemma MissedAfterHit(pattern: seq<Token>, j: nat)
    requires 0 < j < |pattern|
    ensures !Fed(pattern, pattern[..|pattern|] + pattern[|pattern| - j..]).hit
  {
    BeginningFed(pattern, |pattern|);
    RisesByOne(pattern, pattern[..|pattern|], pattern[|pattern| - j..]);
  }

  lemma MissedAfterMismatch(pattern: seq<Token>, j: nat, m: nat)
    requires 0 < j < m < |pattern| && pattern[m] != pattern[m - j]
    ensures !Fed(pattern, pattern[..m] + pattern[m - j..]).hit
  {
    var u, v := pattern[..m], pattern[m - j..];
    BeginningFed(pattern, m);
    FedSnoc(pattern, u, v[0]);
    RisesByOne(pattern, u + [v[0]], v[1..]);
    HeadOver(u, v);
  }

  lemma HeadOver(u: seq<Token>, v: seq<Token>)
    requires v != []
    ensures u + [v[0]] + v[1..] == u + v
  {
  }

  ghost predicate HitsEveryOccurrence(pattern: seq<Token>) {
    forall ts :: Fed(pattern, ts).hit <==> EndsWith(ts, pattern)
  }

  /** The matcher hits exactly at the occurrences if and only if the first token occurs only once in the pattern. */
  lemma HitsEveryOccurrenceIff(pattern: seq<Token>)
    requires pattern != []
    ensures HitsEveryOccurrence(pattern) <==> FirstOccursOnce(pattern)
  {
    assert pattern[..|pattern|] == pattern;
    if FirstOccursOnce(pattern) {
      forall ts
        ensures Fed(pattern, ts).hit <==> EndsWith(ts, pattern)
      {
        HitIsMatch(pattern, ts);
        if EndsWith(ts, pattern) {
          PositionIsUnique(pattern, ts, |pattern|);
        }
      }
    } else {
      var j :| 0 < j < |pattern| && pattern[j] == pattern[0];
      Missed(pattern, j);
    }
  }

  class TokenMatcher {
    const tokens: seq<Token>
    var pos: nat

    ghost predicate Valid()
      reads this
    {
      tokens == [] || pos < |tokens|
    }

    constructor (tokens: seq<Token>)
      ensures Valid() && this.tokens == tokens && pos == 0
    {
      this.tokens := tokens;
      pos := 0;
    }

    method Advance(token: Token) returns (hit: bool)
      requires Valid()
      modifies this
      ensures Valid() && Matched(hit, pos) == Advanced(tokens, old(pos), token)
    {
      if tokens == [] {
        return false;
      }
      if token == tokens[pos] {
        pos := pos + 1;
        if pos >= |tokens| {
          pos := 0;
          return true;
        }
      } else {
        pos := 0;
        if token == tokens[0] {
          pos := 1;
        }
      }
      return false;
    }

    method Reset()
      modifies this
      ensures Valid() && pos == 0
    {
      pos := 0;
    }
  }

  // ---- the budget ----

  datatype Phase = Idle | Counting | Forcing | WaitingUtf8 | Done

  /** The vocabulary, if there is one, gives the bytes of a token. */
  type Vocab = Option<Token -> seq<Utf8.Byte>>

  datatype Config = Config(start: seq<Token>, end: seq<Token>, forced: seq<Token>, budget: int, vocab: Vocab)

  datatype Ctx = Ctx(phase: Phase, remaining: int, startPos: nat, endPos: nat, forcePos: nat)

  predicate IsValid(c: Config, x: Ctx) {
    (c.start == [] || x.startPos < |c.start|) && (c.end == [] || x.endPos < |c.end|)
  }

  /** The state of a fresh sampler, also after `reset`. */
  function Fresh(c: Config): Ctx { Ctx(Idle, c.budget, 0, 0, 0) }

  function Utf8Complete(c: Config, t: Token): bool { c.vocab.None? || Utf8.IsComplete(c.vocab.value(t)) }

  /** The state of a new sampler; without a budget it does not count but forces. */
  function Init(c: Config, initial: Phase): Ctx {
    Ctx(if initial == Counting && c.budget <= 0 then Forcing else initial, c.budget, 0, 0, 0)
  }

  /** A start tag seen: count, or force at once without a budget. */
  function Activated(c: Config, x: Ctx): Ctx {
    if c.budget <= 0 then x.(phase := Forcing, remaining := c.budget, forcePos := 0)
        else x.(phase := Counting, remaining := c.budget)
  }

  function Forced(x: Ctx): Ctx { x.(phase := Forcing, forcePos := 0, endPos := 0) }

  /** `common_reasoning_budget_accept` */
  function Accept(c: Config, x: Ctx, t: Token): (y: Ctx)
    requires IsValid(c, x)
    ensures IsValid(c, y)
  {
    match x.phase
    case Idle =>
      var m := Advanced(c.start, x.startPos, t);
      if m.hit then Activated(c, x.(startPos := m.pos)) else x.(startPos := m.pos)
    case Done =>
      var m := Advanced(c.start, x.startPos, t);
      if m.hit then Activated(c, x.(startPos := m.pos, endPos := 0)) else x.(startPos := m.pos)
    case Forcing =>
      var y := x.(forcePos := x.forcePos + 1);
      if y.forcePos >= |c.forced| then y.(phase := Done) else y
    case Counting =>
      var m := Advanced(c.end, x.endPos, t);
      if m.hit then x.(endPos := m.pos, phase := Done)
      else if x.remaining - 1 > 0 then x.(endPos := m.pos, remaining := x.remaining - 1)
      else if Utf8Complete(c, t) then Forced(x.(remaining := x.remaining - 1))
      else x.(endPos := 0, remaining := x.remaining - 1, phase := WaitingUtf8)
    case WaitingUtf8 =>
      var m := Advanced(c.end, x.endPos, t);
      if m.hit then x.(endPos := m.pos, phase := Done)
      else if Utf8Complete(c, t) then Forced(x)
      else x.(endPos := m.pos)
  }

  /** `common_reasoning_budget_apply`: the only token that keeps its logit, if there is such a token. */
  function OnlyToken(c: Config, x: Ctx): Option<Token> {
    if x.phase == Forcing && x.forcePos < |c.forced| then Some(c.forced[x.forcePos]) else None
  }

  predicate Keeps(only: Option<Token>, t: Token) { only.None? || only.value == t }

  /** `common_reasoning_budget_force` */
  function Force(x: Ctx): Ctx { if x.phase == Counting then Forced(x) else x }

  datatype Event = Accepts(token: Token) | Forces | Resets

  /** A run: the state, the tokens accepted, and the number of them before the current stretch began. */
  datatype Run = Run(ctx: Ctx, seen: seq<Token>, mark: nat)

  function Step(c: Config, r: Run, e: Event): Run
    requires IsValid(c, r.ctx)
  {
    match e
    case Accepts(t) =>
      var x, seen := Accept(c, r.ctx, t), r.seen + [t];
      Run(x, seen, if x.phase == r.ctx.phase then r.mark else |seen|)
    case Forces => var x := Force(r.ctx); Run(x, r.seen, if x.phase == r.ctx.phase then r.mark else |r.seen|)
    case Resets => Run(Fresh(c), r.seen, |r.seen|)
  }

  /** The tokens of the current stretch. */
  function Stretch(r: Run): seq<Token>
    requires r.mark <= |r.seen|
  {
    r.seen[r.mark..]
  }

  /**
    What every run keeps: outside a block the start matcher has seen the stretch; inside it the end matcher has, and
    the budget minus the stretch remains; while forcing, the stretch is as long as what has been forced.
  */
  predicate Tracks(c: Config, r: Run) {
    && r.mark <= |r.seen| && IsValid(c, r.ctx)
    && match r.ctx.phase
       case Idle => r.ctx.startPos == Fed(c.start, Stretch(r)).pos && r.ctx.endPos == 0
       case Done => r.ctx.startPos == Fed(c.start, Stretch(r)).pos
       case Counting =>
         && r.ctx.endPos == Fed(c.end, Stretch(r)).pos && r.ctx.startPos == 0
         && r.ctx.remaining + |Stretch(r)| == c.budget && r.ctx.remaining > 0
       case WaitingUtf8 =>
         && r.ctx.endPos == Fed(c.end, Stretch(r)).pos && r.ctx.startPos == 0
         && forall i :: 0 <= i < |Stretch(r)| ==> !Utf8Complete(c, Stretch(r)[i])
       case Forcing =>
         && r.ctx.forcePos == |Stretch(r)| && r.ctx.startPos == 0
         && (|Stretch(r)| == 0 || |Stretch(r)| < |c.forced|)
  }

  predicate Outside(p: Phase) { p == Idle || p == Done }

  lemma StretchMore(r: Run, t: Token)
    requires r.mark <= |r.seen|
    ensures (r.seen + [t])[r.mark..] == Stretch(r) + [t] && (r.seen + [t])[|r.seen| + 1..] == []
  {
  }

  lemma OutsideKeeps(c: Config, r: Run, t: Token)
    requires Tracks(c, r) && Outside(r.ctx.phase)
    ensures Tracks(c, Step(c, r, Accepts(t)))
  {
    StretchMore(r, t);
    FedSnoc(c.start, Stretch(r), t);
  }

  lemma CountingKeeps(c: Config, r: Run, t: Token)
    requires Tracks(c, r) && r.ctx.phase == Counting
    ensures Tracks(c, Step(c, r, Accepts(t)))
  {
    StretchMore(r, t);
    FedSnoc(c.end, Stretch(r), t);
  }

  lemma WaitingKeeps(c: Config, r: Run, t: Token)
    requires Tracks(c, r) && r.ctx.phase == WaitingUtf8
    ensures Tracks(c, Step(c, r, Accepts(t)))
  {
    StretchMore(r, t);
    FedSnoc(c.end, Stretch(r), t);
  }

  lemma ForcingKeeps(c: Config, r: Run, t: Token)
    requires Tracks(c, r) && r.ctx.phase == Forcing
    ensures Tracks(c, Step(c, r, Accepts(t)))
  {
    StretchMore(r, t);
  }

  lemma StepKeeps(c: Config, r: Run, e: Event)
    requires Tracks(c, r)
    ensures Tracks(c, Step(c, r, e))
  {
    assert r.seen[|r.seen|..] == [];
    if e.Accepts? {
      if Outside(r.ctx.phase) {
        OutsideKeeps(c, r, e.token);
      } else if r.ctx.phase == Forcing {
        ForcingKeeps(c, r, e.token);
      } else if r.ctx.phase == Counting {
        CountingKeeps(c, r, e.token);
      } else {
        WaitingKeeps(c, r, e.token);
      }
    }
  }

  function AfterRun(c: Config, r: Run, es: seq<Event>): Run
    requires Tracks(c, r)
    decreases |es|
  {
    if es == [] then r
    else
      StepKeeps(c, r, es[0]);
      AfterRun(c, Step(c, r, es[0]), es[1..])
  }

  /** Every run of accepts, forces and resets keeps the bookkeeping. */
  lemma {:induction false} RunKeeps(c: Config, r: Run, es: seq<Event>)
    requires Tracks(c, r)
    ensures Tracks(c, AfterRun(c, r, es))
    decreases |es|
  {
    if es != [] {
      StepKeeps(c, r, es[0]);
      RunKeeps(c, Step(c, r, es[0]), es[1..]);
    }
  }

  lemma NewTracks(c: Config, initial: Phase)
    ensures Tracks(c, Run(Init(c, initial), [], 0))
  {
  }

  /** A new sampler, before it has accepted anything. */
  function NewRun(c: Config, initial: Phase): (r: Run)
    ensures Tracks(c, r)
  {
    NewTracks(c, initial);
    Run(Init(c, initial), [], 0)
  }

  function AcceptedBy(e: Event): seq<Token> { if e.Accepts? then [e.token] else [] }

  function AcceptedIn(es: seq<Event>): seq<Token> {
    if es == [] then [] else AcceptedBy(es[0]) + AcceptedIn(es[1..])
  }

  lemma StepSees(c: Config, r: Run, e: Event)
    requires IsValid(c, r.ctx)
    ensures Step(c, r, e).seen == r.seen + AcceptedBy(e)
  {
  }

  lemma {:induction false} RunSees(c: Config, r: Run, es: seq<Event>)
    requires Tracks(c, r)
    ensures AfterRun(c, r, es).seen == r.seen + AcceptedIn(es)
    decreases |es|
  {
    if es != [] {
      StepKeeps(c, r, es[0]);
      StepSees(c, r, es[0]);
      RunSees(c, Step(c, r, es[0]), es[1..]);
      SeesMore(r.seen, es, AfterRun(c, Step(c, r, es[0]), es[1..]).seen);
    }
  }

  lemma SeesMore(before: seq<Token>, es: seq<Event>, after: seq<Token>)
    requires es != [] && after == before + AcceptedBy(es[0]) + AcceptedIn(es[1..])
    ensures after == before + AcceptedIn(es)
  {
    Regroup(before, AcceptedBy(es[0]), AcceptedIn(es[1..]));
  }

  lemma Regroup(a: seq<Token>, b: seq<Token>, c: seq<Token>)
    ensures (a + b) + c == a + (b + c)
  {
  }

  /**
    From a new sampler on, in whatever phase it starts: after any events the bookkeeping is right over the tokens
    accepted so far, and while counting, what remains and what has been counted in this block are the budget.
   */
  lemma NewSamplerKeeps(c: Config, initial: Phase, es: seq<Event>)
    ensures var r := AfterRun(c, NewRun(c, initial), es);
            && Tracks(c, r) && r.seen == AcceptedIn(es)
            && (r.ctx.phase == Counting ==> r.ctx.remaining + |Stretch(r)| == c.budget)
  {
    RunKeeps(c, NewRun(c, initial), es);
    RunSees(c, NewRun(c, initial), es);
  }

  /** A hit on the tokens of a stretch, seen in the whole stream. */
  lemma StretchHit(pattern: seq<Token>, seen: seq<Token>, mark: nat, t: Token)
    requires mark <= |seen| && pattern != []
    ensures var more := seen[mark..] + [t];
            && (Fed(pattern, more).hit ==> EndsWith(seen + [t], pattern) && |pattern| <= |more|)
            && (FirstOccursOnce(pattern) && EndsWith(more, pattern) ==> Fed(pattern, more).hit)
  {
    var more := seen[mark..] + [t];
    HitIsMatch(pattern, more);
    SuffixEnds(seen + [t], mark, pattern);
    assert (seen + [t])[mark..] == more;
    if FirstOccursOnce(pattern) && EndsWith(more, pattern) {
      assert pattern[..|pattern|] == pattern;
      PositionIsUnique(pattern, more, |pattern|);
    }
  }

  lemma SuffixEnds(ts: seq<Token>, mark: nat, pattern: seq<Token>)
    requires mark <= |ts|
    ensures EndsWith(ts[mark..], pattern) ==> EndsWith(ts, pattern)
  {
    if EndsWith(ts[mark..], pattern) {
      assert ts[|ts| - |pattern|..] == ts[mark..][|ts[mark..]| - |pattern|..];
    }
  }

  /** How a block begins: counting the whole budget, or forcing if there is none. */
  predicate JustBegun(c: Config, r: Run) {
    && r.mark == |r.seen|
    && if c.budget > 0 then r.ctx.phase == Counting && r.ctx.remaining == c.budget else r.ctx.phase == Forcing
  }

  /**
    A block begins only where the last tokens are the start tag, and if its first token occurs only once in it, every
    start tag begins a block.
  */
  lemma BlockBegins(c: Config, r: Run, t: Token)
    requires Tracks(c, r) && Outside(r.ctx.phase) && c.start != []
    ensures var r' := Step(c, r, Accepts(t));
            && (!Outside(r'.ctx.phase) ==> EndsWith(r'.seen, c.start) && JustBegun(c, r'))
            && (FirstOccursOnce(c.start) && EndsWith(Stretch(r) + [t], c.start) ==> !Outside(r'.ctx.phase))
  {
    StretchMore(r, t);
    FedSnoc(c.start, Stretch(r), t);
    StretchHit(c.start, r.seen, r.mark, t);
  }

  /** A block ends by itself only with the end tag. */
  lemma BlockEnds(c: Config, r: Run, t: Token)
    requires Tracks(c, r) && (r.ctx.phase == Counting || r.ctx.phase == WaitingUtf8) && c.end != []
    ensures var r' := Step(c, r, Accepts(t));
            && (r'.ctx.phase == Done ==> EndsWith(r'.seen, c.end) && |c.end| <= |Stretch(r)| + 1)
            && (FirstOccursOnce(c.end) && EndsWith(Stretch(r) + [t], c.end) ==> r'.ctx.phase == Done)
  {
    StretchMore(r, t);
    FedSnoc(c.end, Stretch(r), t);
    StretchHit(c.end, r.seen, r.mark, t);
  }

  function AcceptAll(c: Config, x: Ctx, ts: seq<Token>): (y: Ctx)
    requires IsValid(c, x)
    ensures IsValid(c, y)
  {
    if ts == [] then x else Accept(c, AcceptAll(c, x, ts[..|ts| - 1]), ts[|ts| - 1])
  }

  /** No end tag is completed among the tokens of a block. */
  predicate NeverEnds(c: Config, ts: seq<Token>) { forall i :: 0 < i <= |ts| ==> !Fed(c.end, ts[..i]).hit }

  /** A block that does not end by itself counts for exactly as many tokens as the budget. */
  lemma {:induction false} BlockCounts(c: Config, x: Ctx, ts: seq<Token>)
    requires IsValid(c, x) && x.phase == Counting && x.remaining == c.budget > 0 && x.endPos == 0
    requires NeverEnds(c, ts) && |ts| <= c.budget
    ensures var y := AcceptAll(c, x, ts);
            if |ts| < c.budget then
              y.phase == Counting && y.remaining == c.budget - |ts| && y.endPos == Fed(c.end, ts).pos
            else
              && y.phase == (if Utf8Complete(c, ts[|ts| - 1]) then Forcing else WaitingUtf8)
              && y.forcePos == (if y.phase == Forcing then 0 else x.forcePos)
    decreases |ts|
  {
    if ts != [] {
      var u := ts[..|ts| - 1];
      assert forall i :: 0 < i <= |u| ==> u[..i] == ts[..i];
      BlockCounts(c, x, u);
      assert ts[..|ts|] == ts;
      KeepsForcePos(c, x, u);
    }
  }

  lemma {:induction false} KeepsForcePos(c: Config, x: Ctx, ts: seq<Token>)
    requires IsValid(c, x) && x.phase == Counting && x.remaining == c.budget > |ts| && x.endPos == 0 && NeverEnds(c, ts)
    ensures AcceptAll(c, x, ts).forcePos == x.forcePos
    decreases |ts|
  {
    if ts != [] {
      var u := ts[..|ts| - 1];
      assert forall i :: 0 < i <= |u| ==> u[..i] == ts[..i];
      KeepsForcePos(c, x, u);
      BlockCounts(c, x, u);
      assert ts[..|ts|] == ts;
    }
  }

  /** The bytes of the tokens. */
  function TextOf(v: Token -> seq<Utf8.Byte>, ts: seq<Token>): seq<Utf8.Byte> {
    if ts == [] then [] else TextOf(v, ts[..|ts| - 1]) + v(ts[|ts| - 1])
  }

  /** The budget is used up and the block has not ended. */
  predicate IsExhausted(c: Config, x: Ctx, t: Token)
    requires IsValid(c, x)
  {
    (x.phase == WaitingUtf8 || (x.phase == Counting && x.remaining <= 1)) && !Advanced(c.end, x.endPos, t).hit
  }

  /**
    Forcing begins where the piece of the token is complete, which is where the text is complete exactly if the piece
    decides it.
   */
  lemma ForcesAtCompleteIff(c: Config, x: Ctx, ts: seq<Token>, t: Token)
    requires IsValid(c, x) && c.vocab.Some? && IsExhausted(c, x, t)
    ensures var v := c.vocab.value;
            ((Accept(c, x, t).phase == Forcing <==> Utf8.IsComplete(TextOf(v, ts + [t])))
                <==> Utf8.PieceDecides(TextOf(v, ts), v(t)))
  {
    var v := c.vocab.value;
    assert (ts + [t])[..|ts|] == ts;
    Utf8.PieceDecidesIff(TextOf(v, ts), v(t));
  }

  /** Behind a token with a piece, forcing never begins inside a character. */
  lemma ForcesOutsideCharacters(c: Config, x: Ctx, ts: seq<Token>, t: Token)
    requires IsValid(c, x) && c.vocab.Some? && IsExhausted(c, x, t)
    requires c.vocab.value(t) != [] && Accept(c, x, t).phase == Forcing
    ensures Utf8.IsComplete(TextOf(c.vocab.value, ts + [t]))
  {
    assert (ts + [t])[..|ts|] == ts;
    Utf8.CompletePieceCompletes(TextOf(c.vocab.value, ts), c.vocab.value(t));
  }

  /**
    With a token for each part of a euro sign, forcing is delayed past the end of the sign; with a token that has no
    piece behind its first part, it begins inside the sign.
   */
  lemma ForcingMisplaced(c: Config, first: Token, last: Token, empty: Token)
    requires c.vocab.Some? && c.end == [] && c.vocab.value(first) == [0xE2, 0x82] && c.vocab.value(last) == [0xAC]
    requires c.vocab.value(empty) == []
    ensures var x := Ctx(WaitingUtf8, 0, 0, 0, 0);
            && Utf8.IsComplete(TextOf(c.vocab.value, [first, last])) && Accept(c, x, last).phase == WaitingUtf8
            && !Utf8.IsComplete(TextOf(c.vocab.value, [first, empty])) && Accept(c, x, empty).phase == Forcing
  {
    var v := c.vocab.value;
    Utf8.PiecesMislead();
    assert [first, last][..1] == [first] && [first, empty][..1] == [first] && [first][..0] == [];
    assert TextOf(v, [first]) == TextOf(v, []) + v(first) == [0xE2, 0x82];
  }

  function EpisodeLength(c: Config): nat { if c.forced == [] then 1 else |c.forced| }

  /** Forcing lasts for exactly as many tokens as are forced, at least one, whatever is accepted meanwhile. */
  lemma {:induction false} ForcingLasts(c: Config, x: Ctx, ts: seq<Token>)
    requires IsValid(c, x) && x.phase == Forcing && x.forcePos == 0 && |ts| <= EpisodeLength(c)
    ensures var y := AcceptAll(c, x, ts);
            if |ts| < EpisodeLength(c) then
              y.phase == Forcing && y.forcePos == |ts|
                  && OnlyToken(c, y) == if c.forced == [] then None else Some(c.forced[|ts|])
            else y.phase == Done && OnlyToken(c, y) == None
    decreases |ts|
  {
    if ts != [] {
      ForcingLasts(c, x, ts[..|ts| - 1]);
    }
  }

  /** Every token was sampled among those that kept their logits. */
  predicate Obeys(c: Config, x: Ctx, ts: seq<Token>)
    requires IsValid(c, x)
  {
    ts == [] || (var u := ts[..|ts| - 1]; Obeys(c, x, u) && Keeps(OnlyToken(c, AcceptAll(c, x, u)), ts[|ts| - 1]))
  }

  /** Whoever samples only tokens that keep their logits emits the forced tokens, all of them and in order. */
  lemma {:induction false} ForcedAreEmitted(c: Config, x: Ctx, ts: seq<Token>)
    requires IsValid(c, x) && x.phase == Forcing && x.forcePos == 0 && |ts| <= |c.forced| && Obeys(c, x, ts)
    ensures ts == c.forced[..|ts|]
    decreases |ts|
  {
    if ts != [] {
      var n := |ts| - 1;
      var u := ts[..n];
      ForcedAreEmitted(c, x, u);
      ForcedNext(c, x, u, ts[n]);
      assert ts == u + [ts[n]] && c.forced[..n + 1] == c.forced[..n] + [c.forced[n]];
    }
  }

  lemma ForcedNext(c: Config, x: Ctx, u: seq<Token>, t: Token)
    requires IsValid(c, x) && x.phase == Forcing && x.forcePos == 0 && |u| < |c.forced|
    requires Keeps(OnlyToken(c, AcceptAll(c, x, u)), t)
    ensures t == c.forced[|u|]
  {
    ForcingLasts(c, x, u);
  }

  class Budget {
    const config: Config
    var startMatcher: TokenMatcher
    var endMatcher: TokenMatcher
    var remaining: int
    var phase: Phase
    var forcePos: nat

    ghost predicate Valid()
      reads this, startMatcher, endMatcher
    {
      && startMatcher != endMatcher && startMatcher.tokens == config.start && endMatcher.tokens == config.end
      && startMatcher.Valid() && endMatcher.Valid()
    }

    ghost function State(): Ctx
      reads this, startMatcher, endMatcher
    {
      Ctx(phase, remaining, startMatcher.pos, endMatcher.pos, forcePos)
    }

    constructor (config: Config, initial: Phase)
      ensures Valid() && fresh(startMatcher) && fresh(endMatcher) && this.config == config
              && State() == Init(config, initial)
    {
      this.config := config;
      startMatcher := new TokenMatcher(config.start);
      endMatcher := new TokenMatcher(config.end);
      remaining := config.budget;
      phase := if initial == Counting && config.budget <= 0 then Forcing else initial;
      forcePos := 0;
    }

    /** `common_reasoning_budget_accept` */
    method AcceptToken(token: Token)
      requires Valid()
      modifies this, startMatcher, endMatcher
      ensures Valid() && startMatcher == old(startMatcher) && endMatcher == old(endMatcher)
      ensures State() == Accept(config, old(State()), token)
    {
      match phase
      case Idle =>
        var hit := startMatcher.Advance(token);
        if hit {
          Activate();
        }
      case Counting => CountToken(token);
      case WaitingUtf8 => AwaitToken(token);
      case Forcing =>
        forcePos := forcePos + 1;
        if forcePos >= |config.forced| {
          phase := Done;
        }
      case Done =>
        var hit := startMatcher.Advance(token);
        if hit {
          endMatcher.Reset();
          Activate();
        }
    }

    method Activate()
      requires Valid()
      modifies this
      ensures startMatcher == old(startMatcher) && endMatcher == old(endMatcher)
              && State() == Activated(config, old(State()))
    {
      phase := Counting;
      remaining := config.budget;
      if remaining <= 0 {
        phase := Forcing;
        forcePos := 0;
      }
    }

    /** The vocabulary decides whether the token ends a character. */
    method IsUtf8Complete(token: Token) returns (complete: bool)
      ensures complete == Utf8Complete(config, token)
    {
      complete := true;
      if config.vocab.Some? {
        complete := Utf8.ComputeIsComplete(config.vocab.value(token));
      }
    }

    method CountToken(token: Token)
      requires Valid() && phase == Counting
      modifies this, endMatcher
      ensures Valid() && startMatcher == old(startMatcher) && endMatcher == old(endMatcher)
      ensures State() == Accept(config, old(State()), token)
    {
      var hit := endMatcher.Advance(token);
      if hit {
        phase := Done;
        return;
      }
      var complete := IsUtf8Complete(token);
      remaining := remaining - 1;
      if remaining <= 0 {
        if complete {
          phase, forcePos := Forcing, 0;
        } else {
          phase := WaitingUtf8;
        }
        endMatcher.Reset();
      }
    }

    method AwaitToken(token: Token)
      requires Valid() && phase == WaitingUtf8
      modifies this, endMatcher
      ensures Valid() && startMatcher == old(startMatcher) && endMatcher == old(endMatcher)
      ensures State() == Accept(config, old(State()), token)
    {
      var hit := endMatcher.Advance(token);
      if hit {
        phase := Done;
        return;
      }
      var complete := IsUtf8Complete(token);
      if complete {
        phase, forcePos := Forcing, 0;
        endMatcher.Reset();
      }
    }

    /** `common_reasoning_budget_apply` on the tokens that still have a logit. */
    method Apply(candidates: seq<Token>) returns (kept: seq<bool>)
      requires Valid()
      ensures |kept| == |candidates|
      ensures forall i :: 0 <= i < |candidates| ==> (kept[i] <==> Keeps(OnlyToken(config, State()), candidates[i]))
    {
      kept := seq(|candidates|, _ => true);
      if phase != Forcing {
        return;
      }
      if forcePos >= |config.forced| {
        return;
      }
      var forced := config.forced[forcePos];
      var i := 0;
      while i < |candidates|
        invariant 0 <= i <= |candidates| == |kept|
        invariant forall j :: 0 <= j < |candidates| ==> (kept[j] <==> j >= i || candidates[j] == forced)
      {
        if candidates[i] != forced {
          kept := kept[i := false];
        }
        i := i + 1;
      }
    }

    method Reset()
      requires Valid()
      modifies this, startMatcher, endMatcher
      ensures Valid() && startMatcher == old(startMatcher) && endMatcher == old(endMatcher) && State() == Fresh(config)
    {
      phase := Idle;
      remaining := config.budget;
      startMatcher.Reset();
      endMatcher.Reset();
      forcePos := 0;
    }

    /** `common_reasoning_budget_force`: only a counting sampler is forced. */
    method ForceNow() returns (forced: bool)
      requires Valid()
      modifies this, endMatcher
      ensures Valid() && startMatcher == old(startMatcher) && endMatcher == old(endMatcher)
      ensures State() == Force(old(State())) && forced == (old(phase) == Counting)
    {
      if phase != Counting {
        return false;
      }
      phase, forcePos := Forcing, 0;
      endMatcher.Reset();
      return true;
    }
  }
}

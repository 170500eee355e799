/**
  The EAGLE3 drafter of common/speculative.cpp for one sequence: what its memory holds after any run of batches,
  drafts and partial acceptances.
 */
module Eagle3 {

  type Token = int

  type Row = seq<real>

  // ---- the memory of a context, for one sequence ----

  datatype Cell = Cell(token: Token, row: Row)

  /** The positions of a sequence are consecutive, as `lhm_decode` demands of what it is given. */
  datatype Memory = Memory(start: int, cells: seq<Cell>)

  datatype Entry = Entry(pos: int, cell: Cell)

  /** `lhm_memory_seq_pos_max` */
  function PosMax(m: Memory): int { if m.cells == [] then -1 else m.start + |m.cells| - 1 }

  /** `lhm_memory_seq_rm` from a position on. */
  function Removed(m: Memory, from: int): Memory {
    var keep := from - m.start;
    if keep <= 0 then Memory(m.start, []) else if keep < |m.cells| then Memory(m.start, m.cells[..keep]) else m
  }

  predicate Fits(m: Memory, entries: seq<Entry>) {
    && (entries != [] && m.cells != [] ==> entries[0].pos == PosMax(m) + 1)
    && forall i :: 0 <= i < |entries| ==> entries[i].pos == entries[0].pos + i
  }

  function Cells(entries: seq<Entry>): (cells: seq<Cell>)
    ensures |cells| == |entries|
  {
    seq(|entries|, i requires 0 <= i < |entries| => entries[i].cell)
  }

  /** `lhm_decode`, when the positions fit. */
  function Decoded(m: Memory, entries: seq<Entry>): Memory {
    if entries == [] then m
    else Memory(if m.cells == [] then entries[0].pos else m.start, m.cells + Cells(entries))
  }

  // ---- the state of a sequence and its steps ----

  datatype Slot = Slot(pendingPos: int, pendingG: Row, verifyFirst: int, verifyG: seq<Row>)

  /** The tokens of one sequence in a batch, with the encoder's row for each. */
  datatype Input = Input(token: Token, pos: int, g: Row)

  /** The boundary that an earlier batch left open, when the three conditions hold. */
  function Bridge(slot: Slot, m: Memory, ts: seq<Input>): seq<Entry>
    requires ts != []
  {
    if slot.pendingPos >= 0 && slot.pendingPos + 1 == ts[0].pos && slot.pendingPos > PosMax(m)
    then [Entry(slot.pendingPos, Cell(ts[0].token, slot.pendingG))]
    else []
  }

  /** At position P the pair (token[P + 1], g[P]); the last position stays open. */
  function Shifted(ts: seq<Input>): (entries: seq<Entry>)
    requires ts != []
    ensures |entries| == |ts| - 1
  {
    seq(|ts| - 1, k requires 0 <= k < |ts| - 1 => Entry(ts[k].pos, Cell(ts[k + 1].token, ts[k].g)))
  }

  function Written(slot: Slot, m: Memory, ts: seq<Input>): (entries: seq<Entry>)
    requires ts != []
    ensures |entries| <= |ts|
  {
    Bridge(slot, m, ts) + Shifted(ts)
  }

  function Rows(ts: seq<Input>): (rows: seq<Row>)
    ensures |rows| == |ts|
  {
    seq(|ts|, k requires 0 <= k < |ts| => ts[k].g)
  }

  function Refreshed(ts: seq<Input>): Slot
    requires ts != []
  {
    Slot(ts[|ts| - 1].pos, ts[|ts| - 1].g, ts[0].pos, Rows(ts))
  }

  /** `accept`: the row of the last accepted token becomes the open boundary. */
  function Accepted(slot: Slot, n: nat): Slot {
    if slot.verifyG == [] then slot
    else
      var i := if n < |slot.verifyG| - 1 then n else |slot.verifyG| - 1;
      slot.(pendingPos := slot.verifyFirst + i, pendingG := slot.verifyG[i])
  }

  /** The first decode of `draft`: the open boundary is completed with the freshest token. */
  function Seed(slot: Slot, m: Memory, idLast: Token): Memory
    requires slot.pendingPos >= 0
  {
    Decoded(Removed(m, slot.pendingPos), [Entry(slot.pendingPos, Cell(idLast, slot.pendingG))])
  }

  // ---- what the memory should hold ----

  /** The target's row for each position depends only on the tokens up to it. */
  type Target = seq<Token> -> Row

  function TargetRows(f: Target, ts: seq<Token>): (rows: seq<Row>)
    ensures |rows| == |ts|
  {
    seq(|ts|, p requires 0 <= p < |ts| => f(ts[..p + 1]))
  }

  /** The slot stands at the last token of the stream. */
  predicate Follows(slot: Slot, ts: seq<Token>, g: seq<Row>) {
    |ts| == |g| && slot.pendingPos == |ts| - 1 && (ts != [] ==> slot.pendingG == g[|ts| - 1])
  }

  /** At every position P below the open one, the pair (token[P + 1], g[P]). */
  predicate Holds(m: Memory, ts: seq<Token>, g: seq<Row>)
    requires |g| == |ts|
  {
    |ts| - 1 <= |m.cells| && forall p :: 0 <= p < |ts| - 1 ==> m.cells[p] == Cell(ts[p + 1], g[p])
  }

  /** Nothing is stored past the open position, and what is stored there has its row. */
  predicate Trimmed(m: Memory, ts: seq<Token>, g: seq<Row>)
    requires |g| == |ts|
  {
    && (m.cells != [] ==> m.start == 0)
    && |ts| - 1 <= |m.cells| <= |ts|
    && (|m.cells| == |ts| && ts != [] ==> m.cells[|ts| - 1].row == g[|ts| - 1])
  }

  /** The open position is free, or it holds the token that comes next. */
  predicate Expects(m: Memory, ts: seq<Token>, next: Token) {
    |m.cells| == |ts| && ts != [] ==> m.cells[|ts| - 1].token == next
  }

  /** The cells continued with the pairs of the stream up to its open position. */
  function Extended(m: Memory, ts: seq<Token>, g: seq<Row>): Memory
    requires |g| == |ts|
  {
    var n := |m.cells|;
    if n + 1 < |ts| then
      Memory(if n == 0 then 0
          else m.start, m.cells + seq(|ts| - 1 - n, i requires 0 <= i < |ts| - 1 - n => Cell(ts[n + i + 1], g[n + i])))
    else m
  }

  function Tokens(ts: seq<Input>): (r: seq<Token>)
    ensures |r| == |ts|
  {
    seq(|ts|, k requires 0 <= k < |ts| => ts[k].token)
  }

  /** The batch takes up the stream where it stands. */
  predicate Continues(ts: seq<Token>, batch: seq<Input>) {
    batch != [] && forall k :: 0 <= k < |batch| ==> batch[k].pos == |ts| + k
  }

  /** The entries are the pairs of the longer stream from the first free position on. */
  lemma WrittenPairs(slot: Slot, m: Memory, ts: seq<Token>, g: seq<Row>, batch: seq<Input>)
    requires Follows(slot, ts, g) && Trimmed(m, ts, g) && Continues(ts, batch)
    ensures ArePairs(Written(slot, m, batch), |m.cells|, ts + Tokens(batch), g + Rows(batch))
  {
    var entries, n := Written(slot, m, batch), |m.cells|;
    var bridge := Bridge(slot, m, batch);
    assert |bridge| == |ts| - n;
    forall i | 0 <= i < |entries|
      ensures entries[i] == Entry(n + i, Cell((ts + Tokens(batch))[n + i + 1], (g + Rows(batch))[n + i]))
    {
      if i >= |bridge| {
        assert entries[i] == Shifted(batch)[i - |bridge|];
      }
    }
  }

  predicate ArePairs(entries: seq<Entry>, n: nat, ts: seq<Token>, g: seq<Row>) {
    && |g| == |ts| && |entries| == |ts| - 1 - n
    && forall i :: 0 <= i < |entries| ==> entries[i] == Entry(n + i, Cell(ts[n + i + 1], g[n + i]))
  }

  lemma PairsExtend(m: Memory, entries: seq<Entry>, ts: seq<Token>, g: seq<Row>)
    requires ArePairs(entries, |m.cells|, ts, g) && (m.cells != [] ==> m.start == 0)
    ensures Fits(m, entries) && Decoded(m, entries) == Extended(m, ts, g)
  {
    if entries != [] {
      assert Decoded(m, entries).cells == Extended(m, ts, g).cells;
    }
  }

  /** A batch extends the memory by the pairs of the longer stream, whatever was stored before. */
  lemma ProcessExtends(slot: Slot, m: Memory, ts: seq<Token>, g: seq<Row>, batch: seq<Input>)
    requires Follows(slot, ts, g) && Trimmed(m, ts, g) && Continues(ts, batch)
    ensures var entries := Written(slot, m, batch);
            Fits(m, entries) && Decoded(m, entries) == Extended(m, ts + Tokens(batch), g + Rows(batch))
    ensures Follows(Refreshed(batch), ts + Tokens(batch), g + Rows(batch))
  {
    WrittenPairs(slot, m, ts, g, batch);
    PairsExtend(m, Written(slot, m, batch), ts + Tokens(batch), g + Rows(batch));
  }

  lemma ExtendedHolds(m: Memory, ts: seq<Token>, g: seq<Row>, more: seq<Token>, rows: seq<Row>)
    requires |g| == |ts| && |rows| == |more| > 0 && Holds(m, ts, g) && Trimmed(m, ts, g)
    ensures Trimmed(Extended(m, ts + more, g + rows), ts + more, g + rows)
    ensures |Extended(m, ts + more, g + rows).cells| == |ts + more| - 1
    ensures Holds(Extended(m, ts + more, g + rows), ts + more, g + rows) <==> Expects(m, ts, more[0])
  {
    var ts', g' := ts + more, g + rows;
    var m' := Extended(m, ts', g');
    if ts != [] && |m.cells| == |ts| {
      assert m'.cells[|ts| - 1] == m.cells[|ts| - 1];
    }
    if Expects(m, ts, more[0]) {
      forall p | 0 <= p < |ts'| - 1
        ensures m'.cells[p] == Cell(ts'[p + 1], g'[p])
      {
        if p < |ts| - 1 {
          assert m'.cells[p] == m.cells[p];
        }
      }
    }
  }

  /** After a batch the memory holds its pairs exactly if the open position was free or held the batch's first token. */
  lemma ProcessHoldsIff(slot: Slot, m: Memory, ts: seq<Token>, g: seq<Row>, batch: seq<Input>)
    requires Follows(slot, ts, g) && Holds(m, ts, g) && Trimmed(m, ts, g) && Continues(ts, batch)
    ensures Holds(Decoded(m, Written(slot, m, batch)), ts + Tokens(batch), g + Rows(batch))
            <==> Expects(m, ts, batch[0].token)
    ensures Trimmed(Decoded(m, Written(slot, m, batch)), ts + Tokens(batch), g + Rows(batch))
    ensures |Decoded(m, Written(slot, m, batch)).cells| == |ts| + |batch| - 1
  {
    ProcessExtends(slot, m, ts, g, batch);
    ExtendedHolds(m, ts, g, Tokens(batch), Rows(batch));
  }

  /** However a stream is cut into two batches, the memory and the open boundary come out the same. */
  lemma ProcessSplit(slot: Slot, m: Memory, ts: seq<Token>, g: seq<Row>, a: seq<Input>, b: seq<Input>)
    requires Follows(slot, ts, g) && Holds(m, ts, g) && Trimmed(m, ts, g)
    requires Continues(ts, a) && Continues(ts + Tokens(a), b)
    ensures var m1 := Decoded(m, Written(slot, m, a));
            && Decoded(m1, Written(Refreshed(a), m1, b)) == Decoded(m, Written(slot, m, a + b))
            && Refreshed(b).pendingPos == Refreshed(a + b).pendingPos
               && Refreshed(b).pendingG == Refreshed(a + b).pendingG
  {
    var m1 := Decoded(m, Written(slot, m, a));
    ProcessHoldsIff(slot, m, ts, g, a);
    ProcessExtends(slot, m, ts, g, a);
    ProcessExtends(Refreshed(a), m1, ts + Tokens(a), g + Rows(a), b);
    ContinuesTogether(ts, a, b);
    ProcessExtends(slot, m, ts, g, a + b);
    SplitMemory(m, ts, g, a, b);
  }

  lemma ContinuesTogether(ts: seq<Token>, a: seq<Input>, b: seq<Input>)
    requires Continues(ts, a) && Continues(ts + Tokens(a), b)
    ensures Continues(ts, a + b)
    ensures Refreshed(b).pendingPos == Refreshed(a + b).pendingPos
    ensures Refreshed(b).pendingG == Refreshed(a + b).pendingG
  {
  }

  lemma SplitMemory(m: Memory, ts: seq<Token>, g: seq<Row>, a: seq<Input>, b: seq<Input>)
    requires |ts| == |g| && a != [] && b != [] && |ts| - 1 <= |m.cells| <= |ts|
    ensures Extended(Extended(m, ts + Tokens(a), g + Rows(a)), ts + Tokens(a) + Tokens(b), g + Rows(a) + Rows(b))
         == Extended(m, ts + Tokens(a + b), g + Rows(a + b))
  {
    assert Tokens(a + b) == Tokens(a) + Tokens(b) && Rows(a + b) == Rows(a) + Rows(b);
    ExtendedTwice(m, ts, g, Tokens(a), Rows(a), Tokens(b), Rows(b));
  }

  lemma ExtendedTwice(m: Memory, ts: seq<Token>, g: seq<Row>, a: seq<Token>, ga: seq<Row>, b: seq<Token>, gb: seq<Row>)
    requires |ts| == |g| && |a| == |ga| > 0 && |b| == |gb| > 0 && |ts| - 1 <= |m.cells| <= |ts|
    ensures Extended(Extended(m, ts + a, g + ga), ts + a + b, g + ga + gb) == Extended(m, ts + (a + b), g + (ga + gb))
  {
    assert ts + a + b == ts + (a + b) && g + ga + gb == g + (ga + gb);
    var once := Extended(m, ts + (a + b), g + (ga + gb));
    var twice := Extended(Extended(m, ts + a, g + ga), ts + a + b, g + ga + gb);
    assert |once.cells| == |twice.cells|;
    forall p | 0 <= p < |once.cells|
      ensures once.cells[p] == twice.cells[p]
    {
    }
    assert once.cells == twice.cells;
  }

  // ---- runs ----

  /** One turn of a server: a draft or none, a batch with the last token and the drafted ones, and the verdict. */
  datatype Round = Round(drafted: bool, idLast: Token, draft: seq<Token>, accepted: nat)

  datatype State = State(slot: Slot, memory: Memory, stream: seq<Token>)

  function Inputs(f: Target, ts: seq<Token>, more: seq<Token>): (batch: seq<Input>)
    ensures |batch| == |more|
  {
    seq(|more|, k requires 0 <= k < |more| => Input(more[k], |ts| + k, f(ts + more[..k + 1])))
  }

  /** After `draft`, the drafted positions are removed again before the target's batch is processed. */
  function AfterDraft(s: State, r: Round): Memory {
    if r.drafted && s.slot.pendingPos >= 0
    then Removed(Seed(s.slot, s.memory, r.idLast), s.slot.pendingPos + 1)
    else s.memory
  }

  function Verified(r: Round): seq<Token> { [r.idLast] + r.draft }

  /** The tokens of the round that stay: the last sampled one and the accepted ones. */
  function Kept(r: Round): seq<Token> {
    Verified(r)[..if r.accepted < |r.draft| then r.accepted + 1 else |r.draft| + 1]
  }

  /** A round; what follows the last accepted token is removed from the memory at the end. */
  function AfterRound(f: Target, s: State, r: Round): State {
    var m0, batch := AfterDraft(s, r), Inputs(f, s.stream, Verified(r));
    var m1 := Decoded(m0, Written(s.slot, m0, batch));
    var slot := Accepted(Refreshed(batch), r.accepted);
    State(slot, Removed(m1, slot.pendingPos + 1), s.stream + Kept(r))
  }

  function AfterRounds(f: Target, s: State, rs: seq<Round>): State
    decreases |rs|
  {
    if rs == [] then s else AfterRounds(f, AfterRound(f, s, rs[0]), rs[1..])
  }

  predicate Stands(f: Target, s: State) {
    var g := TargetRows(f, s.stream);
    Follows(s.slot, s.stream, g) && Trimmed(s.memory, s.stream, g)
  }

  predicate MemoryHolds(f: Target, s: State) { Holds(s.memory, s.stream, TargetRows(f, s.stream)) }

  /** The token that a rejected draft has left at the open position. */
  datatype Leftover = Free | Stale(token: Token)

  predicate Leaves(s: State, left: Leftover) {
    match left
    case Free => |s.memory.cells| < |s.stream| || s.stream == []
    case Stale(t) => |s.memory.cells| == |s.stream| > 0 && s.memory.cells[|s.stream| - 1].token == t
  }

  function LeftBy(r: Round): Leftover {
    if r.accepted < |r.draft| then Stale(r.draft[r.accepted]) else Free
  }

  lemma RowsAppend(f: Target, ts: seq<Token>, more: seq<Token>)
    ensures TargetRows(f, ts + more) == TargetRows(f, ts) + Rows(Inputs(f, ts, more))
            && Tokens(Inputs(f, ts, more)) == more
  {
    var all := ts + more;
    forall p | 0 <= p < |all|
      ensures TargetRows(f, all)[p] == (TargetRows(f, ts) + Rows(Inputs(f, ts, more)))[p]
    {
      if p < |ts| {
        assert all[..p + 1] == ts[..p + 1];
      } else {
        assert all[..p + 1] == ts + more[..p - |ts| + 1];
      }
    }
  }

  /** Seeding puts the freshest token at the open position and changes nothing below it. */
  lemma DraftSeeds(f: Target, s: State, r: Round)
    requires Stands(f, s)
    ensures var m := AfterDraft(s, r);
            Trimmed(m, s.stream, TargetRows(f, s.stream))
            && (r.drafted ==> Expects(m, s.stream, r.idLast))
            && (!r.drafted ==> m == s.memory)
            && (Holds(m, s.stream, TargetRows(f, s.stream)) <==> MemoryHolds(f, s))
  {
    if r.drafted && s.stream != [] {
      var n := |s.stream| - 1;
      assert Removed(s.memory, n).cells == s.memory.cells[..n];
      var m := AfterDraft(s, r);
      assert m.cells == s.memory.cells[..n] + [Cell(r.idLast, s.slot.pendingG)];
      assert forall p :: 0 <= p < n ==> m.cells[p] == s.memory.cells[p];
    }
  }

  lemma KeptRows(f: Target, ts: seq<Token>, all: seq<Token>, kept: seq<Token>)
    requires kept <= all
    ensures TargetRows(f, ts + kept) == TargetRows(f, ts + all)[..|ts + kept|]
  {
    forall p | 0 <= p < |ts + kept|
      ensures TargetRows(f, ts + kept)[p] == TargetRows(f, ts + all)[p]
    {
      assert (ts + kept)[..p + 1] == (ts + all)[..p + 1];
    }
  }

  /** A memory extended to a longer stream and cut back: its own cells, and behind them the pairs of the stream. */
  lemma CutBack(m: Memory, ts: seq<Token>, all: seq<Token>, g: seq<Row>, n: nat)
    requires |g| == |all| && ts <= all && |ts| < n <= |all| && Trimmed(m, ts, g[..|ts|])
    ensures var m' := Removed(Extended(m, all, g), n);
            && Trimmed(m', all[..n], g[..n])
            && |m'.cells| == (if n < |all| then n else n - 1)
            && forall p :: 0 <= p < |m'.cells| ==>
               m'.cells[p] == if p < |m.cells| then m.cells[p] else Cell(all[p + 1], g[p])
  {
    var x, k := Extended(m, all, g), |m.cells|;
    assert |x.cells| == |all| - 1;
    forall p | 0 <= p < |x.cells|
      ensures x.cells[p] == if p < k then m.cells[p] else Cell(all[p + 1], g[p])
    {
    }
    var m' := Removed(x, n);
    assert m'.cells == x.cells[..if n < |all| then n else n - 1];
  }

  function Whole(s: State, r: Round): seq<Token> { s.stream + Verified(r) }

  function KeptLength(s: State, r: Round): (n: nat)
    ensures |s.stream| < n <= |Whole(s, r)|
  {
    |s.stream| + |Kept(r)|
  }

  lemma AcceptedForm(batch: seq<Input>, base: nat, n: nat)
    requires batch != [] && batch[0].pos == base
    ensures var k := if n < |batch| - 1 then n else |batch| - 1;
            Accepted(Refreshed(batch), n).pendingPos == base + k && Accepted(Refreshed(batch), n).pendingG == batch[k].g
  {
  }

  lemma WholeRows(f: Target, s: State, r: Round)
    ensures TargetRows(f, Whole(s, r))[..|s.stream|] == TargetRows(f, s.stream)
    ensures s.stream + Kept(r) == Whole(s, r)[..KeptLength(s, r)]
    ensures TargetRows(f, s.stream + Kept(r)) == TargetRows(f, Whole(s, r))[..KeptLength(s, r)]
  {
    RowsAppend(f, s.stream, Verified(r));
    KeptRows(f, s.stream, Verified(r), Kept(r));
    assert s.stream + Kept(r) == Whole(s, r)[..KeptLength(s, r)];
  }

  function BatchOf(f: Target, s: State, r: Round): (batch: seq<Input>)
    ensures batch != []
  {
    Inputs(f, s.stream, Verified(r))
  }

  lemma RoundMemory(f: Target, s: State, r: Round)
    requires Stands(f, s)
    ensures var m0, all := AfterDraft(s, r), Whole(s, r);
            Decoded(m0, Written(s.slot, m0, BatchOf(f, s, r))) == Extended(m0, all, TargetRows(f, all))
  {
    DraftSeeds(f, s, r);
    RowsAppend(f, s.stream, Verified(r));
    ProcessExtends(s.slot, AfterDraft(s, r), s.stream, TargetRows(f, s.stream), BatchOf(f, s, r));
  }

  lemma RoundSlot(f: Target, s: State, r: Round)
    ensures var slot, all, n := Accepted(Refreshed(BatchOf(f, s, r)), r.accepted), Whole(s, r), KeptLength(s, r);
            slot.pendingPos == n - 1 && slot.pendingG == TargetRows(f, all)[n - 1]
  {
    AcceptedForm(BatchOf(f, s, r), |s.stream|, r.accepted);
    RowAt(f, s.stream, Verified(r), |Kept(r)| - 1);
  }

  /** The row of a token in a batch is its row in the longer stream. */
  lemma RowAt(f: Target, ts: seq<Token>, more: seq<Token>, k: nat)
    requires k < |more|
    ensures Inputs(f, ts, more)[k].g == TargetRows(f, ts + more)[|ts| + k]
  {
    assert ts + more[..k + 1] == (ts + more)[..|ts| + k + 1];
  }

  /** What a round computes, without its batch: the memory, the open boundary and the stream. */
  predicate IsCut(f: Target, t: State, m: Memory, all: seq<Token>, n: nat) {
    && 0 < n <= |all| && t.memory == Removed(Extended(m, all, TargetRows(f, all)), n)
    && t.slot.pendingPos == n - 1 && t.slot.pendingG == TargetRows(f, all)[n - 1]
    && t.stream == all[..n] && TargetRows(f, t.stream) == TargetRows(f, all)[..n]
  }

  lemma RoundForm(f: Target, s: State, r: Round)
    requires Stands(f, s)
    ensures IsCut(f, AfterRound(f, s, r), AfterDraft(s, r), Whole(s, r), KeptLength(s, r))
  {
    RoundMemory(f, s, r);
    RoundSlot(f, s, r);
    WholeRows(f, s, r);
    CutForm(f, s, r, BatchOf(f, s, r), AfterDraft(s, r));
  }

  lemma CutForm(f: Target, s: State, r: Round, batch: seq<Input>, m0: Memory)
    requires batch != [] && batch == BatchOf(f, s, r) && m0 == AfterDraft(s, r)
    requires Decoded(m0, Written(s.slot, m0, batch)) == Extended(m0, Whole(s, r), TargetRows(f, Whole(s, r)))
    requires Accepted(Refreshed(batch), r.accepted).pendingPos == KeptLength(s, r) - 1
    ensures var t := AfterRound(f, s, r);
            && t.memory == Removed(Extended(m0, Whole(s, r), TargetRows(f, Whole(s, r))), KeptLength(s, r))
            && t.slot == Accepted(Refreshed(batch), r.accepted) && t.stream == s.stream + Kept(r)
  {
  }

  lemma CutStands(f: Target, t: State, m: Memory, ts: seq<Token>, all: seq<Token>, n: nat)
    requires IsCut(f, t, m, all, n) && ts <= all && |ts| < n && Trimmed(m, ts, TargetRows(f, all)[..|ts|])
    ensures Stands(f, t) && |t.memory.cells| == if n < |all| then n else n - 1
    ensures forall p :: |m.cells| <= p < |t.memory.cells| ==> t.memory.cells[p].token == all[p + 1]
  {
    CutBack(m, ts, all, TargetRows(f, all), n);
  }

  /** A round keeps the state in step with the stream, and leaves a rejected token at the open position. */
  lemma RoundStands(f: Target, s: State, r: Round)
    requires Stands(f, s)
    ensures Stands(f, AfterRound(f, s, r)) && Leaves(AfterRound(f, s, r), LeftBy(r))
  {
    RoundForm(f, s, r);
    DraftSeeds(f, s, r);
    WholeRows(f, s, r);
    RoundStandsFrom(f, s, r, AfterRound(f, s, r), AfterDraft(s, r));
  }

  lemma RoundStandsFrom(f: Target, s: State, r: Round, t: State, m0: Memory)
    requires m0 == AfterDraft(s, r) && IsCut(f, t, m0, Whole(s, r), KeptLength(s, r))
    requires Trimmed(m0, s.stream, TargetRows(f, Whole(s, r))[..|s.stream|])
    ensures Stands(f, t) && Leaves(t, LeftBy(r))
  {
    CutStands(f, t, m0, s.stream, Whole(s, r), KeptLength(s, r));
    CutBackLeaves(s, r, t);
  }

  lemma CutBackLeaves(s: State, r: Round, t: State)
    requires t.stream == Whole(s, r)[..KeptLength(s, r)] && |AfterDraft(s, r).cells| <= |s.stream|
    requires |t.memory.cells| == if KeptLength(s, r) < |Whole(s, r)| then KeptLength(s, r) else KeptLength(s, r) - 1
    requires forall p :: |AfterDraft(s, r).cells| <= p < |t.memory.cells| ==>
               t.memory.cells[p].token == Whole(s, r)[p + 1]
    ensures Leaves(t, LeftBy(r))
  {
    if r.accepted < |r.draft| {
      assert t.memory.cells[KeptLength(s, r) - 1].token == Whole(s, r)[KeptLength(s, r)];
    }
  }

  lemma CutBackHolds(m: Memory, ts: seq<Token>, all: seq<Token>, g: seq<Row>, n: nat)
    requires |g| == |all| && ts <= all && |ts| < n <= |all| && Trimmed(m, ts, g[..|ts|])
    ensures |all[..n]| - 1 <= |Removed(Extended(m, all, g), n).cells|
    ensures Holds(Removed(Extended(m, all, g), n), all[..n], g[..n])
            <==> Holds(m, ts, g[..|ts|]) && Expects(m, ts, all[|ts|])
  {
    CutBack(m, ts, all, g, n);
    HoldsIff(m, ts, Removed(Extended(m, all, g), n), all[..n], g[..n]);
  }

  /**
    A round keeps the memory right exactly if this drafter drafted in it, or nothing is left at the open position
    that differs from the round's first token.
  */
  lemma RoundHoldsIff(f: Target, s: State, r: Round)
    requires Stands(f, s)
    ensures MemoryHolds(f, AfterRound(f, s, r))
            <==> MemoryHolds(f, s) && (r.drafted || Expects(s.memory, s.stream, r.idLast))
  {
    RoundForm(f, s, r);
    DraftSeeds(f, s, r);
    WholeRows(f, s, r);
    assert Whole(s, r)[|s.stream|] == r.idLast;
    CutBackHolds(AfterDraft(s, r), s.stream, Whole(s, r), TargetRows(f, Whole(s, r)), KeptLength(s, r));
  }

  /** The longer memory holds the longer stream exactly if the shorter one did and expected the next token. */
  lemma HoldsIff(m: Memory, ts: seq<Token>, m': Memory, ts': seq<Token>, g: seq<Row>)
    requires |g| == |ts'| && |ts| < |ts'| && ts <= ts' && Trimmed(m, ts, g[..|ts|])
    requires |ts'| - 1 <= |m'.cells|
    requires forall p :: 0 <= p < |ts'| - 1 ==>
               m'.cells[p] == if p < |m.cells| then m.cells[p] else Cell(ts'[p + 1], g[p])
    ensures Holds(m', ts', g) <==> Holds(m, ts, g[..|ts|]) && Expects(m, ts, ts'[|ts|])
  {
    if Holds(m', ts', g) {
      forall p | 0 <= p < |ts| - 1
        ensures m.cells[p] == Cell(ts[p + 1], g[p])
      {
        assert m'.cells[p] == Cell(ts'[p + 1], g[p]);
      }
      if ts != [] && |m.cells| == |ts| {
        assert m'.cells[|ts| - 1] == Cell(ts'[|ts|], g[|ts| - 1]);
      }
    }
  }

  /** Over the rounds alone: whoever does not draft finds the open position free, or finds the token that comes next. */
  predicate Sound(rs: seq<Round>, left: Leftover) {
    if rs == [] then true
    else (rs[0].drafted || left == Free || left == Stale(rs[0].idLast)) && Sound(rs[1..], LeftBy(rs[0]))
  }

  /**
    However a stream is cut into rounds, drafted and rolled back: at the end the memory holds (token[P + 1], g[P])
    at every P below the open position exactly if no round without a draft followed a rejection by another token.
  */
  lemma {:induction false} RunHoldsIff(f: Target, s: State, rs: seq<Round>, left: Leftover)
    requires Stands(f, s) && MemoryHolds(f, s) && Leaves(s, left)
    ensures Stands(f, AfterRounds(f, s, rs))
    ensures MemoryHolds(f, AfterRounds(f, s, rs)) <==> Sound(rs, left)
    decreases |rs|
  {
    if rs != [] {
      var t := AfterRound(f, s, rs[0]);
      RoundStands(f, s, rs[0]);
      RoundHoldsIff(f, s, rs[0]);
      if MemoryHolds(f, t) {
        RunHoldsIff(f, t, rs[1..], LeftBy(rs[0]));
      } else {
        NeverMended(f, t, rs[1..]);
      }
    }
  }

  lemma {:induction false} NeverMended(f: Target, s: State, rs: seq<Round>)
    requires Stands(f, s) && !MemoryHolds(f, s)
    ensures Stands(f, AfterRounds(f, s, rs)) && !MemoryHolds(f, AfterRounds(f, s, rs))
    decreases |rs|
  {
    if rs != [] {
      RoundStands(f, s, rs[0]);
      RoundHoldsIff(f, s, rs[0]);
      NeverMended(f, AfterRound(f, s, rs[0]), rs[1..]);
    }
  }

  /**
    The shortest run that fails: the drafted token x is rejected, and the next round is not drafted here and starts
    with y. Below the open position the memory then has x where the stream has y.
  */
  lemma StaleTokenStays(f: Target, s: State, first: Token, x: Token, y: Token)
    requires s.stream == [] && s.memory == Memory(0, []) && s.slot.pendingPos == -1 && x != y
    ensures var t := AfterRounds(f, s, [Round(true, first, [x], 0), Round(false, y, [], 0)]);
            !MemoryHolds(f, t) && t.stream == [first, y] && t.memory.cells == [Cell(x, f([first]))]
  {
    var r1, r2 := Round(true, first, [x], 0), Round(false, y, [], 0);
    FirstRound(f, s, first, x);
    SecondRound(f, AfterRound(f, s, r1), first, x, y);
    TwoRounds(f, s, r1, r2);
    WrongCell(f, AfterRound(f, AfterRound(f, s, r1), r2), first, x, y);
  }

  lemma TwoRounds(f: Target, s: State, r1: Round, r2: Round)
    ensures AfterRounds(f, s, [r1, r2]) == AfterRound(f, AfterRound(f, s, r1), r2)
  {
    assert [r1, r2][1..] == [r2] && [r2][1..] == [];
    assert AfterRounds(f, AfterRound(f, s, r1), [r2]) == AfterRounds(f, AfterRound(f, AfterRound(f, s, r1), r2), []);
  }

  lemma WrongCell(f: Target, t: State, first: Token, x: Token, y: Token)
    requires t.stream == [first, y] && t.memory.cells == [Cell(x, f([first]))] && x != y
    ensures !MemoryHolds(f, t)
  {
    assert t.memory.cells[0].token != t.stream[1];
  }

  lemma FirstRound(f: Target, s: State, first: Token, x: Token)
    requires s.stream == [] && s.memory == Memory(0, []) && s.slot.pendingPos == -1
    ensures var u := AfterRound(f, s, Round(true, first, [x], 0));
            u.stream == [first] && u.memory == Memory(0, [Cell(x, f([first]))]) && u.slot.pendingPos == 0
  {
    var r := Round(true, first, [x], 0);
    var batch := Inputs(f, [], [first, x]);
    assert Verified(r) == [first, x] && [] + [first, x][..1] == [first] && [] + [first] == [first];
    assert batch[0] == Input(first, 0, f([first])) && batch[1].pos == 1;
    assert Written(s.slot, s.memory, batch) == [Entry(0, Cell(x, f([first])))];
    assert Decoded(s.memory, Written(s.slot, s.memory, batch)) == Memory(0, [Cell(x, f([first]))]);
  }

  lemma SecondRound(f: Target, u: State, first: Token, x: Token, y: Token)
    requires u.stream == [first] && u.memory == Memory(0, [Cell(x, f([first]))]) && u.slot.pendingPos == 0
    ensures var t := AfterRound(f, u, Round(false, y, [], 0));
            t.stream == [first, y] && t.memory == u.memory
  {
    var r := Round(false, y, [], 0);
    assert Verified(r) == [y] && Kept(r) == [y];
    var batch := Inputs(f, [first], [y]);
    assert Written(u.slot, u.memory, batch) == [];
    assert Accepted(Refreshed(batch), 0).pendingPos == 1;
  }

  /** A fresh sequence, and a draft in every round: the memory is always right. */
  lemma AlwaysDrafted(f: Target, s: State, rs: seq<Round>)
    requires s.stream == [] && s.memory.cells == [] && s.slot.pendingPos == -1
    requires forall i :: 0 <= i < |rs| ==> rs[i].drafted
    ensures MemoryHolds(f, AfterRounds(f, s, rs))
  {
    AllDraftedSound(rs, Free);
    RunHoldsIff(f, s, rs, Free);
  }

  lemma {:induction false} AllDraftedSound(rs: seq<Round>, left: Leftover)
    requires forall i :: 0 <= i < |rs| ==> rs[i].drafted
    ensures Sound(rs, left)
    decreases |rs|
  {
    if rs != [] {
      AllDraftedSound(rs[1..], LeftBy(rs[0]));
    }
  }
}

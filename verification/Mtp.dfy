/**
  The MTP drafter of common/speculative.cpp with one head and a memory of its own: at every position it holds the
  token there and the target's row of the position before, however the tokens came.
 */
module Mtp {
  import opened Hiding
  import opened Eagle3
  import opened Eagle3Context

  /** The rows shifted to the right by one position, the pending row first. */
  function ShiftedRight(pendingH: Row, ts: seq<Input>): (entries: seq<Entry>)
    ensures |entries| == |ts|
  {
    seq(|ts|, k requires 0 <= k < |ts| => Entry(ts[k].pos, Cell(ts[k].token, if k == 0 then pendingH else ts[k - 1].g)))
  }

  datatype Verify = Verify(pendingH: Row, rows: seq<Row>)

  function RefreshedH(v: Verify, ts: seq<Input>): Verify {
    if ts == [] then v else Verify(ts[|ts| - 1].g, Rows(ts))
  }

  function AcceptedH(v: Verify, n: nat): Verify {
    if v.rows == [] then v else v.(pendingH := v.rows[if n < |v.rows| - 1 then n else |v.rows| - 1])
  }

  /** The row that goes with position p: the target's row before it, or the row of the fresh state. */
  function RowBefore(zero: Row, h: seq<Row>, p: nat): Row
    requires p <= |h|
  {
    if p == 0 then zero else h[p - 1]
  }

  /** The memory holds (token[p], h[p - 1]) at every position, and the pending row is the last one. */
  predicate Holds(v: Verify, m: Memory, zero: Row, ts: seq<Token>, h: seq<Row>) {
    && |h| == |ts| == |m.cells| && (ts != [] ==> m.start == 0) && v.pendingH == RowBefore(zero, h, |h|)
    && forall p :: 0 <= p < |ts| ==> m.cells[p] == Cell(ts[p], RowBefore(zero, h, p))
  }

  /** A batch keeps it so, over the longer stream. */
  lemma ProcessKeeps(v: Verify, m: Memory, zero: Row, ts: seq<Token>, h: seq<Row>, batch: seq<Input>)
    requires Holds(v, m, zero, ts, h) && Continues(ts, batch)
    ensures var entries := ShiftedRight(v.pendingH, batch);
            Fits(m, entries)
                && Holds(RefreshedH(v, batch), Decoded(m, entries), zero, ts + Tokens(batch), h + Rows(batch))
  {
    var entries := ShiftedRight(v.pendingH, batch);
    var ts', h', m' := ts + Tokens(batch), h + Rows(batch), Decoded(m, entries);
    forall p | 0 <= p < |ts'|
      ensures m'.cells[p] == Cell(ts'[p], RowBefore(zero, h', p))
    {
      if p >= |ts| {
        assert m'.cells[p] == entries[p - |ts|].cell;
      } else {
        assert m'.cells[p] == m.cells[p];
      }
    }
  }

  /** The memory is determined by the stream. */
  lemma HoldsUnique(v: Verify, m: Memory, v': Verify, m': Memory, zero: Row, ts: seq<Token>, h: seq<Row>)
    requires Holds(v, m, zero, ts, h) && Holds(v', m', zero, ts, h) && ts != []
    ensures m == m' && v.pendingH == v'.pendingH
  {
    assert m.cells == m'.cells;
  }

  /** However a stream is cut into two batches, the memory and the pending row come out the same. */
  lemma ProcessSplit(v: Verify, m: Memory, zero: Row, ts: seq<Token>, h: seq<Row>, a: seq<Input>, b: seq<Input>)
    requires Holds(v, m, zero, ts, h) && Continues(ts, a) && Continues(ts + Tokens(a), b)
    ensures var m1, v1 := Decoded(m, ShiftedRight(v.pendingH, a)), RefreshedH(v, a);
            && Decoded(m1, ShiftedRight(v1.pendingH, b)) == Decoded(m, ShiftedRight(v.pendingH, a + b))
            && RefreshedH(v1, b).pendingH == RefreshedH(v, a + b).pendingH
  {
    var m1, v1 := Decoded(m, ShiftedRight(v.pendingH, a)), RefreshedH(v, a);
    ProcessKeeps(v, m, zero, ts, h, a);
    ProcessKeeps(v1, m1, zero, ts + Tokens(a), h + Rows(a), b);
    ProcessKeeps(v, m, zero, ts, h, a + b);
    SplitStream(ts, h, a, b);
    HoldsUnique(RefreshedH(v1, b), Decoded(m1, ShiftedRight(v1.pendingH, b)), RefreshedH(v, a + b),
        Decoded(m, ShiftedRight(v.pendingH, a + b)),
                zero, ts + Tokens(a + b), h + Rows(a + b));
  }

  lemma SplitStream(ts: seq<Token>, h: seq<Row>, a: seq<Input>, b: seq<Input>)
    ensures ts + Tokens(a) + Tokens(b) == ts + Tokens(a + b) && h + Rows(a) + Rows(b) == h + Rows(a + b)
  {
  }

  // ---- runs ----

  datatype MtpState = MtpState(verify: Verify, memory: Memory, stream: seq<Token>)

  predicate Keeps(f: Target, zero: Row, s: MtpState) {
    Holds(s.verify, s.memory, zero, s.stream, TargetRows(f, s.stream))
  }

  /** A draft of any length at the end of the memory, removed again before the batch. */
  function AfterDraft(s: MtpState, drafted: seq<Entry>): Memory { Removed(Decoded(s.memory, drafted), |s.stream|) }

  /** A round: a draft, a batch with the last token and the drafted ones, and what follows the accepted ones removed. */
  function AfterRound(f: Target, s: MtpState, drafted: seq<Entry>, r: Round): MtpState {
    var batch, n := Inputs(f, s.stream, Verified(r)), |s.stream| + |Kept(r)|;
    var m := Decoded(AfterDraft(s, drafted), ShiftedRight(s.verify.pendingH, batch));
    MtpState(AcceptedH(RefreshedH(s.verify, batch), r.accepted), Removed(m, n), s.stream + Kept(r))
  }

  predicate IsDrafted(s: MtpState, drafted: seq<Entry>) {
    Fits(s.memory, drafted) && (drafted != [] ==> drafted[0].pos == |s.stream|)
  }

  lemma DraftRemoved(f: Target, zero: Row, s: MtpState, drafted: seq<Entry>)
    requires Keeps(f, zero, s) && IsDrafted(s, drafted)
    ensures AfterDraft(s, drafted).cells == s.memory.cells && (s.stream != [] ==> AfterDraft(s, drafted) == s.memory)
  {
  }

  lemma KeptOf(v: Verify, m: Memory, zero: Row, ts: seq<Token>, h: seq<Row>, n: nat, row: Row)
    requires Holds(v, m, zero, ts, h) && 0 < n <= |ts| && row == h[n - 1]
    ensures Holds(Verify(row, v.rows), Removed(m, n), zero, ts[..n], h[..n])
  {
  }

  lemma KeptRow(f: Target, s: MtpState, r: Round)
    ensures var batch, all, n := Inputs(f, s.stream, Verified(r)), s.stream + Verified(r), |s.stream| + |Kept(r)|;
            && AcceptedH(RefreshedH(s.verify, batch), r.accepted).pendingH == TargetRows(f, all)[n - 1]
            && s.stream + Kept(r) == all[..n] && TargetRows(f, s.stream + Kept(r)) == TargetRows(f, all)[..n]
  {
    var batch, all, n := Inputs(f, s.stream, Verified(r)), s.stream + Verified(r), |s.stream| + |Kept(r)|;
    assert s.stream + Verified(r)[..|Kept(r)|] == all[..n];
    KeptRows(f, s.stream, Verified(r), Kept(r));
    assert Rows(batch)[|Kept(r)| - 1] == TargetRows(f, all)[n - 1];
  }

  ghost predicate Right(v: Verify, m: Memory, zero: Row, ts: seq<Token>, h: seq<Row>) {
    forall k {:trigger Open(k)} :: Open(k) ==> Holds(v, m, zero, ts, h)
  }

  function BatchOf(f: Target, s: MtpState, r: Round): seq<Input> { Inputs(f, s.stream, Verified(r)) }

  function MemoryOf(f: Target, s: MtpState, drafted: seq<Entry>, r: Round): Memory {
    Decoded(AfterDraft(s, drafted), ShiftedRight(s.verify.pendingH, BatchOf(f, s, r)))
  }

  /** The batch of a round, behind a draft that has been removed. */
  lemma BatchRight(f: Target, zero: Row, s: MtpState, drafted: seq<Entry>, r: Round)
    requires Keeps(f, zero, s) && IsDrafted(s, drafted)
    ensures var all := s.stream + Verified(r);
            Right(RefreshedH(s.verify, BatchOf(f, s, r)), MemoryOf(f, s, drafted, r), zero, all, TargetRows(f, all))
  {
    DraftRemoved(f, zero, s, drafted);
    ProcessKeeps(s.verify, AfterDraft(s, drafted), zero, s.stream, TargetRows(f, s.stream), BatchOf(f, s, r));
    RowsAppend(f, s.stream, Verified(r));
  }

  /** What is kept of a memory that is right, with the row of the last kept token. */
  lemma CutRight(v: Verify, m: Memory, zero: Row, all: seq<Token>, rows: seq<Row>, n: nat, v': Verify,
                 ts: seq<Token>, h: seq<Row>)
    requires Right(v, m, zero, all, rows) && 0 < n <= |all| == |rows|
    requires v'.pendingH == rows[n - 1] && ts == all[..n] && h == rows[..n]
    ensures Holds(v', Removed(m, n), zero, ts, h)
  {
    assert Open(0);
    KeptOf(v, m, zero, all, rows, n, rows[n - 1]);
  }

  /** Every round keeps the memory right, drafted or not, accepted in full or in part. */
  lemma RoundKeeps(f: Target, zero: Row, s: MtpState, drafted: seq<Entry>, r: Round)
    requires Keeps(f, zero, s) && IsDrafted(s, drafted)
    ensures Keeps(f, zero, AfterRound(f, s, drafted, r))
  {
    BatchRight(f, zero, s, drafted, r);
    RoundRight(f, zero, s, drafted, r, s.stream + Verified(r));
    StateKeeps(f, zero, AfterRound(f, s, drafted, r));
  }

  lemma RoundRight(f: Target, zero: Row, s: MtpState, drafted: seq<Entry>, r: Round, all: seq<Token>)
    requires all == s.stream + Verified(r)
    requires Right(RefreshedH(s.verify, BatchOf(f, s, r)), MemoryOf(f, s, drafted, r), zero, all, TargetRows(f, all))
    ensures var t := AfterRound(f, s, drafted, r);
            Right(t.verify, t.memory, zero, t.stream, TargetRows(f, t.stream))
  {
    RoundFacts(f, s, drafted, r);
    CutState(f, zero, RefreshedH(s.verify, BatchOf(f, s, r)), MemoryOf(f, s, drafted, r), all,
        |s.stream| + |Kept(r)|, AfterRound(f, s, drafted, r));
  }

  lemma StateKeeps(f: Target, zero: Row, t: MtpState)
    requires Right(t.verify, t.memory, zero, t.stream, TargetRows(f, t.stream))
    ensures Keeps(f, zero, t)
  {
    assert Open(0);
  }

  /** What is left after a round, in terms of the batch. */
  lemma RoundFacts(f: Target, s: MtpState, drafted: seq<Entry>, r: Round)
    ensures var t, all, n := AfterRound(f, s, drafted, r), s.stream + Verified(r), |s.stream| + |Kept(r)|;
            && 0 < n <= |all| && t.memory == Removed(MemoryOf(f, s, drafted, r), n) && t.stream == all[..n]
            && t.verify.pendingH == TargetRows(f, all)[n - 1]
            && TargetRows(f, t.stream) == TargetRows(f, all)[..n]
  {
    KeptRow(f, s, r);
  }

  lemma CutState(f: Target, zero: Row, v: Verify, m: Memory, all: seq<Token>, n: nat, t: MtpState)
    requires Right(v, m, zero, all, TargetRows(f, all)) && 0 < n <= |all|
    requires t.memory == Removed(m, n) && t.stream == all[..n] && t.verify.pendingH == TargetRows(f, all)[n - 1]
    requires TargetRows(f, t.stream) == TargetRows(f, all)[..n]
    ensures Right(t.verify, t.memory, zero, t.stream, TargetRows(f, t.stream))
  {
    CutRight(v, m, zero, all, TargetRows(f, all), n, t.verify, t.stream, TargetRows(f, t.stream));
  }

  datatype Turn = Turn(drafted: seq<Entry>, round: Round)

  ghost predicate IsRun(f: Target, s: MtpState, turns: seq<Turn>)
    decreases |turns|
  {
    turns == [] || (IsDrafted(s, turns[0].drafted)
        && IsRun(f, AfterRound(f, s, turns[0].drafted, turns[0].round), turns[1..]))
  }

  function AfterRun(f: Target, s: MtpState, turns: seq<Turn>): MtpState
    decreases |turns|
  {
    if turns == [] then s else AfterRun(f, AfterRound(f, s, turns[0].drafted, turns[0].round), turns[1..])
  }

  /** After any run the memory holds (token[p], h[p - 1]) at every position of the stream. */
  lemma {:induction false} RunKeeps(f: Target, zero: Row, s: MtpState, turns: seq<Turn>)
    requires Keeps(f, zero, s) && IsRun(f, s, turns)
    ensures Keeps(f, zero, AfterRun(f, s, turns))
    decreases |turns|
  {
    if turns != [] {
      RoundKeeps(f, zero, s, turns[0].drafted, turns[0].round);
      RunKeeps(f, zero, AfterRound(f, s, turns[0].drafted, turns[0].round), turns[1..]);
    }
  }

  // ---- several sequences in one batch ----

  function EntrySlice(out: seq<Outgoing>, beg: nat, end: nat): (entries: seq<Entry>)
    requires beg <= end <= |out|
    ensures |entries| == end - beg
  {
    seq(end - beg, k requires 0 <= k < end - beg => out[beg + k].entry)
  }

  lemma {:induction false} EntriesSlice(out: seq<Outgoing>, n: nat, s: nat, beg: nat, end: nat)
    requires beg <= end <= n <= |out|
    requires forall k :: 0 <= k < n ==> (out[k].seqId == s <==> beg <= k < end)
    ensures EntriesOf(out[..n], s) == EntrySlice(out, beg, end)
    decreases n
  {
    if n > 0 {
      assert out[..n][..n - 1] == out[..n - 1];
      if end == n && beg < end {
        EntriesSlice(out, n - 1, s, beg, end - 1);
        assert EntrySlice(out, beg, end) == EntrySlice(out, beg, end - 1) + [out[n - 1].entry];
      } else if beg == end {
        EntriesSlice(out, n - 1, s, 0, 0);
      } else {
        EntriesSlice(out, n - 1, s, beg, end);
      }
    }
  }

  lemma SpanExact(batch: seq<Incoming>, s: int, beg: int, end: int)
    requires Contiguous(batch) && Spans(batch, |batch|, s, beg, end)
    ensures forall k :: 0 <= k < |batch| ==> (batch[k].seqId == s <==> beg >= 0 && beg <= k < end + 1)
  {
    forall k | 0 <= k < |batch| && beg >= 0 && beg < k < end
      ensures batch[k].seqId == s
    {
      assert batch[beg].seqId == batch[end].seqId;
    }
  }

  /** The batch with the rows of embd. */
  function WithRows(batch: seq<Incoming>, embd: seq<Row>): (out: seq<Outgoing>)
    requires |embd| == |batch|
    ensures |out| == |batch|
  {
    seq(|batch|,
        k requires 0 <= k < |batch| => Outgoing(batch[k].seqId, Entry(batch[k].pos, Cell(batch[k].token, embd[k]))))
  }

  /** The rows of embd that belong to s: its pending row at its first token, the row before at the others. */
  predicate RowsFor(embd: seq<Row>, h: seq<Row>, pendingH: Row, beg: int, end: int)
    requires |embd| == |h| && end < |h|
  {
    beg >= 0 ==> forall k :: beg <= k <= end ==> embd[k] == if k == beg then pendingH else h[k - 1]
  }

  lemma RowsGive(batch: seq<Incoming>, h: seq<Row>, embd: seq<Row>, s: nat, beg: int, end: int, pendingH: Row)
    requires |embd| == |h| == |batch|
    requires Contiguous(batch) && Spans(batch, |batch|, s, beg, end) && RowsFor(embd, h, pendingH, beg, end)
    ensures EntriesOf(WithRows(batch, embd), s) == ShiftedRight(pendingH, Of(batch, h, s))
  {
    var out := WithRows(batch, embd);
    SpanExact(batch, s, beg, end);
    SpansSlice(batch, h, s, beg, end);
    assert out[..|batch|] == out;
    if beg < 0 {
      EntriesSlice(out, |batch|, s, 0, 0);
    } else {
      EntriesSlice(out, |batch|, s, beg, end + 1);
      SliceShifted(batch, h, embd, beg, end, pendingH);
    }
  }

  lemma SliceShifted(batch: seq<Incoming>, h: seq<Row>, embd: seq<Row>, beg: nat, end: nat, pendingH: Row)
    requires |embd| == |h| == |batch| && beg <= end < |h|
    requires RowsFor(embd, h, pendingH, beg, end)
    ensures EntrySlice(WithRows(batch, embd), beg, end + 1) == ShiftedRight(pendingH, Slice(batch, h, beg, end + 1))
  {
    var a, b := EntrySlice(WithRows(batch, embd), beg, end + 1), ShiftedRight(pendingH, Slice(batch, h, beg, end + 1));
    forall k | 0 <= k < |a|
      ensures a[k] == b[k]
    {
      var row := if k == 0 then pendingH else h[beg + k - 1];
      assert embd[beg + k] == row;
      ShiftedAt(batch, h, beg, end, k, pendingH);
    }
  }

  lemma ShiftedAt(batch: seq<Incoming>, h: seq<Row>, beg: nat, end: nat, k: nat, pendingH: Row)
    requires |h| == |batch| && beg <= beg + k <= end < |h|
    ensures ShiftedRight(pendingH, Slice(batch, h, beg, end + 1))[k]
            == Entry(batch[beg + k].pos, Cell(batch[beg + k].token, if k == 0 then pendingH else h[beg + k - 1]))
  {
    var ts := Slice(batch, h, beg, end + 1);
    var j, i := beg + k, beg + k - 1;
    assert ts[k] == Input(batch[j].token, batch[j].pos, h[j]);
    if k > 0 {
      assert ts[k - 1].g == h[i];
    }
  }

  class MtpDrafter {
    const nSeq: nat
    var verify: seq<Verify>
    var memory: seq<Memory>

    ghost predicate Valid()
      reads this
    {
      |verify| == |memory| == nSeq
    }

    constructor (nSeq: nat, zero: Row)
      ensures Valid() && this.nSeq == nSeq
      ensures forall s :: 0 <= s < nSeq ==> Keeps(_ => [], zero, MtpState(verify[s], memory[s], []))
    {
      this.nSeq := nSeq;
      verify := seq(nSeq, _ => Verify(zero, []));
      memory := seq(nSeq, _ => Memory(0, []));
    }

    /** The target's rows shifted by one, and each sequence's pending row over the row at its first token. */
    method ShiftRows(batchIn: seq<Incoming>, h: seq<Row>, stale: Row, beg: seq<int>, end: seq<int>)
      returns (embd: seq<Row>)
      requires Valid() && |h| == |batchIn| > 0 && |beg| == nSeq && AllSpan(batchIn, beg, end) && Contiguous(batchIn)
      ensures |embd| == |h| && forall s :: 0 <= s < nSeq ==>
              end[s] < |h| && RowsFor(embd, h, verify[s].pendingH, beg[s], end[s])
    {
      assert Open(0);
      embd := [stale] + h[..|h| - 1];
      var s := 0;
      while s < nSeq
        invariant 0 <= s <= nSeq && |embd| == |h|
        invariant forall k :: 0 < k < |h| && !(0 <= batchIn[k].seqId < s && k == beg[batchIn[k].seqId]) ==>
                    embd[k] == h[k - 1]
        invariant forall t :: 0 <= t < s && beg[t] >= 0 ==> embd[beg[t]] == verify[t].pendingH
      {
        if beg[s] >= 0 {
          embd := embd[beg[s] := verify[s].pendingH];
        }
        s := s + 1;
      }
      forall t | 0 <= t < nSeq
        ensures end[t] < |h| && RowsFor(embd, h, verify[t].pendingH, beg[t], end[t])
      {
        SpanExact(batchIn, t, beg[t], end[t]);
      }
    }

    /** `lhm_decode`; whether it takes tokens of sequences that the drafter does not know is a parameter. */
    method Decode(out: seq<Outgoing>, takesOthers: bool) returns (ok: bool)
      requires Valid()
      modifies `memory
      ensures Valid() && ok == (AllFit(old(memory), out) && (takesOthers || AllKnown(out)))
      ensures memory == if ok then DecodedAll(old(memory), out) else old(memory)
    {
      ok := AllFit(memory, out) && (takesOthers || AllKnown(out));
      if ok {
        memory := DecodedAll(memory, out);
      }
    }

    predicate AllKnown(out: seq<Outgoing>) { forall k :: 0 <= k < |out| ==> 0 <= out[k].seqId < nSeq }

    /** The loop that keeps the rows of the batch for the verdict. */
    method KeepRows(batchIn: seq<Incoming>, h: seq<Row>, beg: seq<int>, end: seq<int>)
      requires Valid() && |h| == |batchIn| && |beg| == nSeq && AllSpan(batchIn, beg, end) && Contiguous(batchIn)
      modifies `verify
      ensures Valid() && forall s :: 0 <= s < nSeq ==> verify[s] == RefreshedH(old(verify)[s], Of(batchIn, h, s))
    {
      assert Open(0);
      var s := 0;
      while s < nSeq
        invariant 0 <= s <= nSeq && Valid()
        invariant forall t :: 0 <= t < s ==> verify[t] == RefreshedH(old(verify)[t], Of(batchIn, h, t))
        invariant forall t :: s <= t < nSeq ==> verify[t] == old(verify)[t]
      {
        SpansSlice(batchIn, h, s, beg[s], end[s]);
        if end[s] >= 0 {
          var rows := h[beg[s]..end[s] + 1];
          assert rows == Rows(Slice(batchIn, h, beg[s], end[s] + 1));
          verify := verify[s := Verify(rows[|rows| - 1], rows)];
        }
        s := s + 1;
      }
    }

    /**
      `process`: every sequence writes its own tokens with its own rows shifted by one. Tokens of other sequences are
      passed on with the rest and change nothing for those the drafter knows.
     */
    method Process(batchIn: seq<Incoming>, h: seq<Row>, stale: Row, takesOthers: bool)
      returns (ok: bool, ghost out: seq<Outgoing>)
      requires Valid() && |h| == |batchIn| && Contiguous(batchIn)
      modifies this
      ensures Valid() && ok == (AllFit(old(memory), out) && (takesOthers || AllKnown(out)))
      ensures |out| == |batchIn| && forall k :: 0 <= k < |out| ==> out[k].seqId == batchIn[k].seqId
      ensures forall s :: 0 <= s < nSeq ==>
                EntriesOf(out, s) == ShiftedRight(old(verify)[s].pendingH, Of(batchIn, h, s))
      ensures memory == if ok then DecodedAll(old(memory), out) else old(memory)
      ensures forall s :: 0 <= s < nSeq ==>
                verify[s] == if ok then RefreshedH(old(verify)[s], Of(batchIn, h, s)) else old(verify)[s]
    {
      out := [];
      if |batchIn| <= 0 {
        assert DecodedAll(memory, []) == memory;
        return true, [];
      }
      var beg, end := FindSpans(nSeq, batchIn);
      var embd := ShiftRows(batchIn, h, stale, beg, end);
      var batch := WithRows(batchIn, embd);
      out := batch;
      forall s | 0 <= s < nSeq
        ensures EntriesOf(out, s) == ShiftedRight(verify[s].pendingH, Of(batchIn, h, s))
      {
        assert Open(0);
        RowsGive(batchIn, h, embd, s, beg[s], end[s], verify[s].pendingH);
      }
      ok := Decode(batch, takesOthers);
      if !ok {
        return;
      }
      KeepRows(batchIn, h, beg, end);
    }

    /** `lhm_memory_seq_rm`, which the server calls for the draft context. */
    method Remove(s: nat, from: int)
      requires Valid() && s < nSeq
      modifies `memory
      ensures Valid() && memory == old(memory)[s := Removed(old(memory)[s], from)]
    {
      memory := memory[s := Removed(memory[s], from)];
    }

    method Accept(s: int, nAccepted: nat)
      requires Valid()
      modifies `verify
      ensures Valid()
              && verify == if 0 <= s < nSeq then old(verify)[s := AcceptedH(old(verify)[s], nAccepted)] else old(verify)
    {
      if s < 0 || s >= nSeq {
        return;
      }
      var nRows := |verify[s].rows|;
      if nRows <= 0 {
        return;
      }
      var i := if nAccepted < nRows - 1 then nAccepted else nRows - 1;
      verify := verify[s := verify[s].(pendingH := verify[s].rows[i])];
    }
  }
}

/**
  The EAGLE3 drafter of common/speculative.cpp as an object: its vectors are indexed by sequence, and one batch may
  hold the tokens of several sequences.
 */
module Eagle3Context {
  import opened Hiding
  import opened Eagle3
  import opened Eagle3Draft

  datatype Incoming = Incoming(token: Token, pos: int, seqId: int)

  datatype Outgoing = Outgoing(seqId: int, entry: Entry)

  /** The tokens of a sequence stand together, as the server orders them. */
  predicate Contiguous(batch: seq<Incoming>) {
    forall i, j, k :: 0 <= i < j < k < |batch| && batch[i].seqId == batch[k].seqId ==> batch[j].seqId == batch[i].seqId
  }

  /** The tokens of one sequence, with the encoder's rows. */
  function Of(batch: seq<Incoming>, g: seq<Row>, s: int): (ts: seq<Input>)
    requires |g| == |batch|
  {
    if batch == [] then []
    else
      var n := |batch| - 1;
      Of(batch[..n], g[..n], s) + if batch[n].seqId == s then [Input(batch[n].token, batch[n].pos, g[n])] else []
  }

  function EntriesOf(out: seq<Outgoing>, s: nat): (entries: seq<Entry>) {
    if out == [] then []
    else EntriesOf(out[..|out| - 1], s) + if out[|out| - 1].seqId == s then [out[|out| - 1].entry] else []
  }

  lemma EntriesSnoc(out: seq<Outgoing>, o: Outgoing, s: nat)
    ensures EntriesOf(out + [o], s) == EntriesOf(out, s) + if o.seqId == s then [o.entry] else []
  {
    assert (out + [o])[..|out|] == out;
  }

  /** beg and end are the first and the last index of s in the first n tokens of the batch. */
  predicate Spans(batch: seq<Incoming>, n: nat, s: int, beg: int, end: int)
    requires n <= |batch|
  {
    if beg < 0 then beg == -1 && end == -1 && forall k :: 0 <= k < n ==> batch[k].seqId != s
    else beg <= end < n && batch[beg].seqId == s && batch[end].seqId == s
         && forall k :: 0 <= k < n && batch[k].seqId == s ==> beg <= k <= end
  }

  function Slice(batch: seq<Incoming>, g: seq<Row>, beg: nat, end: nat): (ts: seq<Input>)
    requires |g| == |batch| && beg <= end <= |batch|
    ensures |ts| == end - beg
  {
    seq(end - beg, k requires 0 <= k < end - beg => Input(batch[beg + k].token, batch[beg + k].pos, g[beg + k]))
  }

  lemma {:induction false} OfNone(batch: seq<Incoming>, g: seq<Row>, s: int)
    requires |g| == |batch| && forall k :: 0 <= k < |batch| ==> batch[k].seqId != s
    ensures Of(batch, g, s) == []
    decreases |batch|
  {
    if batch != [] {
      OfNone(batch[..|batch| - 1], g[..|batch| - 1], s);
    }
  }

  /** Of tokens that stand together, the sequence's own tokens are the slice between the first and the last. */
  lemma {:induction false} OfSlice(batch: seq<Incoming>, g: seq<Row>, n: nat, s: int, beg: nat, end: nat)
    requires |g| == |batch| && beg <= end <= n <= |batch|
    requires forall k :: 0 <= k < n ==> (batch[k].seqId == s <==> beg <= k < end)
    ensures Of(batch[..n], g[..n], s) == Slice(batch, g, beg, end)
    decreases n
  {
    if n == 0 {
    } else {
      assert batch[..n][..n - 1] == batch[..n - 1] && g[..n][..n - 1] == g[..n - 1];
      if end == n && beg < end {
        OfSlice(batch, g, n - 1, s, beg, end - 1);
        assert Slice(batch, g, beg, end)
            == Slice(batch, g, beg, end - 1) + [Input(batch[n - 1].token, batch[n - 1].pos, g[n - 1])];
      } else if beg == end {
        OfSlice(batch, g, n - 1, s, 0, 0);
      } else {
        OfSlice(batch, g, n - 1, s, beg, end);
      }
    }
  }

  lemma SpansSlice(batch: seq<Incoming>, g: seq<Row>, s: int, beg: int, end: int)
    requires |g| == |batch| && Contiguous(batch) && Spans(batch, |batch|, s, beg, end)
    ensures if beg < 0 then Of(batch, g, s) == [] else Of(batch, g, s) == Slice(batch, g, beg, end + 1)
  {
    assert batch[..|batch|] == batch && g[..|batch|] == g;
    if beg < 0 {
      OfNone(batch, g, s);
    } else {
      forall k | beg <= k < end + 1
        ensures batch[k].seqId == s
      {
        if beg < k < end {
          assert batch[beg].seqId == batch[end].seqId;
        }
      }
      OfSlice(batch, g, |batch|, s, beg, end + 1);
    }
  }

  /** The number of tokens of the sequences below s. */
  function CountBelow(batch: seq<Incoming>, g: seq<Row>, s: nat): nat
    requires |g| == |batch|
  {
    if s == 0 then 0 else CountBelow(batch, g, s - 1) + |Of(batch, g, s - 1)|
  }

  lemma {:induction false} CountSnoc(batch: seq<Incoming>, g: seq<Row>, s: nat)
    requires |g| == |batch| > 0
    ensures var n := |batch| - 1;
            CountBelow(batch, g, s) == CountBelow(batch[..n], g[..n], s) + if 0 <= batch[n].seqId < s then 1 else 0
    decreases s
  {
    if s > 0 {
      CountSnoc(batch, g, s - 1);
    }
  }

  lemma {:induction false} CountAtMost(batch: seq<Incoming>, g: seq<Row>, s: nat)
    requires |g| == |batch|
    ensures CountBelow(batch, g, s) <= |batch|
    decreases |batch|
  {
    if batch == [] {
      CountEmpty(batch, g, s);
    } else {
      CountSnoc(batch, g, s);
      CountAtMost(batch[..|batch| - 1], g[..|batch| - 1], s);
    }
  }

  lemma {:induction false} CountEmpty(batch: seq<Incoming>, g: seq<Row>, s: nat)
    requires batch == [] && g == []
    ensures CountBelow(batch, g, s) == 0
    decreases s
  {
    if s > 0 {
      CountEmpty(batch, g, s - 1);
    }
  }

  lemma {:induction false} EntriesAppend(out: seq<Outgoing>, more: seq<Outgoing>, s: nat)
    ensures EntriesOf(out + more, s) == EntriesOf(out, s) + EntriesOf(more, s)
    decreases |more|
  {
    if more == [] {
      assert out + more == out;
    } else {
      var n := |more| - 1;
      EntriesAppend(out, more[..n], s);
      EntriesSnoc(out + more[..n], more[n], s);
      assert out + more[..n] + [more[n]] == out + more;
    }
  }

  function Tagged(s: nat, entries: seq<Entry>): (out: seq<Outgoing>)
    ensures |out| == |entries|
  {
    seq(|entries|, i requires 0 <= i < |entries| => Outgoing(s, entries[i]))
  }

  lemma {:induction false} TaggedEntries(s: nat, entries: seq<Entry>, t: nat)
    ensures EntriesOf(Tagged(s, entries), t) == if s == t then entries else []
    decreases |entries|
  {
    if entries != [] {
      var n := |entries| - 1;
      TaggedEntries(s, entries[..n], t);
      EntriesSnoc(Tagged(s, entries[..n]), Outgoing(s, entries[n]), t);
      TaggedFront(s, entries);
    }
  }

  lemma TaggedFront(s: nat, entries: seq<Entry>)
    requires entries != []
    ensures var n := |entries| - 1;
            Tagged(s, entries) == Tagged(s, entries[..n]) + [Outgoing(s, entries[n])]
                && entries[..n] + [entries[n]] == entries
  {
  }

  /** What the draft context's `lhm_decode` does with a batch of several sequences. */
  predicate AllFit(memory: seq<Memory>, out: seq<Outgoing>) {
    forall s :: 0 <= s < |memory| ==> Fits(memory[s], EntriesOf(out, s))
  }

  function DecodedAll(memory: seq<Memory>, out: seq<Outgoing>): (r: seq<Memory>)
    ensures |r| == |memory|
  {
    seq(|memory|, s requires 0 <= s < |memory| => Decoded(memory[s], EntriesOf(out, s)))
  }

  /** The entries that the sequence writes for a batch, none if it has no tokens in it. */
  function WrittenOf(slot: Slot, m: Memory, ts: seq<Input>): seq<Entry> {
    if ts == [] then [] else Written(slot, m, ts)
  }

  function RefreshedOf(slot: Slot, ts: seq<Input>): Slot { if ts == [] then slot else Refreshed(ts) }

  /** The first and the last batch index of each sequence. */
  method FindSpans(nSeq: nat, batchIn: seq<Incoming>) returns (beg: seq<int>, end: seq<int>)
    ensures |beg| == nSeq && AllSpan(batchIn, beg, end)
  {
    beg, end := seq(nSeq, _ => -1), seq(nSeq, _ => -1);
    var k := 0;
    while k < |batchIn|
      invariant 0 <= k <= |batchIn| && |beg| == |end| == nSeq
      invariant forall s :: 0 <= s < nSeq ==> Spans(batchIn, k, s, beg[s], end[s])
    {
      var s := batchIn[k].seqId;
      if 0 <= s < nSeq {
        end := end[s := k];
        if beg[s] < 0 {
          beg := beg[s := k];
        }
      }
      k := k + 1;
    }
  }

  class Drafter {
    const nSeq: nat
    /** The per-sequence vectors of the source, one record for each sequence. */
    var slots: seq<Slot>
    var memory: seq<Memory>

    ghost predicate Valid()
      reads this
    {
      |slots| == |memory| == nSeq
    }

    constructor (nSeq: nat, zero: Row)
      ensures Valid() && this.nSeq == nSeq
      ensures forall s :: 0 <= s < nSeq ==> slots[s] == Slot(-1, zero, -1, []) && memory[s] == Memory(0, [])
    {
      this.nSeq := nSeq;
      slots := seq(nSeq, _ => Slot(-1, zero, -1, []));
      memory := seq(nSeq, _ => Memory(0, []));
    }

    /** The main write loop of one sequence, after its bridge. */
    method WriteShifted(s: nat, ghost bridge: seq<Entry>, start: seq<Outgoing>, batchIn: seq<Incoming>, g: seq<Row>,
                        beg: nat, end: nat)
      returns (out: seq<Outgoing>)
      requires |g| == |batchIn| && beg <= end < |batchIn| && start == Tagged(s, bridge)
      ensures out == Tagged(s, bridge + Shifted(Slice(batchIn, g, beg, end + 1)))
    {
      ghost var shifted := Shifted(Slice(batchIn, g, beg, end + 1));
      assert bridge + shifted[..0] == bridge;
      out := start;
      var k := beg;
      while k < end
        invariant beg <= k <= end
        invariant out == Tagged(s, bridge + shifted[..k - beg])
      {
        var entry := Entry(batchIn[k].pos, Cell(batchIn[k + 1].token, g[k]));
        ShiftedAt(batchIn, g, beg, end, k);
        TaggedSnoc(s, bridge, shifted, k - beg);
        out := out + [Outgoing(s, entry)];
        k := k + 1;
      }
      assert shifted[..end - beg] == shifted;
    }

    /** The entries of one sequence, in the order in which the loop adds them. */
    method WriteSequence(s: nat, batchIn: seq<Incoming>, g: seq<Row>, beg: nat, end: nat) returns (out: seq<Outgoing>)
      requires Valid() && s < nSeq && |g| == |batchIn| && beg <= end < |batchIn|
      ensures out == Tagged(s, Written(slots[s], memory[s], Slice(batchIn, g, beg, end + 1)))
    {
      out := [];
      var pending := slots[s].pendingPos;
      if pending >= 0 && pending + 1 == batchIn[beg].pos {
        var dftPosMax := PosMax(memory[s]);
        if pending > dftPosMax {
          out := [Outgoing(s, Entry(pending, Cell(batchIn[beg].token, slots[s].pendingG)))];
        }
      }
      out := WriteShifted(s, Bridge(slots[s], memory[s], Slice(batchIn, g, beg, end + 1)), out, batchIn, g, beg, end);
    }

    method Refresh(s: nat, batchIn: seq<Incoming>, g: seq<Row>, beg: nat, end: nat)
      requires Valid() && s < nSeq && |g| == |batchIn| && beg <= end < |batchIn|
      modifies `slots
      ensures Valid() && slots == old(slots)[s := Refreshed(Slice(batchIn, g, beg, end + 1))]
    {
      slots := slots[s := slots[s].(verifyFirst := batchIn[beg].pos, pendingPos := batchIn[end].pos)];
      slots := slots[s := slots[s].(verifyG := g[beg..end + 1], pendingG := g[end])];
      assert Rows(Slice(batchIn, g, beg, end + 1)) == g[beg..end + 1];
    }

    /** One turn of the loop over the sequences. */
    method Turn(s: nat, batchIn: seq<Incoming>, g: seq<Row>, beg: seq<int>, end: seq<int>) returns (more: seq<Outgoing>)
      requires Valid() && s < nSeq == |beg| && |g| == |batchIn| && Contiguous(batchIn) && AllSpan(batchIn, beg, end)
      modifies `slots
      ensures Valid() && slots == old(slots)[s := RefreshedOf(old(slots)[s], Of(batchIn, g, s))]
      ensures more == Tagged(s, WrittenOf(old(slots)[s], memory[s], Of(batchIn, g, s)))
    {
      SpanAt(batchIn, g, s, beg, end);
      more := [];
      if beg[s] >= 0 {
        more := WriteSequence(s, batchIn, g, beg[s], end[s]);
        Refresh(s, batchIn, g, beg[s], end[s]);
      }
    }

    method Decode(out: seq<Outgoing>) returns (ok: bool)
      requires Valid()
      modifies `memory
      ensures Valid() && ok == AllFit(old(memory), out)
      ensures memory == if ok then DecodedAll(old(memory), out) else old(memory)
    {
      ok := AllFit(memory, out);
      if ok {
        memory := DecodedAll(memory, out);
      }
    }

    /**
      `process`: each sequence writes its own pairs into its own memory, and the batch that is written is never larger
      than the batch that came in.
    */
    method Process(batchIn: seq<Incoming>, g: seq<Row>) returns (ok: bool, ghost out: seq<Outgoing>)
      requires Valid() && |g| == |batchIn| && Contiguous(batchIn)
      modifies this
      ensures Valid() && |out| <= |batchIn| && ok == AllFit(old(memory), out)
      ensures slots == RefreshedAll(old(slots), batchIn, g, nSeq)
      ensures IsShared(out, old(slots), old(memory), batchIn, g, nSeq)
      ensures memory == if ok then DecodedAll(old(memory), out) else old(memory)
    {
      ghost var before := slots;
      NothingTurned(before, memory, batchIn, g);
      var beg, end := FindSpans(nSeq, batchIn);
      var batch: seq<Outgoing> := [];
      var s := 0;
      while s < nSeq
        invariant 0 <= s <= nSeq && Valid() && memory == old(memory)
        invariant Turned(batch, slots, before, memory, batchIn, g, s)
      {
        TurnOne(batch, slots, before, memory, batchIn, g, s);
        var more := Turn(s, batchIn, g, beg, end);
        batch := batch + more;
        s := s + 1;
      }
      AllTurned(batch, slots, before, memory, batchIn, g);
      ok := Decode(batch);
      out := batch;
    }

    /** `accept`, whoever made the draft. */
    method Accept(s: int, nAccepted: nat)
      requires Valid()
      modifies `slots
      ensures Valid()
              && slots == if 0 <= s < nSeq then old(slots)[s := Accepted(old(slots)[s], nAccepted)] else old(slots)
    {
      if s < 0 || s >= nSeq {
        return;
      }
      var nRows := |slots[s].verifyG|;
      if nRows <= 0 {
        return;
      }
      var i := if nAccepted < nRows - 1 then nAccepted else nRows - 1;
      slots := slots[s := slots[s].(pendingPos := slots[s].verifyFirst + i)];
      slots := slots[s := slots[s].(pendingG := slots[s].verifyG[i])];
    }

    /** `lhm_memory_seq_rm`, which the server calls for the draft context. */
    method Remove(s: nat, from: int)
      requires Valid() && s < nSeq
      modifies `memory
      ensures Valid() && memory == old(memory)[s := Removed(old(memory)[s], from)]
    {
      memory := memory[s := Removed(memory[s], from)];
    }

    /** `lhm_decode` with an output for each entry: that of the entry's own sequence, up to the entry. */
    method DecodeOutputs(out: seq<Outgoing>, model: Model) returns (ok: bool, outputs: seq<Output>)
      requires Valid() && forall i :: 0 <= i < |out| ==> 0 <= out[i].seqId < nSeq
      modifies `memory
      ensures Valid() && ok == AllFit(old(memory), out)
      ensures memory == if ok then DecodedAll(old(memory), out) else old(memory)
      ensures |outputs| == |out|
      ensures forall i :: 0 <= i < |out| ==>
                outputs[i] == model(Decoded(old(memory)[out[i].seqId], EntriesOf(out[..i + 1], out[i].seqId)))
    {
      outputs := seq(|out|, i requires 0 <= i < |out| && 0 <= out[i].seqId < |memory| reads this =>
        model(Decoded(memory[out[i].seqId], EntriesOf(out[..i + 1], out[i].seqId))));
      ok := Decode(out);
    }

    /** The first loop of `draft`. */
    method SeedBatch(requests: seq<Request>) returns (batch: seq<Outgoing>, drafting: seq<bool>, nDrafting: nat)
      requires Valid() && |requests| == nSeq
      modifies `memory
      ensures Valid() && |drafting| == nSeq && nDrafting == CountTrue(drafting)
      ensures SeedsAdded(batch, drafting, memory, slots, old(memory), requests, nSeq)
      ensures InOrder(batch, drafting, nSeq)
    {
      batch, drafting, nDrafting := [], seq(nSeq, _ => false), 0;
      NoneTrue(drafting);
      NoSeeds(drafting, memory, slots, requests);
      var s := 0;
      while s < nSeq
        invariant 0 <= s <= nSeq && Valid() && |drafting| == nSeq && nDrafting == CountTrue(drafting)
        invariant SeedsAdded(batch, drafting, memory, slots, old(memory), requests, s)
        invariant InOrder(batch, drafting, s)
      {
        SeedOne(batch, drafting, memory, slots, old(memory), requests, s);
        if requests[s].drafting && slots[s].pendingPos >= 0 {
          var o := Outgoing(s, Entry(slots[s].pendingPos, Cell(requests[s].idLast, slots[s].pendingG)));
          CountSet(drafting, s);
          InOrderAdd(batch, drafting, s, o);
          nDrafting := nDrafting + 1;
          drafting := drafting[s := true];
          memory := memory[s := Removed(memory[s], slots[s].pendingPos)];
          batch := batch + [o];
        } else {
          InOrderOff(batch, drafting, s);
        }
        s := s + 1;
      }
    }

    /** `drafting[seq_id] = false; n_drafting--` */
    method Stop(drafting0: seq<bool>, nDrafting0: nat, s: nat) returns (drafting: seq<bool>, nDrafting: nat)
      requires s < |drafting0| && drafting0[s] && nDrafting0 == CountTrue(drafting0)
      ensures drafting == drafting0[s := false] && nDrafting == CountTrue(drafting)
    {
      CountReset(drafting0, s);
      drafting := drafting0[s := false];
      nDrafting := nDrafting0 - 1;
    }

    method DraftToken(model: Model, sampler: Sampler, nMax: int, ghost drafting0: seq<bool>,
                      ghost results0: seq<seq<Token>>, i: nat, s: nat, output: Output, batch0: seq<Outgoing>,
                      drafting1: seq<bool>, results1: seq<seq<Token>>, nDrafting1: nat)
      returns (batch: seq<Outgoing>, drafting: seq<bool>, results: seq<seq<Token>>, nDrafting: nat)
      requires Valid() && s < nSeq && AllInStep(slots, drafting0, memory, results0, i)
               && nDrafting1 == CountTrue(drafting1)
      requires TokensAdded(batch0, drafting1, results1, PickerOf(model, sampler), nMax, slots, drafting0, memory,
                           results0, s)
      requires InOrder(batch0, drafting1, s) && drafting1[s] && output == model(memory[s])
      ensures |drafting| == |results| == nSeq && nDrafting == CountTrue(drafting)
      ensures TokensAdded(batch, drafting, results, PickerOf(model, sampler), nMax, slots, drafting0, memory,
                          results0, s + 1)
      ensures InOrder(batch, drafting, s + 1)
    {
      ghost var pick := PickerOf(model, sampler);
      batch, drafting, results, nDrafting := batch0, drafting1, results1, nDrafting1;
      var c := Choose(sampler, s, output, results[s]);
      assert c == pick(s, memory[s], results[s]);
      if !c.sure {
        TokenUnsure(batch, drafting, results, pick, nMax, slots, drafting0, memory, results0, s, i);
        InOrderSkip(batch, drafting, s);
        drafting, nDrafting := Stop(drafting, nDrafting, s);
        return;
      }
      batch, drafting, results, nDrafting :=
        AppendToken(pick, nMax, drafting0, results0, i, s, batch, drafting, results, nDrafting, c);
    }

    /** A token of which the drafter is sure is appended, and the sequence goes on unless that is enough. */
    method AppendToken(ghost pick: Picker, nMax: int, ghost drafting0: seq<bool>, ghost results0: seq<seq<Token>>,
                       i: nat, s: nat, batch0: seq<Outgoing>, drafting1: seq<bool>, results1: seq<seq<Token>>,
                       nDrafting1: nat, c: Choice)
      returns (batch: seq<Outgoing>, drafting: seq<bool>, results: seq<seq<Token>>, nDrafting: nat)
      requires Valid() && s < nSeq && AllInStep(slots, drafting0, memory, results0, i)
               && nDrafting1 == CountTrue(drafting1)
      requires TokensAdded(batch0, drafting1, results1, pick, nMax, slots, drafting0, memory, results0, s)
      requires InOrder(batch0, drafting1, s)
      requires drafting1[s] && c == pick(s, memory[s], results1[s]) && c.sure
      ensures |drafting| == |results| == nSeq && nDrafting == CountTrue(drafting)
      ensures TokensAdded(batch, drafting, results, pick, nMax, slots, drafting0, memory, results0, s + 1)
      ensures InOrder(batch, drafting, s + 1)
    {
      batch, drafting, nDrafting := batch0, drafting1, nDrafting1;
      results := results1[s := results1[s] + [c.id]];
      if nMax <= |results[s]| {
        InOrderSkip(batch0, drafting1, s);
        drafting, nDrafting := Stop(drafting1, nDrafting1, s);
        TokenLast(batch0, drafting1, results1, pick, nMax, slots, drafting0, memory, results0, s, i, c, drafting,
            results);
      } else {
        var o := Outgoing(s, Entry(slots[s].pendingPos + (i + 1), Cell(c.id, c.row)));
        InOrderOn(batch0, drafting1, s, o);
        batch := batch0 + [o];
        TokenMore(batch0, drafting1, results1, pick, nMax, slots, drafting0, memory, results0, s, i, c, batch,
            results);
      }
    }

    /** One turn of the drafting loop: a token of every sequence that still drafts, sampled at the next output. */
    method DraftTokens(model: Model, sampler: Sampler, nMax: int, outputs: seq<Output>, drafting0: seq<bool>,
                       results0: seq<seq<Token>>, i: nat, nDrafting0: nat)
      returns (batch: seq<Outgoing>, drafting: seq<bool>, results: seq<seq<Token>>, nDrafting: nat)
      requires Valid() && |drafting0| == |results0| == nSeq && nDrafting0 == CountTrue(drafting0)
      requires AllInStep(slots, drafting0, memory, results0, i) && HaveOutputs(outputs, drafting0, memory, model)
      ensures |drafting| == |results| == nSeq && nDrafting == CountTrue(drafting)
      ensures TokensAdded(batch, drafting, results, PickerOf(model, sampler), nMax, slots, drafting0, memory,
                          results0, nSeq)
      ensures InOrder(batch, drafting, nSeq)
    {
      ghost var pick := PickerOf(model, sampler);
      batch, drafting, results, nDrafting := [], drafting0, results0, nDrafting0;
      NoTokens(pick, nMax, slots, drafting0, memory, results0);
      var iBatch := 0;
      var s := 0;
      while s < nSeq
        invariant 0 <= s <= nSeq && |drafting| == |results| == nSeq && nDrafting == CountTrue(drafting)
        invariant TokensAdded(batch, drafting, results, pick, nMax, slots, drafting0, memory, results0, s)
        invariant InOrder(batch, drafting, s) && iBatch == Rank(drafting0, s)
      {
        StillDrafting(batch, drafting, results, pick, nMax, slots, drafting0, memory, results0, s);
        RankStep(drafting0, s);
        if !drafting[s] {
          InOrderOff(batch, drafting, s);
          TokenNone(batch, drafting, results, pick, nMax, slots, drafting0, memory, results0, s, i);
        } else {
          OutputAt(outputs, drafting0, memory, model, s);
          var output := outputs[iBatch];
          iBatch := iBatch + 1;
          batch, drafting, results, nDrafting :=
            DraftToken(model, sampler, nMax, drafting0, results0, i, s, output, batch, drafting, results, nDrafting);
        }
        s := s + 1;
      }
    }

    /**
      `draft`: every sequence gets the draft it would get alone, cleared if it is too short; if some boundary cannot be
      completed the decode fails and there are no drafts. The samplers read the outputs of the last decode one after
      the other, so the drafts are right because the batch has an entry for just the sequences that still draft.
    */
    method Draft(requests: seq<Request>, model: Model, sampler: Sampler, nMax: int, nMin: int)
      returns (results: seq<seq<Token>>)
      requires Valid() && |requests| == nSeq
      modifies `memory
      ensures Valid() && |results| == nSeq
      ensures AllCanSeed(slots, old(memory), requests) ==>
                forall s :: 0 <= s < nSeq ==>
                    IsDraft(PickerOf(model, sampler), s, slots[s], old(memory)[s], requests[s], nMax, nMin,
                            memory[s], results[s])
      ensures !AllCanSeed(slots, old(memory), requests) ==> forall s :: 0 <= s < nSeq ==> results[s] == []
    {
      ghost var pick := PickerOf(model, sampler);
      results := seq(nSeq, _ => []);
      var batch, drafting, nDrafting := SeedBatch(requests);
      ghost var removed := memory;
      KnownInOrder(batch, drafting, nSeq);
      var ok, outputs := DecodeOutputs(batch, model);
      SeedsDecoded(batch, drafting, removed, pick, nMax, slots, old(memory), requests, results);
      if !ok {
        return;
      }
      OutputsInOrder(batch, drafting, removed, outputs, model);
      results := DraftLoop(requests, model, sampler, nMax, batch, outputs, drafting, nDrafting, results, old(memory));
      results := ClearShort(requests, results, nMin);
    }

    /** The loop of `draft` over the decodes. */
    method DraftLoop(requests: seq<Request>, model: Model, sampler: Sampler, nMax: int, batch0: seq<Outgoing>,
                     outputs0: seq<Output>, drafting1: seq<bool>, nDrafting1: nat, results1: seq<seq<Token>>,
                     ghost before: seq<Memory>)
      returns (results: seq<seq<Token>>)
      requires Valid() && |requests| == |before| == |drafting1| == |results1| == nSeq
      requires nDrafting1 == CountTrue(drafting1) && HaveOutputs(outputs0, drafting1, memory, model)
      requires AllInStep(slots, drafting1, memory, results1, 0)
      requires AllHeadFor(PickerOf(model, sampler), nMax, slots, drafting1, memory, results1, before, requests)
      modifies `memory
      ensures Valid() && |results| == nSeq
      ensures forall s :: 0 <= s < nSeq ==>
                Progress(false, memory[s], results[s])
                    == DraftOf(PickerOf(model, sampler), s, slots[s], before[s], requests[s], nMax)
    {
      ghost var pick := PickerOf(model, sampler);
      var batch, outputs, drafting, nDrafting := batch0, outputs0, drafting1, nDrafting1;
      results := results1;
      var i := 0;
      while nDrafting > 0
        invariant Valid() && |drafting| == |results| == nSeq && 0 <= i && nDrafting == CountTrue(drafting)
        invariant AllInStep(slots, drafting, memory, results, i) && HaveOutputs(outputs, drafting, memory, model)
        invariant AllHeadFor(pick, nMax, slots, drafting, memory, results, before, requests)
        invariant nDrafting > 0 && i > 0 ==> i < nMax
        decreases if nDrafting == 0 then 0 else if nMax > i then nMax - i + 1 else 1
      {
        ghost var drafting0, results0, memory0 := drafting, results, memory;
        batch, drafting, results, nDrafting :=
          DraftTokens(model, sampler, nMax, outputs, drafting, results, i, nDrafting);
        TokensDecoded(batch, drafting, results, pick, nMax, slots, drafting0, memory0, results0, before, requests, i);
        KnownInOrder(batch, drafting, nSeq);
        if |batch| == 0 {
          assert DecodedAll(memory, batch) == memory;
          break;
        }
        var ok;
        ok, outputs := DecodeOutputs(batch, model);
        OutputsInOrder(batch, drafting, memory0, outputs, model);
        i := i + 1;
      }
      AllDrafted(pick, nMax, slots, drafting, memory, results, before, requests);
    }

    method ClearShort(requests: seq<Request>, results: seq<seq<Token>>, nMin: int) returns (cleared: seq<seq<Token>>)
      requires |requests| == |results| == nSeq
      ensures |cleared| == nSeq
      ensures forall s :: 0 <= s < nSeq ==>
                cleared[s] == if requests[s].drafting && |results[s]| < nMin then [] else results[s]
    {
      cleared := results;
      var s := 0;
      while s < nSeq
        invariant 0 <= s <= nSeq == |cleared|
        invariant forall t :: 0 <= t < s ==>
                    cleared[t] == if requests[t].drafting && |results[t]| < nMin then [] else results[t]
        invariant forall t :: s <= t < nSeq ==> cleared[t] == results[t]
      {
        if requests[s].drafting && |cleared[s]| < nMin {
          cleared := cleared[s := []];
        }
        s := s + 1;
      }
    }
  }

  lemma ShiftedAt(batchIn: seq<Incoming>, g: seq<Row>, beg: nat, end: nat, k: nat)
    requires |g| == |batchIn| && beg <= k < end < |batchIn|
    ensures Shifted(Slice(batchIn, g, beg, end + 1))[k - beg] == Entry(batchIn[k].pos, Cell(batchIn[k + 1].token, g[k]))
  {
  }

  lemma TaggedSnoc(s: nat, bridge: seq<Entry>, entries: seq<Entry>, i: nat)
    requires i < |entries|
    ensures Tagged(s, bridge + entries[..i + 1]) == Tagged(s, bridge + entries[..i]) + [Outgoing(s, entries[i])]
  {
    assert bridge + entries[..i + 1] == bridge + entries[..i] + [entries[i]];
  }

  lemma EntriesMore(batch: seq<Outgoing>, s: nat, entries: seq<Entry>)
    ensures forall t: nat :: EntriesOf(batch + Tagged(s, entries), t) == EntriesOf(batch, t) + if t == s then entries
              else []
  {
    forall t: nat
      ensures EntriesOf(batch + Tagged(s, entries), t) == EntriesOf(batch, t) + if t == s then entries else []
    {
      EntriesAppend(batch, Tagged(s, entries), t);
      TaggedEntries(s, entries, t);
    }
  }

  /** The slots after the sequences below n have had their turn. */
  function RefreshedAll(slots: seq<Slot>, batchIn: seq<Incoming>, g: seq<Row>, n: nat): (r: seq<Slot>)
    requires |g| == |batchIn|
    ensures |r| == |slots|
  {
    seq(|slots|, t requires 0 <= t < |slots| => if t < n then RefreshedOf(slots[t], Of(batchIn, g, t)) else slots[t])
  }

  /** The batch holds what each of the sequences below n writes, and nothing for the others. */
  ghost predicate IsShared(out: seq<Outgoing>, slots: seq<Slot>, memory: seq<Memory>, batchIn: seq<Incoming>,
                           g: seq<Row>, n: nat) {
    && |g| == |batchIn| && |memory| == |slots|
    && forall t :: 0 <= t < |slots| ==>
       EntriesOf(out, t) == if t < n then WrittenOf(slots[t], memory[t], Of(batchIn, g, t)) else []
  }

  ghost predicate AllSpan(batch: seq<Incoming>, beg: seq<int>, end: seq<int>) {
    |beg| == |end| && forall k {:trigger Open(k)} :: Open(k) ==>
      forall s :: 0 <= s < |beg| ==> Spans(batch, |batch|, s, beg[s], end[s])
  }

  lemma SpanAt(batchIn: seq<Incoming>, g: seq<Row>, s: nat, beg: seq<int>, end: seq<int>)
    requires |g| == |batchIn| && Contiguous(batchIn) && AllSpan(batchIn, beg, end) && s < |beg|
    ensures beg[s] < 0 ==> Of(batchIn, g, s) == []
    ensures beg[s] >= 0 ==> beg[s] <= end[s] < |batchIn| && Of(batchIn, g, s) == Slice(batchIn, g, beg[s], end[s] + 1)
  {
    assert Open(0);
    SpansSlice(batchIn, g, s, beg[s], end[s]);
  }

  /** The sequences below n have had their turn. */
  ghost predicate Turned(out: seq<Outgoing>, now: seq<Slot>, slots: seq<Slot>, memory: seq<Memory>,
                         batchIn: seq<Incoming>, g: seq<Row>, n: nat) {
    |g| == |batchIn| && |memory| == |slots| == |now| && forall k {:trigger Open(k)} :: Open(k) ==>
      now == RefreshedAll(slots, batchIn, g, n) && IsShared(out, slots, memory, batchIn, g, n)
          && |out| <= CountBelow(batchIn, g, n)
  }

  lemma NothingTurned(slots: seq<Slot>, memory: seq<Memory>, batchIn: seq<Incoming>, g: seq<Row>)
    requires |g| == |batchIn| && |memory| == |slots|
    ensures Turned([], slots, slots, memory, batchIn, g, 0)
  {
    assert RefreshedAll(slots, batchIn, g, 0) == slots;
  }

  lemma TurnOne(out: seq<Outgoing>, now: seq<Slot>, slots: seq<Slot>, memory: seq<Memory>,
                batchIn: seq<Incoming>, g: seq<Row>, s: nat)
    requires |g| == |batchIn| && s < |slots| && Turned(out, now, slots, memory, batchIn, g, s)
    ensures now[s] == slots[s]
    ensures Turned(out + Tagged(s, WrittenOf(now[s], memory[s], Of(batchIn, g, s))),
                   now[s := RefreshedOf(now[s], Of(batchIn, g, s))], slots, memory, batchIn, g, s + 1)
  {
    assert Open(0);
    RefreshOne(slots, batchIn, g, s);
    ShareOne(out, slots, memory, batchIn, g, s);
  }

  lemma RefreshOne(slots: seq<Slot>, batchIn: seq<Incoming>, g: seq<Row>, s: nat)
    requires |g| == |batchIn| && s < |slots|
    ensures RefreshedAll(slots, batchIn, g, s + 1)
            == RefreshedAll(slots, batchIn, g, s)[s := RefreshedOf(slots[s], Of(batchIn, g, s))]
  {
  }

  lemma ShareOne(out: seq<Outgoing>, slots: seq<Slot>, memory: seq<Memory>, batchIn: seq<Incoming>, g: seq<Row>, s: nat)
    requires IsShared(out, slots, memory, batchIn, g, s) && s < |slots|
    ensures IsShared(out + Tagged(s, WrittenOf(slots[s], memory[s], Of(batchIn, g, s))), slots, memory, batchIn, g,
            s + 1)
  {
    EntriesMore(out, s, WrittenOf(slots[s], memory[s], Of(batchIn, g, s)));
  }

  lemma AllTurned(out: seq<Outgoing>, now: seq<Slot>, slots: seq<Slot>, memory: seq<Memory>, batchIn: seq<Incoming>,
                  g: seq<Row>)
    requires |g| == |batchIn| && Turned(out, now, slots, memory, batchIn, g, |slots|)
    ensures now == RefreshedAll(slots, batchIn, g, |slots|) && IsShared(out, slots, memory, batchIn, g, |slots|)
    ensures |out| <= |batchIn|
  {
    assert Open(0);
    CountAtMost(batchIn, g, |slots|);
  }

  // ---- drafting several sequences together ----

  function CountTrue(d: seq<bool>): nat {
    if d == [] then 0 else CountTrue(d[..|d| - 1]) + if d[|d| - 1] then 1 else 0
  }

  lemma {:induction false} NoneTrue(d: seq<bool>)
    ensures CountTrue(d) == 0 <==> forall t :: 0 <= t < |d| ==> !d[t]
    decreases |d|
  {
    if d != [] {
      NoneTrue(d[..|d| - 1]);
      assert forall t :: 0 <= t < |d| - 1 ==> d[..|d| - 1][t] == d[t];
    }
  }

  lemma {:induction false} CountSet(d: seq<bool>, s: nat)
    requires s < |d| && !d[s]
    ensures CountTrue(d[s := true]) == CountTrue(d) + 1
    decreases |d|
  {
    var n := |d| - 1;
    if s < n {
      CountSet(d[..n], s);
      assert d[s := true][..n] == d[..n][s := true];
    } else {
      assert d[s := true][..n] == d[..n];
    }
  }

  lemma CountReset(d: seq<bool>, s: nat)
    requires s < |d| && d[s]
    ensures CountTrue(d[s := false]) == CountTrue(d) - 1
  {
    CountSet(d[s := false], s);
    assert d[s := false][s := true] == d;
  }

  ghost predicate AllCanSeed(slots: seq<Slot>, memory: seq<Memory>, requests: seq<Request>)
    requires |slots| == |memory| == |requests|
  {
    forall s :: 0 <= s < |slots| && Starts(slots[s], requests[s]) ==> CanSeed(slots[s], memory[s])
  }

  /** The result of `draft` for one sequence, as if it had been drafted alone. */
  ghost predicate IsDraft(pick: Picker, s: nat, slot: Slot, m0: Memory, r: Request, nMax: int, nMin: int, m: Memory,
                          result: seq<Token>) {
    var q := DraftOf(pick, s, slot, m0, r, nMax);
    m == q.memory && result == if r.drafting && |q.result| < nMin then [] else q.result
  }

  function SeedEntry(slot: Slot, r: Request): seq<Entry> {
    if Starts(slot, r) then [Entry(slot.pendingPos, Cell(r.idLast, slot.pendingG))] else []
  }

  function SeedBase(slot: Slot, m: Memory, r: Request): Memory {
    if Starts(slot, r) then Removed(m, slot.pendingPos) else m
  }

  ghost predicate SeedsAdded(batch: seq<Outgoing>, drafting: seq<bool>, memory: seq<Memory>,
                             slots: seq<Slot>, memory0: seq<Memory>, requests: seq<Request>, n: nat) {
    && |drafting| == |memory| == |slots| == |memory0| == |requests|
    && forall k {:trigger Open(k)} :: Open(k) ==> forall t :: 0 <= t < |slots| ==>
      && drafting[t] == (t < n && Starts(slots[t], requests[t]))
      && memory[t] == (if t < n then SeedBase(slots[t], memory0[t], requests[t]) else memory0[t])
      && EntriesOf(batch, t) == if t < n then SeedEntry(slots[t], requests[t]) else []
  }

  lemma NoSeeds(drafting: seq<bool>, memory: seq<Memory>, slots: seq<Slot>, requests: seq<Request>)
    requires |drafting| == |memory| == |slots| == |requests| && forall t :: 0 <= t < |slots| ==> !drafting[t]
    ensures SeedsAdded([], drafting, memory, slots, memory, requests, 0)
  {
  }

  lemma SeedOne(batch: seq<Outgoing>, drafting: seq<bool>, memory: seq<Memory>,
                slots: seq<Slot>, memory0: seq<Memory>, requests: seq<Request>, s: nat)
    requires SeedsAdded(batch, drafting, memory, slots, memory0, requests, s) && s < |slots|
    ensures !drafting[s]
    ensures if Starts(slots[s], requests[s]) then
              SeedsAdded(batch + [Outgoing(s, SeedEntry(slots[s], requests[s])[0])], drafting[s := true],
                         memory[s := Removed(memory[s], slots[s].pendingPos)], slots, memory0, requests, s + 1)
            else SeedsAdded(batch, drafting, memory, slots, memory0, requests, s + 1)
  {
    assert Open(0);
    if Starts(slots[s], requests[s]) {
      forall t: nat
        ensures EntriesOf(batch + [Outgoing(s, SeedEntry(slots[s], requests[s])[0])], t)
                == EntriesOf(batch, t) + if t == s then SeedEntry(slots[s], requests[s]) else []
      {
        EntriesSnoc(batch, Outgoing(s, SeedEntry(slots[s], requests[s])[0]), t);
      }
    }
  }

  ghost predicate AllInStep(slots: seq<Slot>, drafting: seq<bool>, memory: seq<Memory>, results: seq<seq<Token>>,
                            i: nat) {
    && |slots| == |drafting| == |memory| == |results|
    && forall k {:trigger Open(k)} :: Open(k) ==>
      forall t :: 0 <= t < |slots| ==> InStep(slots[t], Progress(drafting[t], memory[t], results[t]), i)
  }

  /** Every sequence is still on its way to the draft it would get alone. */
  ghost predicate AllHeadFor(pick: Picker, nMax: int, slots: seq<Slot>, drafting: seq<bool>, memory: seq<Memory>,
                             results: seq<seq<Token>>, memory0: seq<Memory>, requests: seq<Request>) {
    && |slots| == |drafting| == |memory| == |results| == |memory0| == |requests|
    && forall k {:trigger Open(k)} :: Open(k) ==> forall t :: 0 <= t < |slots| ==>
      Alone(pick, t, slots[t].pendingPos, nMax, Progress(drafting[t], memory[t], results[t]))
      == DraftOf(pick, t, slots[t], memory0[t], requests[t], nMax)
  }

  /** The first decode succeeds exactly if every boundary can be completed, and then all sequences are seeded. */
  lemma SeedsDecoded(batch: seq<Outgoing>, drafting: seq<bool>, removed: seq<Memory>, pick: Picker, nMax: int,
                     slots: seq<Slot>, memory0: seq<Memory>, requests: seq<Request>, results: seq<seq<Token>>)
    requires SeedsAdded(batch, drafting, removed, slots, memory0, requests, |slots|)
    requires |results| == |slots| && forall t :: 0 <= t < |slots| ==> results[t] == []
    ensures AllFit(removed, batch) <==> AllCanSeed(slots, memory0, requests)
    ensures AllFit(removed, batch) ==>
              AllInStep(slots, drafting, DecodedAll(removed, batch), results, 0)
              && AllHeadFor(pick, nMax, slots, drafting, DecodedAll(removed, batch), results, memory0, requests)
  {
    assert Open(0);
    forall t | 0 <= t < |slots|
      ensures Fits(removed[t], EntriesOf(batch, t))
              <==> (Starts(slots[t], requests[t]) ==> CanSeed(slots[t], memory0[t]))
      ensures Fits(removed[t], EntriesOf(batch, t)) ==>
                Progress(drafting[t], Decoded(removed[t], EntriesOf(batch, t)), [])
                    == Seeded(slots[t], memory0[t], requests[t])
                && InStep(slots[t], Seeded(slots[t], memory0[t], requests[t]), 0)
    {
    }
  }

  ghost predicate TokensAdded(batch: seq<Outgoing>, drafting: seq<bool>, results: seq<seq<Token>>, pick: Picker,
                              nMax: int, slots: seq<Slot>, drafting0: seq<bool>, memory: seq<Memory>,
                              results0: seq<seq<Token>>, n: nat) {
    && |drafting| == |results| == |slots| == |drafting0| == |memory| == |results0|
    && forall k {:trigger Open(k)} :: Open(k) ==> forall t :: 0 <= t < |slots| ==>
      var p := Progress(drafting0[t], memory[t], results0[t]);
      var q := if t < n then StepOne(pick, t, slots[t].pendingPos, nMax, p) else p;
      && drafting[t] == q.drafting && results[t] == q.result
      && EntriesOf(batch, t) == if t < n then AddedBy(pick, t, slots[t].pendingPos, nMax, p) else []
  }

  lemma NoTokens(pick: Picker, nMax: int, slots: seq<Slot>, drafting: seq<bool>, memory: seq<Memory>,
                 results: seq<seq<Token>>)
    requires |drafting| == |results| == |slots| == |memory|
    ensures TokensAdded([], drafting, results, pick, nMax, slots, drafting, memory, results, 0)
  {
  }

  lemma TokenOne(batch: seq<Outgoing>, drafting: seq<bool>, results: seq<seq<Token>>, pick: Picker, nMax: int,
                 slots: seq<Slot>, drafting0: seq<bool>, memory: seq<Memory>, results0: seq<seq<Token>>, s: nat, i: nat)
    requires TokensAdded(batch, drafting, results, pick, nMax, slots, drafting0, memory, results0, s) && s < |slots|
    requires AllInStep(slots, drafting0, memory, results0, i)
    ensures var c := pick(s, memory[s], results[s]);
            var more := results[s := results[s] + [c.id]];
            if !drafting[s] then
              TokensAdded(batch, drafting, results, pick, nMax, slots, drafting0, memory, results0, s + 1)
            else if !c.sure then
              TokensAdded(batch, drafting[s := false], results, pick, nMax, slots, drafting0, memory, results0, s + 1)
            else if nMax <= |results[s]| + 1 then
              TokensAdded(batch, drafting[s := false], more, pick, nMax, slots, drafting0, memory, results0, s + 1)
            else
              TokensAdded(batch + [Outgoing(s, Entry(slots[s].pendingPos + (i + 1), Cell(c.id, c.row)))], drafting,
                          more, pick, nMax, slots, drafting0, memory, results0, s + 1)
  {
    assert Open(0);
    var c := pick(s, memory[s], results[s]);
    var o := Outgoing(s, Entry(slots[s].pendingPos + (i + 1), Cell(c.id, c.row)));
    forall t: nat
      ensures EntriesOf(batch + [o], t) == EntriesOf(batch, t) + if t == s then [o.entry] else []
    {
      EntriesSnoc(batch, o, t);
    }
    assert InStep(slots[s], Progress(drafting0[s], memory[s], results0[s]), i);
  }

  lemma TokenNone(batch: seq<Outgoing>, drafting: seq<bool>, results: seq<seq<Token>>, pick: Picker, nMax: int,
                  slots: seq<Slot>, drafting0: seq<bool>, memory: seq<Memory>, results0: seq<seq<Token>>, s: nat,
                  i: nat)
    requires TokensAdded(batch, drafting, results, pick, nMax, slots, drafting0, memory, results0, s) && s < |slots|
    requires AllInStep(slots, drafting0, memory, results0, i)
    requires !drafting[s]
    ensures TokensAdded(batch, drafting, results, pick, nMax, slots, drafting0, memory, results0, s + 1)
  {
    TokenOne(batch, drafting, results, pick, nMax, slots, drafting0, memory, results0, s, i);
  }

  lemma TokenUnsure(batch: seq<Outgoing>, drafting: seq<bool>, results: seq<seq<Token>>, pick: Picker, nMax: int,
                    slots: seq<Slot>, drafting0: seq<bool>, memory: seq<Memory>, results0: seq<seq<Token>>, s: nat,
                    i: nat)
    requires TokensAdded(batch, drafting, results, pick, nMax, slots, drafting0, memory, results0, s) && s < |slots|
    requires AllInStep(slots, drafting0, memory, results0, i)
    requires drafting[s] && !pick(s, memory[s], results[s]).sure
    ensures TokensAdded(batch, drafting[s := false], results, pick, nMax, slots, drafting0, memory, results0, s + 1)
  {
    TokenOne(batch, drafting, results, pick, nMax, slots, drafting0, memory, results0, s, i);
  }

  lemma TokenLast(batch: seq<Outgoing>, drafting: seq<bool>, results: seq<seq<Token>>, pick: Picker, nMax: int,
                  slots: seq<Slot>, drafting0: seq<bool>, memory: seq<Memory>, results0: seq<seq<Token>>, s: nat,
                  i: nat, c: Choice, drafting': seq<bool>, results': seq<seq<Token>>)
    requires TokensAdded(batch, drafting, results, pick, nMax, slots, drafting0, memory, results0, s) && s < |slots|
    requires AllInStep(slots, drafting0, memory, results0, i)
    requires drafting[s] && c == pick(s, memory[s], results[s]) && c.sure && nMax <= |results[s]| + 1
    requires drafting' == drafting[s := false] && results' == results[s := results[s] + [c.id]]
    ensures TokensAdded(batch, drafting', results', pick, nMax, slots, drafting0, memory, results0, s + 1)
  {
    TokenOne(batch, drafting, results, pick, nMax, slots, drafting0, memory, results0, s, i);
  }

  lemma TokenMore(batch: seq<Outgoing>, drafting: seq<bool>, results: seq<seq<Token>>, pick: Picker, nMax: int,
                  slots: seq<Slot>, drafting0: seq<bool>, memory: seq<Memory>, results0: seq<seq<Token>>, s: nat,
                  i: nat, c: Choice, batch': seq<Outgoing>, results': seq<seq<Token>>)
    requires TokensAdded(batch, drafting, results, pick, nMax, slots, drafting0, memory, results0, s) && s < |slots|
    requires AllInStep(slots, drafting0, memory, results0, i)
    requires drafting[s] && c == pick(s, memory[s], results[s]) && c.sure && nMax > |results[s]| + 1
    requires batch' == batch + [Outgoing(s, Entry(slots[s].pendingPos + (i + 1), Cell(c.id, c.row)))]
    requires results' == results[s := results[s] + [c.id]]
    ensures TokensAdded(batch', drafting, results', pick, nMax, slots, drafting0, memory, results0, s + 1)
  {
    TokenOne(batch, drafting, results, pick, nMax, slots, drafting0, memory, results0, s, i);
  }

  /** Every sequence has made its step, and its entries fit. */
  ghost predicate HaveStepped(batch: seq<Outgoing>, drafting: seq<bool>, results: seq<seq<Token>>, pick: Picker,
                              nMax: int, slots: seq<Slot>, drafting0: seq<bool>, memory: seq<Memory>,
                              results0: seq<seq<Token>>, i: nat)
    requires |drafting| == |results| == |slots| == |drafting0| == |memory| == |results0|
  {
    forall t :: 0 <= t < |slots| ==>
      && Fits(memory[t], EntriesOf(batch, t)) && (drafting[t] ==> i + 1 < nMax)
      && var q := Progress(drafting[t], Decoded(memory[t], EntriesOf(batch, t)), results[t]);
         InStep(slots[t], q, i + 1)
         && Alone(pick, t, slots[t].pendingPos, nMax, q)
            == Alone(pick, t, slots[t].pendingPos, nMax, Progress(drafting0[t], memory[t], results0[t]))
  }

  lemma AllStep(batch: seq<Outgoing>, drafting: seq<bool>, results: seq<seq<Token>>, pick: Picker, nMax: int,
                slots: seq<Slot>, drafting0: seq<bool>, memory: seq<Memory>, results0: seq<seq<Token>>, i: nat)
    requires TokensAdded(batch, drafting, results, pick, nMax, slots, drafting0, memory, results0, |slots|)
    requires AllInStep(slots, drafting0, memory, results0, i)
    ensures HaveStepped(batch, drafting, results, pick, nMax, slots, drafting0, memory, results0, i)
  {
    assert Open(0);
    forall t | 0 <= t < |slots|
      ensures Fits(memory[t], EntriesOf(batch, t)) && (drafting[t] ==> i + 1 < nMax)
      ensures var q := Progress(drafting[t], Decoded(memory[t], EntriesOf(batch, t)), results[t]);
              InStep(slots[t], q, i + 1)
              && Alone(pick, t, slots[t].pendingPos, nMax, q)
                 == Alone(pick, t, slots[t].pendingPos, nMax, Progress(drafting0[t], memory[t], results0[t]))
    {
      TokenDecoded(pick, t, slots[t], nMax, Progress(drafting0[t], memory[t], results0[t]), i);
    }
  }

  lemma TokensDecoded(batch: seq<Outgoing>, drafting: seq<bool>, results: seq<seq<Token>>, pick: Picker, nMax: int,
                      slots: seq<Slot>, drafting0: seq<bool>, memory: seq<Memory>, results0: seq<seq<Token>>,
                      memory0: seq<Memory>, requests: seq<Request>, i: nat)
    requires TokensAdded(batch, drafting, results, pick, nMax, slots, drafting0, memory, results0, |slots|)
    requires AllInStep(slots, drafting0, memory, results0, i)
    requires AllHeadFor(pick, nMax, slots, drafting0, memory, results0, memory0, requests)
    ensures AllFit(memory, batch)
    ensures AllInStep(slots, drafting, DecodedAll(memory, batch), results, i + 1)
    ensures AllHeadFor(pick, nMax, slots, drafting, DecodedAll(memory, batch), results, memory0, requests)
    ensures CountTrue(drafting) > 0 ==> i + 1 < nMax
  {
    AllStep(batch, drafting, results, pick, nMax, slots, drafting0, memory, results0, i);
    NoneTrue(drafting);
    HeadOn(batch, drafting, results, pick, nMax, slots, drafting0, memory, results0, memory0, requests, i);
  }

  lemma HeadOn(batch: seq<Outgoing>, drafting: seq<bool>, results: seq<seq<Token>>, pick: Picker, nMax: int,
               slots: seq<Slot>, drafting0: seq<bool>, memory: seq<Memory>, results0: seq<seq<Token>>,
               memory0: seq<Memory>, requests: seq<Request>, i: nat)
    requires |drafting| == |results| == |slots|
    requires AllHeadFor(pick, nMax, slots, drafting0, memory, results0, memory0, requests)
    requires HaveStepped(batch, drafting, results, pick, nMax, slots, drafting0, memory, results0, i)
    ensures AllHeadFor(pick, nMax, slots, drafting, DecodedAll(memory, batch), results, memory0, requests)
  {
    assert Open(0);
  }

  lemma TokenDecoded(pick: Picker, t: nat, slot: Slot, nMax: int, p: Progress, i: nat)
    requires InStep(slot, p, i)
    ensures var q, entries := StepOne(pick, t, slot.pendingPos, nMax, p), AddedBy(pick, t, slot.pendingPos, nMax, p);
            && Fits(p.memory, entries) && q.memory == Decoded(p.memory, entries) && InStep(slot, q, i + 1)
            && (q.drafting ==> i + 1 < nMax)
            && Alone(pick, t, slot.pendingPos, nMax, q) == Alone(pick, t, slot.pendingPos, nMax, p)
  {
    StepInStep(pick, t, slot, nMax, p, i);
    StepMemory(pick, t, slot.pendingPos, nMax, p);
  }

  lemma AllDrafted(pick: Picker, nMax: int, slots: seq<Slot>, drafting: seq<bool>, memory: seq<Memory>,
                   results: seq<seq<Token>>, memory0: seq<Memory>, requests: seq<Request>)
    requires AllHeadFor(pick, nMax, slots, drafting, memory, results, memory0, requests) && CountTrue(drafting) == 0
    ensures forall s :: 0 <= s < |slots| ==>
              Progress(false, memory[s], results[s]) == DraftOf(pick, s, slots[s], memory0[s], requests[s], nMax)
  {
    assert Open(0);
    NoneTrue(drafting);
    forall t | 0 <= t < |slots|
      ensures Progress(false, memory[t], results[t]) == DraftOf(pick, t, slots[t], memory0[t], requests[t], nMax)
    {
      assert Alone(pick, t, slots[t].pendingPos, nMax, Progress(drafting[t], memory[t], results[t]))
          == Progress(drafting[t], memory[t], results[t]);
    }
  }

  // ---- which output belongs to which sequence ----

  /** Hides what follows, apart from what `Open` hides. */
  ghost predicate Ranked(k: int) { true }

  /** The number of drafting sequences below t. */
  function Rank(drafting: seq<bool>, t: nat): nat
    requires t <= |drafting|
  {
    CountTrue(drafting[..t])
  }

  lemma RankStep(drafting: seq<bool>, t: nat)
    requires t < |drafting|
    ensures Rank(drafting, t + 1) == Rank(drafting, t) + if drafting[t] then 1 else 0
  {
    assert drafting[..t + 1][..t] == drafting[..t];
  }

  ghost predicate IsInOrder(batch: seq<Outgoing>, drafting: seq<bool>, n: nat)
    requires n <= |drafting|
  {
    && (forall i, j :: 0 <= i < j < |batch| ==> batch[i].seqId < batch[j].seqId)
    && (forall i :: 0 <= i < |batch| ==> 0 <= batch[i].seqId < n)
    && forall t :: 0 <= t < n && drafting[t] ==> Rank(drafting, t) < |batch| && batch[Rank(drafting, t)].seqId == t
  }

  /** Of the sequences below n, the batch has one entry for each that drafts, in their order. */
  ghost predicate InOrder(batch: seq<Outgoing>, drafting: seq<bool>, n: nat) {
    && n <= |drafting| && |batch| == Rank(drafting, n)
    && forall k {:trigger Ranked(k)} :: Ranked(k) ==> IsInOrder(batch, drafting, n)
  }

  lemma SameRanks(drafting: seq<bool>, n: nat, b: bool)
    requires n < |drafting|
    ensures forall t :: 0 <= t <= n ==> Rank(drafting[n := b], t) == Rank(drafting, t)
  {
    forall t | 0 <= t <= n
      ensures Rank(drafting[n := b], t) == Rank(drafting, t)
    {
      assert drafting[n := b][..t] == drafting[..t];
    }
  }

  /** The next sequence drafts and adds its entry. */
  lemma InOrderAdd(batch: seq<Outgoing>, drafting: seq<bool>, n: nat, o: Outgoing)
    requires n < |drafting| && InOrder(batch, drafting, n) && o.seqId == n
    ensures InOrder(batch + [o], drafting[n := true], n + 1)
  {
    assert Ranked(0);
    SameRanks(drafting, n, true);
    RankStep(drafting[n := true], n);
  }

  /** The next sequence does not draft, or no longer, and adds nothing. */
  lemma InOrderSkip(batch: seq<Outgoing>, drafting: seq<bool>, n: nat)
    requires n < |drafting| && InOrder(batch, drafting, n)
    ensures InOrder(batch, drafting[n := false], n + 1)
  {
    assert Ranked(0);
    SameRanks(drafting, n, false);
    RankStep(drafting[n := false], n);
  }

  lemma InOrderOn(batch: seq<Outgoing>, drafting: seq<bool>, n: nat, o: Outgoing)
    requires n < |drafting| && InOrder(batch, drafting, n) && o.seqId == n && drafting[n]
    ensures InOrder(batch + [o], drafting, n + 1)
  {
    assert drafting[n := true] == drafting;
    InOrderAdd(batch, drafting, n, o);
  }

  lemma InOrderOff(batch: seq<Outgoing>, drafting: seq<bool>, n: nat)
    requires n < |drafting| && InOrder(batch, drafting, n) && !drafting[n]
    ensures InOrder(batch, drafting, n + 1)
  {
    assert drafting[n := false] == drafting;
    InOrderSkip(batch, drafting, n);
  }

  lemma KnownInOrder(batch: seq<Outgoing>, drafting: seq<bool>, n: nat)
    requires InOrder(batch, drafting, n) && n == |drafting|
    ensures forall i :: 0 <= i < |batch| ==> 0 <= batch[i].seqId < n
    ensures |batch| == CountTrue(drafting)
  {
    assert Ranked(0);
    assert drafting[..n] == drafting;
  }

  /** The outputs at the ranks are those of the memories. */
  ghost predicate HaveOutputs(outputs: seq<Output>, drafting: seq<bool>, memory: seq<Memory>, model: Model) {
    |drafting| == |memory| && forall k {:trigger Ranked(k)} :: Ranked(k) ==>
      forall t :: 0 <= t < |drafting| && drafting[t] ==>
        Rank(drafting, t) < |outputs| && outputs[Rank(drafting, t)] == model(memory[t])
  }

  lemma OutputAt(outputs: seq<Output>, drafting: seq<bool>, memory: seq<Memory>, model: Model, t: nat)
    requires HaveOutputs(outputs, drafting, memory, model) && t < |drafting| && drafting[t]
    ensures Rank(drafting, t) < |outputs| && outputs[Rank(drafting, t)] == model(memory[t])
  {
    assert Ranked(0);
  }

  lemma {:induction false} EntriesUpTo(out: seq<Outgoing>, n: nat, t: nat)
    requires n <= |out| && forall i :: n <= i < |out| ==> out[i].seqId != t
    ensures EntriesOf(out, t) == EntriesOf(out[..n], t)
    decreases |out|
  {
    if n < |out| {
      EntriesUpTo(out[..|out| - 1], n, t);
      assert out[..|out| - 1][..n] == out[..n];
    } else {
      assert out[..n] == out;
    }
  }

  /** The output that the sampler of a drafting sequence reads is that of the sequence's last entry. */
  lemma OutputsInOrder(batch: seq<Outgoing>, drafting: seq<bool>, memory: seq<Memory>, outputs: seq<Output>,
                       model: Model)
    requires InOrder(batch, drafting, |drafting|) && |drafting| == |memory| && |outputs| == |batch|
    requires forall i :: 0 <= i < |batch| ==> 0 <= batch[i].seqId < |memory|
    requires forall i :: 0 <= i < |batch| ==>
               outputs[i] == model(Decoded(memory[batch[i].seqId], EntriesOf(batch[..i + 1], batch[i].seqId)))
    ensures HaveOutputs(outputs, drafting, DecodedAll(memory, batch), model)
  {
    assert Ranked(0);
    forall t | 0 <= t < |drafting| && drafting[t]
      ensures Rank(drafting, t) < |outputs| && outputs[Rank(drafting, t)] == model(DecodedAll(memory, batch)[t])
    {
      OwnOutput(batch, memory, outputs, model, t, Rank(drafting, t));
    }
  }

  /** The entry at k being the only one of t, its output is that of all that t has. */
  lemma OwnOutput(batch: seq<Outgoing>, memory: seq<Memory>, outputs: seq<Output>, model: Model, t: nat, k: nat)
    requires k < |batch| == |outputs| && t < |memory| && batch[k].seqId == t
    requires forall i :: k < i < |batch| ==> batch[k].seqId < batch[i].seqId
    requires outputs[k] == model(Decoded(memory[t], EntriesOf(batch[..k + 1], t)))
    ensures outputs[k] == model(DecodedAll(memory, batch)[t])
  {
    EntriesUpTo(batch, k + 1, t);
  }

  lemma StillDrafting(batch: seq<Outgoing>, drafting: seq<bool>, results: seq<seq<Token>>, pick: Picker, nMax: int,
                      slots: seq<Slot>, drafting0: seq<bool>, memory: seq<Memory>, results0: seq<seq<Token>>, s: nat)
    requires TokensAdded(batch, drafting, results, pick, nMax, slots, drafting0, memory, results0, s) && s < |slots|
    ensures drafting[s] == drafting0[s]
  {
    assert Open(0);
  }
}

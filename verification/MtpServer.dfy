/**
  The turns of the server around the MTP drafter (src/llm_server/server_context.cpp), for several sequences at once.
  What `draft` writes into the memory is a parameter: it stands behind the stream and is removed again.
 */
module MtpServer {
  import opened Hiding
  import opened Wrappers
  import opened Eagle3
  import opened Eagle3Context
  import opened Mtp

  /** A turn: the rounds, what `draft` writes, the target's batch with its rows, and the row before the batch. */
  datatype ServerTurn = ServerTurn(rounds: seq<Option<Round>>, drafted: seq<Outgoing>, batch: seq<Incoming>,
                                   h: seq<Row>, stale: Row)

  function InputsOf(f: Target, ts: seq<Token>, r: Option<Round>): seq<Input> {
    if r.None? then [] else Inputs(f, ts, Verified(r.value))
  }

  function StreamAfter(ts: seq<Token>, r: Option<Round>): seq<Token> { if r.None? then ts else ts + Kept(r.value) }

  function StreamsAfter(streams: seq<seq<Token>>, t: ServerTurn): (r: seq<seq<Token>>)
    requires |t.rounds| == |streams|
    ensures |r| == |streams| && forall s :: 0 <= s < |streams| ==> r[s] == StreamAfter(streams[s], t.rounds[s])
  {
    seq(|streams|, s requires 0 <= s < |streams| => StreamAfter(streams[s], t.rounds[s]))
  }

  /** Drafted positions go on from the stream, and only sequences that have a round are drafted for. */
  predicate IsDraftAt(drafted: seq<Entry>, ts: seq<Token>, r: Option<Round>) {
    if r.None? then drafted == [] else forall i :: 0 <= i < |drafted| ==> drafted[i].pos == |ts| + i
  }

  /** The batch holds the tokens of each sequence's round; it may hold others if the memory takes them. */
  ghost predicate IsTurn(f: Target, streams: seq<seq<Token>>, t: ServerTurn, takesOthers: bool) {
    && |t.rounds| == |streams| && |t.h| == |t.batch| && Contiguous(t.batch)
    && (takesOthers || forall k :: 0 <= k < |t.batch| ==> 0 <= t.batch[k].seqId < |streams|)
    && (forall k :: 0 <= k < |t.drafted| ==> 0 <= t.drafted[k].seqId < |streams|)
    && forall s :: 0 <= s < |streams| ==>
         && Of(t.batch, t.h, s) == InputsOf(f, streams[s], t.rounds[s])
         && IsDraftAt(EntriesOf(t.drafted, s), streams[s], t.rounds[s])
  }

  ghost predicate IsServed(f: Target, streams: seq<seq<Token>>, turns: seq<ServerTurn>, takesOthers: bool)
    decreases |turns|
  {
    turns == [] || (IsTurn(f, streams, turns[0], takesOthers)
        && IsServed(f, StreamsAfter(streams, turns[0]), turns[1..], takesOthers))
  }

  ghost predicate AllKeep(f: Target, zero: Row, verify: seq<Verify>, memory: seq<Memory>, streams: seq<seq<Token>>) {
    && |verify| == |memory| == |streams|
    && forall k {:trigger Open(k)} :: Open(k) ==>
      forall s :: 0 <= s < |verify| ==> Keeps(f, zero, MtpState(verify[s], memory[s], streams[s]))
  }

  lemma KeepsAt(f: Target, zero: Row, verify: seq<Verify>, memory: seq<Memory>, streams: seq<seq<Token>>, s: nat)
    requires AllKeep(f, zero, verify, memory, streams) && s < |verify|
    ensures Keeps(f, zero, MtpState(verify[s], memory[s], streams[s]))
  {
    assert Open(0);
  }

  // ---- the parts of a turn ----

  lemma DraftFits(f: Target, zero: Row, s: MtpState, drafted: seq<Entry>, r: Option<Round>)
    requires Keeps(f, zero, s) && IsDraftAt(drafted, s.stream, r)
    ensures Fits(s.memory, drafted) && IsDrafted(s, drafted)
  {
  }

  /** With the drafted positions removed, the memory is what it was. */
  lemma DraftGone(f: Target, zero: Row, s: MtpState, drafted: seq<Entry>, r: Round)
    requires Keeps(f, zero, s) && IsDraftAt(drafted, s.stream, Some(r))
    ensures Removed(Decoded(s.memory, drafted), |s.stream|) == Mtp.AfterDraft(s, drafted)
    ensures Fits(Mtp.AfterDraft(s, drafted), ShiftedRight(s.verify.pendingH, Inputs(f, s.stream, Verified(r))))
  {
    DraftFits(f, zero, s, drafted, Some(r));
    DraftRemoved(f, zero, s, drafted);
    ProcessKeeps(s.verify, Mtp.AfterDraft(s, drafted), zero, s.stream, TargetRows(f, s.stream),
        Inputs(f, s.stream, Verified(r)));
  }

  function MemoryAfterDraft(m: Memory, drafted: seq<Entry>, ts: seq<Token>, r: Option<Round>): Memory {
    if r.None? then m else Removed(Decoded(m, drafted), |ts|)
  }

  /** What `draft` writes, and the drafted positions removed again. */
  method DraftPart(d: MtpDrafter, ghost f: Target, ghost zero: Row, streams: seq<seq<Token>>, t: ServerTurn,
                   takesOthers: bool)
    requires d.Valid() && |streams| == d.nSeq && IsTurn(f, streams, t, takesOthers)
    requires AllKeep(f, zero, d.verify, d.memory, streams)
    modifies d`memory
    ensures d.Valid() && forall s :: 0 <= s < d.nSeq ==>
              d.memory[s] == MemoryAfterDraft(old(d.memory)[s], EntriesOf(t.drafted, s), streams[s], t.rounds[s])
  {
    AllDraftsFit(f, zero, d.verify, d.memory, streams, t, takesOthers);
    var ok := d.Decode(t.drafted, takesOthers);
    RemoveDrafts(d, streams, t);
    forall s | 0 <= s < d.nSeq && t.rounds[s].None?
      ensures d.memory[s] == old(d.memory)[s]
    {
      assert EntriesOf(t.drafted, s) == [];
    }
  }

  method RemoveDrafts(d: MtpDrafter, streams: seq<seq<Token>>, t: ServerTurn)
    requires d.Valid() && |streams| == |t.rounds| == d.nSeq
    modifies d`memory
    ensures d.Valid() && forall s :: 0 <= s < d.nSeq ==>
              d.memory[s] == if t.rounds[s].None? then old(d.memory)[s] else Removed(old(d.memory)[s], |streams[s]|)
  {
    var s := 0;
    while s < d.nSeq
      invariant 0 <= s <= d.nSeq && d.Valid()
      invariant forall k :: s <= k < d.nSeq ==> d.memory[k] == old(d.memory)[k]
      invariant forall k :: 0 <= k < s ==>
                  d.memory[k] == if t.rounds[k].None? then old(d.memory)[k] else Removed(old(d.memory)[k], |streams[k]|)
    {
      if t.rounds[s].Some? {
        d.Remove(s, |streams[s]|);
      }
      s := s + 1;
    }
  }

  lemma AllDraftsFit(f: Target, zero: Row, verify: seq<Verify>, memory: seq<Memory>, streams: seq<seq<Token>>,
                     t: ServerTurn, takesOthers: bool)
    requires AllKeep(f, zero, verify, memory, streams) && IsTurn(f, streams, t, takesOthers)
    ensures AllFit(memory, t.drafted)
  {
    forall s | 0 <= s < |memory|
      ensures Fits(memory[s], EntriesOf(t.drafted, s))
    {
      KeepsAt(f, zero, verify, memory, streams, s);
      DraftFits(f, zero, MtpState(verify[s], memory[s], streams[s]), EntriesOf(t.drafted, s), t.rounds[s]);
    }
  }

  lemma AllPartsFit(f: Target, zero: Row, verify: seq<Verify>, before: seq<Memory>, memory: seq<Memory>,
                    streams: seq<seq<Token>>, t: ServerTurn, takesOthers: bool, out: seq<Outgoing>)
    requires AllKeep(f, zero, verify, before, streams) && IsTurn(f, streams, t, takesOthers)
    requires |memory| == |before|
    requires forall s :: 0 <= s < |verify| ==>
               && memory[s] == MemoryAfterDraft(before[s], EntriesOf(t.drafted, s), streams[s], t.rounds[s])
               && EntriesOf(out, s) == ShiftedRight(verify[s].pendingH, Of(t.batch, t.h, s))
    ensures AllFit(memory, out)
  {
    forall s | 0 <= s < |memory|
      ensures Fits(memory[s], EntriesOf(out, s))
    {
      KeepsAt(f, zero, verify, before, streams, s);
      if t.rounds[s].Some? {
        DraftGone(f, zero, MtpState(verify[s], before[s], streams[s]), EntriesOf(t.drafted, s), t.rounds[s].value);
      }
    }
  }

  predicate Verdict(v: Verify, m: Memory, ts: seq<Token>, r: Option<Round>, v': Verify, m': Memory) {
    if r.None? then v' == v && m' == m
    else v' == AcceptedH(v, r.value.accepted) && m' == Removed(m, |ts| + |Kept(r.value)|)
  }

  /** The verdicts, and the positions behind the accepted tokens removed. */
  method AcceptPart(d: MtpDrafter, streams: seq<seq<Token>>, t: ServerTurn)
    requires d.Valid() && |streams| == |t.rounds| == d.nSeq
    modifies d
    ensures d.Valid() && forall s :: 0 <= s < d.nSeq ==>
              Verdict(old(d.verify)[s], old(d.memory)[s], streams[s], t.rounds[s], d.verify[s], d.memory[s])
  {
    var s := 0;
    while s < d.nSeq
      invariant 0 <= s <= d.nSeq && d.Valid()
      invariant forall k :: s <= k < d.nSeq ==> d.verify[k] == old(d.verify)[k] && d.memory[k] == old(d.memory)[k]
      invariant forall k :: 0 <= k < s ==>
                  Verdict(old(d.verify)[k], old(d.memory)[k], streams[k], t.rounds[k], d.verify[k], d.memory[k])
    {
      if t.rounds[s].Some? {
        d.Accept(s, t.rounds[s].value.accepted);
        d.Remove(s, |StreamAfter(streams[s], t.rounds[s])|);
      }
      s := s + 1;
    }
  }

  /** What one sequence goes through alone. */
  function StateAfter(f: Target, s: MtpState, drafted: seq<Entry>, r: Option<Round>): MtpState {
    if r.None? then s else Mtp.AfterRound(f, s, drafted, r.value)
  }

  ghost predicate StateKeeps(f: Target, zero: Row, s: MtpState) {
    forall k {:trigger Open(k)} :: Open(k) ==> Keeps(f, zero, s)
  }

  lemma RoundIs(f: Target, s: MtpState, drafted: seq<Entry>, r: Round, m: Memory, batch: seq<Input>, v': Verify,
                m': Memory)
    requires m == Mtp.AfterDraft(s, drafted) && batch == Inputs(f, s.stream, Verified(r))
    requires v' == AcceptedH(RefreshedH(s.verify, batch), r.accepted)
    requires m' == Removed(Decoded(m, ShiftedRight(s.verify.pendingH, batch)), |s.stream| + |Kept(r)|)
    ensures MtpState(v', m', s.stream + Kept(r)) == Mtp.AfterRound(f, s, drafted, r)
  {
  }

  lemma RoundDone(f: Target, zero: Row, s: MtpState, drafted: seq<Entry>, r: Round)
    requires StateKeeps(f, zero, s) && IsDraftAt(drafted, s.stream, Some(r))
    ensures StateKeeps(f, zero, Mtp.AfterRound(f, s, drafted, r))
  {
    assert Open(0);
    DraftFits(f, zero, s, drafted, Some(r));
    RoundKeeps(f, zero, s, drafted, r);
  }

  /** One sequence after the three parts of a turn. */
  lemma PartDone(f: Target, zero: Row, s: MtpState, drafted: seq<Entry>, r: Option<Round>, m: Memory,
                 batch: seq<Input>, v': Verify, m': Memory)
    requires StateKeeps(f, zero, s) && IsDraftAt(drafted, s.stream, r)
    requires m == MemoryAfterDraft(s.memory, drafted, s.stream, r) && batch == InputsOf(f, s.stream, r)
    requires Verdict(RefreshedH(s.verify, batch), Decoded(m, ShiftedRight(s.verify.pendingH, batch)), s.stream, r,
                     v', m')
    ensures MtpState(v', m', StreamAfter(s.stream, r)) == StateAfter(f, s, drafted, r)
    ensures StateKeeps(f, zero, MtpState(v', m', StreamAfter(s.stream, r)))
  {
    if r.Some? {
      RoundIs(f, s, drafted, r.value, m, batch, v', m');
      RoundDone(f, zero, s, drafted, r.value);
    }
  }

  /** A turn of the server: `process` succeeds, and each sequence is where it would be alone. */
  method ServeTurn(d: MtpDrafter, ghost f: Target, ghost zero: Row, streams: seq<seq<Token>>, t: ServerTurn,
                   takesOthers: bool)
    returns (ok: bool)
    requires d.Valid() && |streams| == d.nSeq && IsTurn(f, streams, t, takesOthers)
    requires AllKeep(f, zero, d.verify, d.memory, streams)
    modifies d
    ensures d.Valid() && ok && AllKeep(f, zero, d.verify, d.memory, StreamsAfter(streams, t))
    ensures forall s :: 0 <= s < d.nSeq ==>
              MtpState(d.verify[s], d.memory[s], StreamsAfter(streams, t)[s])
                  == StateAfter(f, MtpState(old(d.verify)[s], old(d.memory)[s], streams[s]),
                                EntriesOf(t.drafted, s), t.rounds[s])
  {
    ghost var verify, before := d.verify, d.memory;
    DraftPart(d, f, zero, streams, t, takesOthers);
    ghost var drafted := d.memory;
    ghost var out;
    ok, out := d.Process(t.batch, t.h, t.stale, takesOthers);
    AllPartsFit(f, zero, verify, before, drafted, streams, t, takesOthers, out);
    AcceptPart(d, streams, t);
    forall s | 0 <= s < d.nSeq
      ensures var state := MtpState(d.verify[s], d.memory[s], StreamsAfter(streams, t)[s]);
              Keeps(f, zero, state)
              && state == StateAfter(f, MtpState(verify[s], before[s], streams[s]), EntriesOf(t.drafted, s),
                                     t.rounds[s])
    {
      KeepsAt(f, zero, verify, before, streams, s);
      PartDone(f, zero, MtpState(verify[s], before[s], streams[s]), EntriesOf(t.drafted, s), t.rounds[s], drafted[s],
          Of(t.batch, t.h, s), d.verify[s], d.memory[s]);
      assert Open(0);
    }
  }

  /**
    Any run of the server over any sequences: no turn fails, and at the end the memory of every sequence holds
    (token[p], h[p - 1]) at every position of its stream.
   */
  method Serve(d: MtpDrafter, ghost f: Target, ghost zero: Row, streams: seq<seq<Token>>, turns: seq<ServerTurn>,
               takesOthers: bool)
    returns (ok: bool, now: seq<seq<Token>>)
    requires d.Valid() && |streams| == d.nSeq && IsServed(f, streams, turns, takesOthers)
    requires AllKeep(f, zero, d.verify, d.memory, streams)
    modifies d
    ensures d.Valid() && ok && now == StreamsAfterAll(streams, turns)
    ensures AllKeep(f, zero, d.verify, d.memory, now)
  {
    ok, now := true, streams;
    var i := 0;
    while i < |turns|
      invariant 0 <= i <= |turns| && d.Valid() && ok && |now| == d.nSeq
      invariant IsServed(f, now, turns[i..], takesOthers) && AllKeep(f, zero, d.verify, d.memory, now)
      invariant StreamsAfterAll(streams, turns) == StreamsAfterAll(now, turns[i..])
    {
      assert turns[i..][1..] == turns[i + 1..];
      ok := ServeTurn(d, f, zero, now, turns[i], takesOthers);
      now := StreamsAfter(now, turns[i]);
      i := i + 1;
    }
  }

  function StreamsAfterAll(streams: seq<seq<Token>>, turns: seq<ServerTurn>): seq<seq<Token>>
    decreases |turns|
  {
    if turns == [] || |turns[0].rounds| != |streams| then streams
    else StreamsAfterAll(StreamsAfter(streams, turns[0]), turns[1..])
  }
}

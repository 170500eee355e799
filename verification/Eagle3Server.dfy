/**
  The turns of the server around the EAGLE3 drafter (src/llm_server/server_context.cpp): drafts, the removal of what
  they wrote, the target's batch, the verdicts, and the removal of what was rejected, for several sequences at once.
 */
module Eagle3Server {
  import opened Hiding
  import opened Wrappers
  import opened Eagle3
  import opened Eagle3Draft
  import opened Eagle3Context

  /**
    What a turn does for each sequence, and the target's batch with the encoder's rows. A piece of a prompt is a round
    that is not drafted and is accepted as a whole: what `accept` would do there has been done by `process`.
   */
  datatype Turn = Turn(rounds: seq<Option<Round>>, batch: seq<Incoming>, g: seq<Row>)

  function InputsOf(f: Target, ts: seq<Token>, r: Option<Round>): seq<Input> {
    if r.None? then [] else Inputs(f, ts, Verified(r.value))
  }

  /** The batch holds the tokens of each sequence's round behind its stream, and any tokens of other sequences. */
  ghost predicate IsBatch(f: Target, streams: seq<seq<Token>>, t: Turn) {
    && |t.rounds| == |streams| && |t.g| == |t.batch| && Contiguous(t.batch)
    && forall s :: 0 <= s < |streams| ==> Of(t.batch, t.g, s) == InputsOf(f, streams[s], t.rounds[s])
  }

  function StreamAfter(ts: seq<Token>, r: Option<Round>): seq<Token> { if r.None? then ts else ts + Kept(r.value) }

  function StreamsAfter(streams: seq<seq<Token>>, t: Turn): (r: seq<seq<Token>>)
    requires |t.rounds| == |streams|
    ensures |r| == |streams| && forall s :: 0 <= s < |streams| ==> r[s] == StreamAfter(streams[s], t.rounds[s])
  {
    seq(|streams|, s requires 0 <= s < |streams| => StreamAfter(streams[s], t.rounds[s]))
  }

  ghost predicate IsRun(f: Target, streams: seq<seq<Token>>, turns: seq<Turn>)
    decreases |turns|
  {
    turns == [] || (IsBatch(f, streams, turns[0]) && IsRun(f, StreamsAfter(streams, turns[0]), turns[1..]))
  }

  /** The rounds of one sequence in a run. */
  function RoundsOf(turns: seq<Turn>, s: nat): seq<Round> {
    if turns == [] then []
    else
      var n := |turns| - 1;
      RoundsOf(turns[..n], s)
      + if s < |turns[n].rounds| && turns[n].rounds[s].Some? then [turns[n].rounds[s].value] else []
  }

  /** What one sequence goes through alone. */
  function StateAfter(f: Target, s: State, r: Option<Round>): State {
    if r.None? then s else AfterRound(f, s, r.value)
  }

  ghost predicate AllStand(f: Target, slots: seq<Slot>, memory: seq<Memory>, streams: seq<seq<Token>>) {
    && |slots| == |memory| == |streams|
    && forall k {:trigger Open(k)} :: Open(k) ==>
      forall s :: 0 <= s < |slots| ==> Stands(f, State(slots[s], memory[s], streams[s]))
  }

  lemma StandsAt(f: Target, slots: seq<Slot>, memory: seq<Memory>, streams: seq<seq<Token>>, s: nat)
    requires AllStand(f, slots, memory, streams) && s < |slots|
    ensures Stands(f, State(slots[s], memory[s], streams[s]))
  {
    assert Open(0);
  }

  // ---- the parts of a turn ----

  /** What `draft` is asked for. */
  function RequestOf(r: Option<Round>): Request {
    if r.None? then Request(false, 0) else Request(r.value.drafted, r.value.idLast)
  }

  lemma StandsCanSeed(f: Target, s: State)
    requires Stands(f, s)
    ensures s.slot.pendingPos >= 0 ==> CanSeed(s.slot, s.memory)
  {
  }

  /** With the drafted positions removed, the memory is as if only the open boundary had been completed. */
  lemma DraftRemoved(f: Target, pick: Picker, t: nat, s: State, r: Round, nMax: int)
    requires Stands(f, s)
    ensures var q := DraftOf(pick, t, s.slot, s.memory, Request(r.drafted, r.idLast), nMax);
            (if r.drafted then Removed(q.memory, |s.stream|) else q.memory) == AfterDraft(s, r)
  {
    StandsCanSeed(f, s);
    if r.drafted && s.slot.pendingPos >= 0 {
      DraftLeavesSeed(pick, t, s.slot, s.memory, Request(r.drafted, r.idLast), nMax);
      SeedLength(f, s, r.idLast);
    }
  }

  lemma SeedLength(f: Target, s: State, idLast: Token)
    requires Stands(f, s) && s.slot.pendingPos >= 0
    ensures Removed(Seed(s.slot, s.memory, idLast), s.slot.pendingPos + 1) == Seed(s.slot, s.memory, idLast)
  {
  }

  function MemoryAfterDraft(slot: Slot, m: Memory, ts: seq<Token>, r: Option<Round>): Memory {
    if r.None? then m else AfterDraft(State(slot, m, ts), r.value)
  }

  /** The part of the batch of one sequence fits behind its memory. */
  lemma PartFits(f: Target, s: State, r: Option<Round>)
    requires Stands(f, s)
    ensures var m := MemoryAfterDraft(s.slot, s.memory, s.stream, r);
            Fits(m, WrittenOf(s.slot, m, InputsOf(f, s.stream, r)))
  {
    if r.Some? {
      DraftSeeds(f, s, r.value);
      RowsAppend(f, s.stream, Verified(r.value));
      ProcessExtends(s.slot, AfterDraft(s, r.value), s.stream, TargetRows(f, s.stream), BatchOf(f, s, r.value));
    }
  }

  /** The slot and the memory of a sequence once its part of the batch is processed and its verdict is in. */
  lemma PartAfter(f: Target, s: State, r: Round, m: Memory, batch: seq<Input>)
    requires Stands(f, s) && m == AfterDraft(s, r) && batch == Inputs(f, s.stream, Verified(r))
    ensures AfterRound(f, s, r)
         == State(Accepted(RefreshedOf(s.slot, batch), r.accepted),
                  Removed(Decoded(m, WrittenOf(s.slot, m, batch)), |s.stream| + |Kept(r)|), s.stream + Kept(r))
  {
    SlotEnd(f, s, r, batch);
    PartIs(f, s, r, m, batch, Accepted(Refreshed(batch), r.accepted));
  }

  lemma SlotEnd(f: Target, s: State, r: Round, batch: seq<Input>)
    requires batch == Inputs(f, s.stream, Verified(r)) && batch != []
    ensures Accepted(Refreshed(batch), r.accepted).pendingPos + 1 == |s.stream| + |Kept(r)|
  {
    RoundSlot(f, s, r);
  }

  lemma PartIs(f: Target, s: State, r: Round, m: Memory, batch: seq<Input>, slot: Slot)
    requires m == AfterDraft(s, r) && batch == Inputs(f, s.stream, Verified(r)) && batch != []
    requires slot == Accepted(Refreshed(batch), r.accepted)
    ensures AfterRound(f, s, r)
         == State(slot, Removed(Decoded(m, Written(s.slot, m, batch)), slot.pendingPos + 1), s.stream + Kept(r))
  {
  }

  /** Drafts for the sequences that ask for one, and the drafted positions removed again. */
  method DraftPart(d: Drafter, ghost f: Target, streams: seq<seq<Token>>, t: Turn, model: Model, sampler: Sampler,
                   nMax: int, nMin: int)
    requires d.Valid() && |streams| == |t.rounds| == d.nSeq && AllStand(f, d.slots, d.memory, streams)
    modifies d`memory
    ensures d.Valid() && forall s :: 0 <= s < d.nSeq ==>
              d.memory[s] == MemoryAfterDraft(d.slots[s], old(d.memory)[s], streams[s], t.rounds[s])
  {
    var requests := seq(d.nSeq, s requires 0 <= s < |t.rounds| => RequestOf(t.rounds[s]));
    AllStandCanSeed(f, d.slots, d.memory, streams, requests);
    var drafts := d.Draft(requests, model, sampler, nMax, nMin);
    ghost var slots, before, drafted := d.slots, old(d.memory), d.memory;
    RemoveDrafts(d, streams, t);
    forall s | 0 <= s < d.nSeq
      ensures d.memory[s] == MemoryAfterDraft(slots[s], before[s], streams[s], t.rounds[s])
    {
      assert IsDraft(PickerOf(model, sampler), s, slots[s], before[s], requests[s], nMax, nMin, drafted[s], drafts[s]);
      StandsAt(f, slots, before, streams, s);
      PartDrafted(f, PickerOf(model, sampler), s, State(slots[s], before[s], streams[s]), t.rounds[s], nMax);
    }
  }

  /** `common_context_seq_rm` on the draft context, for the sequences that were drafted. */
  method RemoveDrafts(d: Drafter, streams: seq<seq<Token>>, t: Turn)
    requires d.Valid() && |streams| == |t.rounds| == d.nSeq
    modifies d`memory
    ensures d.Valid() && forall s :: 0 <= s < d.nSeq ==>
              d.memory[s] == Undrafted(old(d.memory)[s], streams[s], t.rounds[s])
  {
    var s := 0;
    while s < d.nSeq
      invariant 0 <= s <= d.nSeq && d.Valid()
      invariant forall k :: s <= k < d.nSeq ==> d.memory[k] == old(d.memory)[k]
      invariant forall k :: 0 <= k < s ==> d.memory[k] == Undrafted(old(d.memory)[k], streams[k], t.rounds[k])
    {
      if t.rounds[s].Some? && t.rounds[s].value.drafted {
        d.Remove(s, |streams[s]|);
      }
      s := s + 1;
    }
  }

  function Undrafted(m: Memory, ts: seq<Token>, r: Option<Round>): Memory {
    if r.Some? && r.value.drafted then Removed(m, |ts|) else m
  }

  lemma PartDrafted(f: Target, pick: Picker, t: nat, s: State, r: Option<Round>, nMax: int)
    requires Stands(f, s)
    ensures Undrafted(DraftOf(pick, t, s.slot, s.memory, RequestOf(r), nMax).memory, s.stream, r)
         == MemoryAfterDraft(s.slot, s.memory, s.stream, r)
  {
    if r.Some? {
      DraftRemoved(f, pick, t, s, r.value, nMax);
    }
  }

  lemma AllStandCanSeed(f: Target, slots: seq<Slot>, memory: seq<Memory>, streams: seq<seq<Token>>,
                        requests: seq<Request>)
    requires AllStand(f, slots, memory, streams) && |requests| == |slots|
    ensures AllCanSeed(slots, memory, requests)
  {
    forall s | 0 <= s < |slots| && Starts(slots[s], requests[s])
      ensures CanSeed(slots[s], memory[s])
    {
      StandsAt(f, slots, memory, streams, s);
      StandsCanSeed(f, State(slots[s], memory[s], streams[s]));
    }
  }

  /** Everything that `process` writes fits. */
  lemma AllPartsFit(f: Target, slots: seq<Slot>, before: seq<Memory>, memory: seq<Memory>, streams: seq<seq<Token>>,
                    t: Turn, out: seq<Outgoing>)
    requires AllStand(f, slots, before, streams) && IsBatch(f, streams, t) && |memory| == |before|
    requires IsShared(out, slots, memory, t.batch, t.g, |slots|)
    requires forall s :: 0 <= s < |slots| ==>
               memory[s] == MemoryAfterDraft(slots[s], before[s], streams[s], t.rounds[s])
    ensures AllFit(memory, out)
  {
    forall s | 0 <= s < |memory|
      ensures Fits(memory[s], EntriesOf(out, s))
    {
      StandsAt(f, slots, before, streams, s);
      PartFits(f, State(slots[s], before[s], streams[s]), t.rounds[s]);
    }
  }

  /** The verdicts, and the positions behind the accepted tokens removed. */
  method AcceptPart(d: Drafter, streams: seq<seq<Token>>, t: Turn)
    requires d.Valid() && |streams| == |t.rounds| == d.nSeq
    modifies d
    ensures d.Valid() && forall s :: 0 <= s < d.nSeq ==>
              Verdict(old(d.slots)[s], old(d.memory)[s], streams[s], t.rounds[s], d.slots[s], d.memory[s])
  {
    var s := 0;
    while s < d.nSeq
      invariant 0 <= s <= d.nSeq && d.Valid()
      invariant forall k :: s <= k < d.nSeq ==> d.slots[k] == old(d.slots)[k] && d.memory[k] == old(d.memory)[k]
      invariant forall k :: 0 <= k < s ==>
                  Verdict(old(d.slots)[k], old(d.memory)[k], streams[k], t.rounds[k], d.slots[k], d.memory[k])
    {
      if t.rounds[s].Some? {
        d.Accept(s, t.rounds[s].value.accepted);
        d.Remove(s, |StreamAfter(streams[s], t.rounds[s])|);
      }
      s := s + 1;
    }
  }

  predicate Verdict(slot: Slot, m: Memory, ts: seq<Token>, r: Option<Round>, slot': Slot, m': Memory) {
    if r.None? then slot' == slot && m' == m
    else slot' == Accepted(slot, r.value.accepted) && m' == Removed(m, |ts| + |Kept(r.value)|)
  }

  ghost predicate StateStands(f: Target, s: State) { forall k {:trigger Open(k)} :: Open(k) ==> Stands(f, s) }

  /** One sequence after the three parts of a turn. */
  lemma PartDone(f: Target, s: State, r: Option<Round>, m: Memory, batch: seq<Input>, slot': Slot, m': Memory)
    requires StateStands(f, s) && m == MemoryAfterDraft(s.slot, s.memory, s.stream, r)
    requires batch == InputsOf(f, s.stream, r)
    requires Verdict(RefreshedOf(s.slot, batch), Decoded(m, WrittenOf(s.slot, m, batch)), s.stream, r, slot', m')
    ensures State(slot', m', StreamAfter(s.stream, r)) == StateAfter(f, s, r)
    ensures StateStands(f, State(slot', m', StreamAfter(s.stream, r)))
  {
    if r.Some? {
      RoundDone(f, s, r.value, m, batch, slot', m');
    } else {
      NothingDone(f, s, m, batch, slot', m');
    }
  }

  lemma NothingDone(f: Target, s: State, m: Memory, batch: seq<Input>, slot': Slot, m': Memory)
    requires StateStands(f, s) && m == MemoryAfterDraft(s.slot, s.memory, s.stream, None)
    requires batch == InputsOf(f, s.stream, None)
    requires Verdict(RefreshedOf(s.slot, batch), Decoded(m, WrittenOf(s.slot, m, batch)), s.stream, None, slot', m')
    ensures State(slot', m', StreamAfter(s.stream, None)) == StateAfter(f, s, None)
    ensures StateStands(f, State(slot', m', StreamAfter(s.stream, None)))
  {
  }

  lemma RoundDone(f: Target, s: State, r: Round, m: Memory, batch: seq<Input>, slot': Slot, m': Memory)
    requires StateStands(f, s) && m == MemoryAfterDraft(s.slot, s.memory, s.stream, Some(r))
    requires batch == InputsOf(f, s.stream, Some(r))
    requires Verdict(RefreshedOf(s.slot, batch), Decoded(m, WrittenOf(s.slot, m, batch)), s.stream, Some(r), slot', m')
    ensures State(slot', m', StreamAfter(s.stream, Some(r))) == StateAfter(f, s, Some(r))
    ensures StateStands(f, State(slot', m', StreamAfter(s.stream, Some(r))))
  {
    RoundGives(f, s, r, m, batch, slot', m');
    StandsOn(f, s, r);
  }

  lemma RoundGives(f: Target, s: State, r: Round, m: Memory, batch: seq<Input>, slot': Slot, m': Memory)
    requires StateStands(f, s) && m == AfterDraft(s, r) && batch == Inputs(f, s.stream, Verified(r))
    requires slot' == Accepted(RefreshedOf(s.slot, batch), r.accepted)
    requires m' == Removed(Decoded(m, WrittenOf(s.slot, m, batch)), |s.stream| + |Kept(r)|)
    ensures State(slot', m', s.stream + Kept(r)) == AfterRound(f, s, r)
  {
    assert Open(0);
    PartAfter(f, s, r, m, batch);
  }

  lemma StandsOn(f: Target, s: State, r: Round)
    requires StateStands(f, s)
    ensures StateStands(f, AfterRound(f, s, r))
  {
    assert Open(0);
    RoundStands(f, s, r);
  }

  /** A turn of the server: `process` succeeds, and each sequence is where it would be alone. */
  method ServeTurn(d: Drafter, ghost f: Target, streams: seq<seq<Token>>, t: Turn, model: Model, sampler: Sampler,
                   nMax: int, nMin: int)
    returns (ok: bool)
    requires d.Valid() && |streams| == d.nSeq && IsBatch(f, streams, t) && AllStand(f, d.slots, d.memory, streams)
    modifies d
    ensures d.Valid() && ok && AllStand(f, d.slots, d.memory, StreamsAfter(streams, t))
    ensures forall s :: 0 <= s < d.nSeq ==>
              State(d.slots[s], d.memory[s], StreamsAfter(streams, t)[s])
                  == StateAfter(f, State(old(d.slots)[s], old(d.memory)[s], streams[s]), t.rounds[s])
  {
    ghost var slots, before := d.slots, d.memory;
    DraftPart(d, f, streams, t, model, sampler, nMax, nMin);
    ghost var drafted := d.memory;
    ghost var out;
    ok, out := d.Process(t.batch, t.g);
    AllPartsFit(f, slots, before, drafted, streams, t, out);
    AcceptPart(d, streams, t);
    forall s | 0 <= s < d.nSeq
      ensures var state := State(d.slots[s], d.memory[s], StreamsAfter(streams, t)[s]);
              Stands(f, state) && state == StateAfter(f, State(slots[s], before[s], streams[s]), t.rounds[s])
    {
      StandsAt(f, slots, before, streams, s);
      PartDone(f, State(slots[s], before[s], streams[s]), t.rounds[s], drafted[s], Of(t.batch, t.g, s), d.slots[s],
          d.memory[s]);
      assert Open(0);
    }
  }

  // ---- all turns ----

  lemma FirstOfMore(rs: seq<Round>, r: Round)
    requires rs != []
    ensures (rs + [r])[0] == rs[0] && (rs + [r])[1..] == rs[1..] + [r]
  {
  }

  lemma {:induction false} RoundsAppend(f: Target, s: State, rs: seq<Round>, r: Round)
    ensures AfterRounds(f, s, rs + [r]) == AfterRound(f, AfterRounds(f, s, rs), r)
    decreases |rs|
  {
    if rs == [] {
      assert rs + [r] == [r] && [r][1..] == [];
      assert AfterRounds(f, s, [r]) == AfterRounds(f, AfterRound(f, s, r), []);
    } else {
      RoundsAppend(f, AfterRound(f, s, rs[0]), rs[1..], r);
      FirstOfMore(rs, r);
    }
  }

  lemma OneMoreTurn(f: Target, s: State, turns: seq<Turn>, i: nat, k: nat)
    requires i < |turns| && k < |turns[i].rounds|
    ensures AfterRounds(f, s, RoundsOf(turns[..i + 1], k))
         == StateAfter(f, AfterRounds(f, s, RoundsOf(turns[..i], k)), turns[i].rounds[k])
  {
    assert turns[..i + 1][..i] == turns[..i];
    if turns[i].rounds[k].Some? {
      RoundsAppend(f, s, RoundsOf(turns[..i], k), turns[i].rounds[k].value);
    } else {
      assert RoundsOf(turns[..i], k) + [] == RoundsOf(turns[..i], k);
    }
  }

  /** Every sequence is where its own rounds alone would have taken it. */
  ghost predicate AllAfter(f: Target, slots: seq<Slot>, memory: seq<Memory>, streams: seq<seq<Token>>,
                           turns: seq<Turn>, slots': seq<Slot>, memory': seq<Memory>, streams': seq<seq<Token>>) {
    && |slots| == |memory| == |streams| == |slots'| == |memory'| == |streams'|
    && forall k {:trigger Open(k)} :: Open(k) ==>
      forall s :: 0 <= s < |slots| ==>
        State(slots'[s], memory'[s], streams'[s])
        == AfterRounds(f, State(slots[s], memory[s], streams[s]), RoundsOf(turns, s))
  }

  lemma AllAfterNone(f: Target, slots: seq<Slot>, memory: seq<Memory>, streams: seq<seq<Token>>)
    requires |slots| == |memory| == |streams|
    ensures AllAfter(f, slots, memory, streams, [], slots, memory, streams)
  {
  }

  lemma AllAfterMore(f: Target, slots: seq<Slot>, memory: seq<Memory>, streams: seq<seq<Token>>, turns: seq<Turn>,
                     i: nat, slots1: seq<Slot>, memory1: seq<Memory>, streams1: seq<seq<Token>>, slots': seq<Slot>,
                     memory': seq<Memory>)
    requires i < |turns| && AllAfter(f, slots, memory, streams, turns[..i], slots1, memory1, streams1)
    requires |turns[i].rounds| == |slots| == |slots'| == |memory'|
    requires forall s :: 0 <= s < |slots| ==>
               State(slots'[s], memory'[s], StreamsAfter(streams1, turns[i])[s])
                   == StateAfter(f, State(slots1[s], memory1[s], streams1[s]), turns[i].rounds[s])
    ensures AllAfter(f, slots, memory, streams, turns[..i + 1], slots', memory', StreamsAfter(streams1, turns[i]))
  {
    assert Open(0);
    forall s | 0 <= s < |slots|
      ensures State(slots'[s], memory'[s], StreamsAfter(streams1, turns[i])[s])
           == AfterRounds(f, State(slots[s], memory[s], streams[s]), RoundsOf(turns[..i + 1], s))
    {
      OneMoreTurn(f, State(slots[s], memory[s], streams[s]), turns, i, s);
    }
  }

  /**
    Any run of the server over any sequences: no turn fails, and each sequence goes through its own rounds as if it
    were alone.
   */
  method Serve(d: Drafter, ghost f: Target, streams: seq<seq<Token>>, turns: seq<Turn>, model: Model,
               sampler: Sampler, nMax: int, nMin: int)
    returns (ok: bool, now: seq<seq<Token>>)
    requires d.Valid() && |streams| == d.nSeq && IsRun(f, streams, turns)
    requires AllStand(f, d.slots, d.memory, streams)
    modifies d
    ensures d.Valid() && ok && AllStand(f, d.slots, d.memory, now)
    ensures AllAfter(f, old(d.slots), old(d.memory), streams, turns, d.slots, d.memory, now)
  {
    ok, now := true, streams;
    AllAfterNone(f, d.slots, d.memory, streams);
    var i := 0;
    while i < |turns|
      invariant 0 <= i <= |turns| && d.Valid() && ok && |now| == d.nSeq
      invariant IsRun(f, now, turns[i..]) && AllStand(f, d.slots, d.memory, now)
      invariant AllAfter(f, old(d.slots), old(d.memory), streams, turns[..i], d.slots, d.memory, now)
    {
      RunTurn(f, now, turns, i);
      ghost var slots1, memory1 := d.slots, d.memory;
      ok := ServeTurn(d, f, now, turns[i], model, sampler, nMax, nMin);
      AllAfterMore(f, old(d.slots), old(d.memory), streams, turns, i, slots1, memory1, now, d.slots, d.memory);
      now := StreamsAfter(now, turns[i]);
      i := i + 1;
    }
    assert turns[..i] == turns;
  }

  lemma RunTurn(f: Target, streams: seq<seq<Token>>, turns: seq<Turn>, i: nat)
    requires i < |turns| && IsRun(f, streams, turns[i..])
    ensures IsBatch(f, streams, turns[i]) && IsRun(f, StreamsAfter(streams, turns[i]), turns[i + 1..])
  {
    assert turns[i..][1..] == turns[i + 1..];
  }

  /** A fresh drafter. */
  lemma FreshStands(f: Target, slots: seq<Slot>, memory: seq<Memory>, streams: seq<seq<Token>>, zero: Row)
    requires |slots| == |memory| == |streams|
    requires forall s :: 0 <= s < |slots| ==>
               slots[s] == Slot(-1, zero, -1, []) && memory[s] == Memory(0, []) && streams[s] == []
    ensures AllStand(f, slots, memory, streams)
  {
  }

  /** Over any run of the server from a fresh drafter, the memory of a sequence is right exactly if its rounds are. */
  lemma ServedHoldsIff(f: Target, slots: seq<Slot>, memory: seq<Memory>, streams: seq<seq<Token>>, zero: Row,
                       turns: seq<Turn>, slots': seq<Slot>, memory': seq<Memory>, now: seq<seq<Token>>, s: nat)
    requires AllAfter(f, slots, memory, streams, turns, slots', memory', now) && s < |slots|
    requires slots[s] == Slot(-1, zero, -1, []) && memory[s] == Memory(0, []) && streams[s] == []
    ensures MemoryHolds(f, State(slots'[s], memory'[s], now[s])) <==> Sound(RoundsOf(turns, s), Free)
  {
    assert Open(0);
    RunHoldsIff(f, State(slots[s], memory[s], streams[s]), RoundsOf(turns, s), Free);
  }
}

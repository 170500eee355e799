/**
  `draft` and `accept` of the EAGLE3 drafter of common/speculative.cpp: sequences are drafted together, one token of
  each per decode, and every one of them gets the draft it would have got alone.
 */
module Eagle3Draft {
  import opened Eagle3

  /** What the draft model gives for an entry of a batch: the logits, and the hidden state before the norm. */
  datatype Output = Output(logits: Row, prenorm: Row)

  /** The draft model, on the memory of a sequence up to and with the entry. */
  type Model = Memory -> Output

  datatype Sampled = Sampled(id: Token, sure: bool)

  /** The samplers, on a row of logits and the tokens accepted since the reset; sure if `p_min` is reached. */
  type Sampler = (nat, Row, seq<Token>) -> Sampled

  /** What sampling at the last position of a sequence gives. */
  datatype Choice = Choice(id: Token, sure: bool, row: Row)

  function Choose(sampler: Sampler, s: nat, o: Output, ts: seq<Token>): Choice {
    var c := sampler(s, o.logits, ts);
    Choice(c.id, c.sure, o.prenorm)
  }

  /** The draft model and the sampler together, on the memory of a sequence and the tokens drafted so far. */
  type Picker = (nat, Memory, seq<Token>) -> Choice

  function PickerOf(model: Model, sampler: Sampler): Picker {
    (s: nat, m: Memory, ts: seq<Token>) => Choose(sampler, s, model(m), ts)
  }

  datatype Request = Request(drafting: bool, idLast: Token)

  datatype Progress = Progress(drafting: bool, memory: Memory, result: seq<Token>)

  /** One token more for a sequence, unless it is unsure or the draft is long enough. */
  function StepOne(pick: Picker, s: nat, base: int, nMax: int, p: Progress): Progress {
    if !p.drafting then p
    else
      var c := pick(s, p.memory, p.result);
      if !c.sure then Progress(false, p.memory, p.result)
      else if nMax <= |p.result| + 1 then Progress(false, p.memory, p.result + [c.id])
      else Progress(true, Decoded(p.memory, [Entry(base + |p.result| + 1, Cell(c.id, c.row))]), p.result + [c.id])
  }

  /** The draft of one sequence alone. */
  function Alone(pick: Picker, s: nat, base: int, nMax: int, p: Progress): Progress
    decreases if !p.drafting then 0 else if nMax > |p.result| then nMax - |p.result| + 1 else 1
  {
    if !p.drafting then p else Alone(pick, s, base, nMax, StepOne(pick, s, base, nMax, p))
  }

  predicate Starts(slot: Slot, r: Request) { r.drafting && slot.pendingPos >= 0 }

  /** The open boundary can be completed: the memory reaches up to it. */
  predicate CanSeed(slot: Slot, m: Memory) {
    var m' := Removed(m, slot.pendingPos);
    m'.cells == [] || PosMax(m') + 1 == slot.pendingPos
  }

  function Seeded(slot: Slot, m: Memory, r: Request): Progress {
    if Starts(slot, r) then Progress(true, Seed(slot, m, r.idLast), []) else Progress(false, m, [])
  }

  /** The draft of a sequence, and what it leaves in the memory. */
  function DraftOf(pick: Picker, s: nat, slot: Slot, m: Memory, r: Request, nMax: int): Progress {
    Alone(pick, s, slot.pendingPos, nMax, Seeded(slot, m, r))
  }

  /** A drafting sequence stands at the position of its last token. */
  predicate InStep(slot: Slot, p: Progress, i: nat) {
    p.drafting ==> |p.result| == i && p.memory.cells != [] && PosMax(p.memory) == slot.pendingPos + i
  }

  lemma SeedInStep(slot: Slot, m: Memory, r: Request)
    requires CanSeed(slot, m)
    ensures InStep(slot, Seeded(slot, m, r), 0)
    ensures Starts(slot, r) ==>
            Fits(Removed(m, slot.pendingPos), [Entry(slot.pendingPos, Cell(r.idLast, slot.pendingG))])
  {
  }

  lemma StepInStep(pick: Picker, s: nat, slot: Slot, nMax: int, p: Progress, i: nat)
    requires InStep(slot, p, i)
    ensures InStep(slot, StepOne(pick, s, slot.pendingPos, nMax, p), i + 1)
    ensures Fits(p.memory, AddedBy(pick, s, slot.pendingPos, nMax, p))
    ensures StepOne(pick, s, slot.pendingPos, nMax, p).drafting ==> i + 1 < nMax
  {
  }

  /** What the step adds to the batch. */
  function AddedBy(pick: Picker, s: nat, base: int, nMax: int, p: Progress): seq<Entry> {
    if StepOne(pick, s, base, nMax, p).drafting then
      var c := pick(s, p.memory, p.result);
      [Entry(base + |p.result| + 1, Cell(c.id, c.row))]
    else []
  }

  lemma StepMemory(pick: Picker, s: nat, base: int, nMax: int, p: Progress)
    ensures StepOne(pick, s, base, nMax, p).memory == Decoded(p.memory, AddedBy(pick, s, base, nMax, p))
  {
  }

  /** A draft has at most max(1, n_max) tokens, and below the open position it leaves the memory alone. */
  lemma {:induction false} AloneKeeps(pick: Picker, s: nat, base: int, nMax: int, p: Progress)
    requires p.memory.cells != [] && PosMax(p.memory) == base + |p.result|
    ensures var q := Alone(pick, s, base, nMax, p);
            && p.memory.start == q.memory.start && p.memory.cells <= q.memory.cells && p.result <= q.result
            && (|p.result| < nMax ==> |q.result| <= nMax)
               && |q.result| <= if |p.result| < nMax then nMax else |p.result| + 1
    decreases if !p.drafting then 0 else if nMax > |p.result| then nMax - |p.result| + 1 else 1
  {
    if p.drafting {
      var q := StepOne(pick, s, base, nMax, p);
      if q.drafting {
        AloneKeeps(pick, s, base, nMax, q);
      }
    }
  }

  /** With the drafted positions removed, what `draft` leaves is the seed. */
  lemma DraftLeavesSeed(pick: Picker, s: nat, slot: Slot, m: Memory, r: Request, nMax: int)
    requires Starts(slot, r) && CanSeed(slot, m)
    ensures var q := DraftOf(pick, s, slot, m, r, nMax);
            && Removed(q.memory, slot.pendingPos + 1) == Seed(slot, m, r.idLast)
            && |q.result| <= if nMax > 0 then nMax else 1
  {
    var p := Seeded(slot, m, r);
    SeedInStep(slot, m, r);
    AloneKeeps(pick, s, slot.pendingPos, nMax, p);
    var q := DraftOf(pick, s, slot, m, r, nMax);
    assert q.memory.cells[..|p.memory.cells|] == p.memory.cells;
  }
}

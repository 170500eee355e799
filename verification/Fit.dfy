/**
  Step 3 of `common_params_fit_impl` in common/fit.cpp for a dense model: layers are given to the devices from the last
  one to the first, each time as many as the method of false position finds to fit.
 */
module Fit {

  type Layers = seq<nat>

  /** The memory that each device would use, for the numbers of layers per device: a black box. */
  type Oracle = Layers -> seq<int>

  function Sum(s: Layers): nat {
    if s == [] then 0 else s[0] + Sum(s[1..])
  }

  /** The memory of a device depends only on its own layers and those of later devices. */
  ghost predicate DependsOnLater(m: Oracle, nd: nat) {
    && (forall c: Layers | |c| == nd :: |m(c)| == nd)
    && forall c: Layers, d: Layers, id: nat | |c| == |d| == nd && id < nd && c[id..] == d[id..] :: m(c)[id] == m(d)[id]
  }

  /** A device without layers is within its target. */
  ghost predicate ZeroFits(m: Oracle, targets: seq<int>) {
    forall c: Layers, id: nat | |c| == |targets| == |m(c)| && id < |c| && c[id] == 0 :: m(c)[id] <= targets[id]
  }

  /** The layers that the later devices leave. */
  function Unassigned(c: Layers, id: nat, total: nat): int
    requires id < |c|
  {
    total - Sum(c[id + 1..])
  }

  /** The device fits, and either it has all layers that are left or one layer more was measured over its target. */
  ghost predicate IsSettled(m: Oracle, targets: seq<int>, c: Layers, id: nat, total: nat)
    requires |targets| == |c| && id < |c|
  {
    && |m(c)| == |c| && m(c)[id] <= targets[id]
    && var d := c[id := c[id] + 1];
       c[id] == Unassigned(c, id, total) || (|m(d)| == |c| && m(d)[id] > targets[id])
  }

  ghost predicate AllSettled(m: Oracle, targets: seq<int>, c: Layers, from: nat, total: nat)
    requires |targets| == |c|
  {
    forall id :: from <= id < |c| ==> IsSettled(m, targets, c, id, total)
  }

  /** What comes before a device does not matter for it. */
  lemma SettledEarlier(m: Oracle, targets: seq<int>, c: Layers, d: Layers, id: nat, total: nat)
    requires DependsOnLater(m, |c|) && |targets| == |c| == |d| && id < |c| && c[id..] == d[id..]
    requires IsSettled(m, targets, c, id, total)
    ensures IsSettled(m, targets, d, id, total)
  {
    assert c[id] == c[id..][0] && d[id] == d[id..][0];
    assert c[id + 1..] == c[id..][1..] && d[id + 1..] == d[id..][1..];
    var c', d' := c[id := c[id] + 1], d[id := d[id] + 1];
    assert c'[id..] == [c[id] + 1] + c[id + 1..] && d'[id..] == [d[id] + 1] + d[id + 1..];
  }

  const UINT32_RANGE := 0x1_0000_0000

  /** The interpolated guess lies below the distance, so its conversion to 32 bits loses nothing. */
  lemma GuessInRange(delta: nat, a: nat, b: nat)
    requires a < b && delta > 0
    ensures 0 <= delta * a / b < delta
  {
    var q := delta * a / b;
    assert b * q <= delta * a;
    assert delta * a < delta * b by {
      Less(delta, a, b);
    }
    if q >= delta {
      assert b * q >= b * delta by {
        AtLeast(b, delta, q);
      }
      assert false;
    }
  }

  lemma Less(k: nat, a: nat, b: nat)
    requires k > 0 && a < b
    ensures k * a < k * b
  {
  }

  lemma AtLeast(k: nat, a: nat, b: nat)
    requires a <= b
    ensures k * a <= k * b
  {
  }

  /** The step of the interpolation, kept strictly between the bounds; the division is by a positive number. */
  method Step(delta: nat, target: int, low: int, high: int) returns (step: nat)
    requires 1 < delta < UINT32_RANGE && low <= target < high
    ensures 1 <= step <= delta - 1
    ensures var guess := delta * (target - low) / (high - low);
            0 <= guess < delta && step == if guess < 1 then 1 else guess
  {
    GuessInRange(delta, target - low, high - low);
    step := delta * (target - low) / (high - low) % UINT32_RANGE;
    step := if step > 1 then step else 1;
    step := if step < delta - 1 then step else delta - 1;
  }

  ghost function With(c: Layers, id: nat, n: nat): Layers
    requires id < |c|
  {
    c[id := n]
  }

  lemma WithTwice(c: Layers, id: nat, n: nat, k: nat)
    requires id < |c|
    ensures |With(c, id, n)| == |c| && With(c, id, n)[id] == n && With(c, id, n)[id := k] == With(c, id, k)
  {
  }

  /**
    One device: its number of layers is raised between a count that fits and one that does not, until the two are
    neighbours. The divisor is positive throughout and the distance shrinks in every turn.
  */
  method FalsePosition(m: Oracle, target: int, ghost start: Layers, id: nat, low: Layers, memLow: seq<int>,
                       high0: Layers, memHigh0: seq<int>)
    returns (ngl: Layers, mem: seq<int>)
    requires (forall c: Layers | |c| == |start| :: |m(c)| == |c|) && id < |low| == |high0| == |start|
    requires low == With(start, id, low[id]) && high0 == With(start, id, high0[id])
             && low[id] < high0[id] < UINT32_RANGE
    requires memLow == m(low) && memHigh0 == m(high0) && memLow[id] <= target < memHigh0[id]
    ensures |ngl| == |start| && ngl == With(start, id, ngl[id]) && low[id] <= ngl[id] < high0[id]
    ensures mem == m(ngl) && mem[id] <= target < m(With(start, id, ngl[id] + 1))[id]
  {
    ngl, mem := low, memLow;
    var high, memHigh := high0, memHigh0;
    var delta: int := high[id] - ngl[id];
    while delta > 1
      invariant |ngl| == |high| == |start| && ngl == With(start, id, ngl[id]) && high == With(start, id, high[id])
      invariant mem == m(ngl) && memHigh == m(high) && mem[id] <= target < memHigh[id]
      invariant ngl[id] + delta == high[id] && delta >= 1 && low[id] <= ngl[id] && high[id] <= high0[id]
      decreases delta
    {
      var stepSize := Step(delta, target, mem[id], memHigh[id]);
      var test := ngl[id := ngl[id] + stepSize];
      WithTwice(start, id, ngl[id], ngl[id] + stepSize);
      var memTest := m(test);
      if memTest[id] <= target {
        ngl, mem := test, memTest;
      } else {
        high, memHigh := test, memTest;
      }
      delta := high[id] - ngl[id];
    }
  }

  method FillDevice(m: Oracle, targets: seq<int>, start: Layers, id: nat, nUnassigned: nat)
    returns (ngl: Layers, mem: seq<int>)
    requires |targets| == |start| && DependsOnLater(m, |start|) && ZeroFits(m, targets) && id < |start|
             && start[id] == 0
    requires nUnassigned < UINT32_RANGE
    ensures |ngl| == |start| && ngl[id] <= nUnassigned && ngl == start[id := ngl[id]] && mem == m(ngl)
            && |mem| == |start|
    ensures mem[id] <= targets[id]
    ensures ngl[id] == nUnassigned || m(ngl[id := ngl[id] + 1])[id] > targets[id]
  {
    ngl, mem := start, m(start);
    var high := ngl[id := nUnassigned];
    if high[id] > 0 {
      var memHigh := m(high);
      if memHigh[id] > targets[id] {
        assert start == With(start, id, 0);
        ngl, mem := FalsePosition(m, targets[id], start, id, ngl, mem, high, memHigh);
        WithTwice(start, id, ngl[id], ngl[id] + 1);
      } else {
        ngl, mem := high, memHigh;
      }
    }
  }

  lemma SumFrom(c: Layers, id: nat)
    requires id < |c|
    ensures Sum(c[id..]) == c[id] + Sum(c[id + 1..])
  {
    assert c[id..][1..] == c[id + 1..];
  }

  lemma {:induction false} SumZeros(c: Layers)
    requires forall j :: 0 <= j < |c| ==> c[j] == 0
    ensures Sum(c) == 0
  {
    if c != [] {
      SumZeros(c[1..]);
    }
  }

  /** Device id gets its layers, after all later devices have theirs. */
  method FillNext(m: Oracle, targets: seq<int>, start: Layers, id: nat, total: nat) returns (ngl: Layers, mem: seq<int>)
    requires |targets| == |start| && DependsOnLater(m, |start|) && ZeroFits(m, targets) && id < |start|
             && start[id] == 0
    requires total < UINT32_RANGE && Sum(start[id + 1..]) <= total && AllSettled(m, targets, start, id + 1, total)
    ensures |ngl| == |start| && mem == m(ngl) && Sum(ngl[id..]) <= total && AllSettled(m, targets, ngl, id, total)
    ensures ngl[..id] == start[..id]
  {
    var nUnassigned := CountUnassigned(start, id, total);
    ngl, mem := FillDevice(m, targets, start, id, nUnassigned);
    SettleOne(m, targets, start, ngl, id, total);
  }

  predicate ZeroUntil(c: Layers, id: nat) { id <= |c| && forall j :: 0 <= j < id ==> c[j] == 0 }

  lemma ZeroKept(before: Layers, after: Layers, id: nat)
    requires ZeroUntil(before, id + 1) && id <= |after| && after[..id] == before[..id]
    ensures ZeroUntil(after, id)
  {
    assert forall j :: 0 <= j < id ==> after[..id][j] == before[..id][j];
  }

  /** The loop over the devices, from the last one to the first. */
  method FillDevices(m: Oracle, targets: seq<int>, hpNgl: nat) returns (ngl: Layers, mem: seq<int>)
    requires DependsOnLater(m, |targets|) && ZeroFits(m, targets) && hpNgl + 1 < UINT32_RANGE
    ensures |ngl| == |targets| && mem == m(ngl) && Sum(ngl) <= hpNgl + 1
    ensures AllSettled(m, targets, ngl, 0, hpNgl + 1)
  {
    var nd := |targets|;
    ngl := seq(nd, _ => 0);
    mem := m(ngl);
    var id := nd;
    while id > 0
      invariant 0 <= id <= nd == |ngl| && mem == m(ngl) && Sum(ngl[id..]) <= hpNgl + 1
      invariant ZeroUntil(ngl, id)
      invariant AllSettled(m, targets, ngl, id, hpNgl + 1)
    {
      id := id - 1;
      ghost var before := ngl;
      ngl, mem := FillNext(m, targets, ngl, id, hpNgl + 1);
      ZeroKept(before, ngl, id);
    }
    assert ngl[0..] == ngl;
  }

  method CountUnassigned(ngl: Layers, id: nat, total: nat) returns (n: nat)
    requires id < |ngl| && Sum(ngl[id + 1..]) <= total
    ensures n == Unassigned(ngl, id, total)
  {
    n := total;
    var jd := id + 1;
    assert ngl[|ngl|..] == [];
    while jd < |ngl|
      invariant id + 1 <= jd <= |ngl| && Sum(ngl[jd..]) <= n
      invariant n - Sum(ngl[jd..]) == total - Sum(ngl[id + 1..])
    {
      SumFrom(ngl, jd);
      n := n - ngl[jd];
      jd := jd + 1;
    }
  }

  lemma SettleOne(m: Oracle, targets: seq<int>, before: Layers, after: Layers, id: nat, total: nat)
    requires DependsOnLater(m, |before|) && |targets| == |before| == |after| && id < |before|
    requires after == before[id := after[id]] && after[id] <= Unassigned(before, id, total)
    requires m(after)[id] <= targets[id]
    requires after[id] == Unassigned(before, id, total) || m(after[id := after[id] + 1])[id] > targets[id]
    requires AllSettled(m, targets, before, id + 1, total)
    ensures Sum(after[id..]) <= total && AllSettled(m, targets, after, id, total)
  {
    assert after[id + 1..] == before[id + 1..];
    SumFrom(after, id);
    forall j | id < j < |before|
      ensures IsSettled(m, targets, after, j, total)
    {
      assert after[j..] == before[j..];
      SettledEarlier(m, targets, before, after, j, total);
    }
  }

  /** More layers on a device never use less of its memory. */
  ghost predicate GrowsWithLayers(m: Oracle, nd: nat) {
    forall c: Layers, id: nat, n: nat | |c| == nd && id < nd && c[id] <= n ::
      |m(c)| == |m(With(c, id, n))| == nd && m(c)[id] <= m(With(c, id, n))[id]
  }

  /** Then every device has the greatest number of layers that fits it, given the later devices. */
  lemma SettledIsGreatest(m: Oracle, targets: seq<int>, c: Layers, id: nat, total: nat, n: nat)
    requires GrowsWithLayers(m, |c|) && |targets| == |c| && id < |c| && IsSettled(m, targets, c, id, total)
    requires c[id] < n <= Unassigned(c, id, total)
    ensures |m(c[id := n])| == |c| && m(c[id := n])[id] > targets[id]
  {
    var d := c[id := c[id] + 1];
    assert With(d, id, n) == c[id := n];
  }

  // ---- writing the numbers out ----

  /** What of a partial layer goes elsewhere. */
  datatype Fraction = Attn | Up | Gate | Moe

  /** `ngl_t`: the layers of a device, and how many of them, its last ones, are partial. */
  datatype Ngl = Ngl(layers: nat, part: nat, overflow: Fraction)

  predicate Fine(ngl: seq<Ngl>) { forall i :: 0 <= i < |ngl| ==> ngl[i].part <= ngl[i].layers }

  function LayersOf(ngl: seq<Ngl>): (c: Layers)
    ensures |c| == |ngl|
  {
    seq(|ngl|, i requires 0 <= i < |ngl| => ngl[i].layers)
  }

  /** An entry of `tensor_buft_overrides`: a pattern for a layer and the buffer type for it, or the end. */
  datatype Override = End | Override(layer: nat, fraction: Fraction, buft: int)

  const CPU := 0

  const MAX_LAYERS := 1000

  datatype Outcome = Written | Insufficient | TooManyLayers

  /** The partial layers of a device: the first one as it says, all others without their experts. */
  function DeviceOverrides(n: Ngl, buft: int, first: nat): (r: seq<Override>)
    ensures |r| == n.part
  {
    seq(n.part, i requires 0 <= i < n.part => if i == 0 then Override(first, n.overflow, buft)
        else Override(first + i, Moe, CPU))
  }

  /** Those of the devices from id on, whose layers begin at il0. */
  function OverridesFrom(ngl: seq<Ngl>, bufts: seq<int>, id: nat, il0: nat): seq<Override>
    requires |bufts| == |ngl| && Fine(ngl) && id <= |ngl|
    decreases |ngl| - id
  {
    if id == |ngl| then []
    else
      DeviceOverrides(ngl[id], bufts[id], il0 + ngl[id].layers - ngl[id].part)
      + OverridesFrom(ngl, bufts, id + 1, il0 + ngl[id].layers)
  }

  /** They name layers of the devices, each of them once and in the order of the model. */
  lemma {:induction false} OverridesAscend(ngl: seq<Ngl>, bufts: seq<int>, id: nat, il0: nat)
    requires |bufts| == |ngl| && Fine(ngl) && id <= |ngl|
    ensures Ascends(OverridesFrom(ngl, bufts, id, il0), il0, il0 + Sum(LayersOf(ngl)[id..]))
    decreases |ngl| - id
  {
    if id < |ngl| {
      OverridesAscend(ngl, bufts, id + 1, il0 + ngl[id].layers);
      SumFrom(LayersOf(ngl), id);
      var a := DeviceOverrides(ngl[id], bufts[id], il0 + ngl[id].layers - ngl[id].part);
      assert forall i :: 0 <= i < |a| ==> a[i].Override? && a[i].layer == il0 + ngl[id].layers - ngl[id].part + i;
      AscendTogether(a, OverridesFrom(ngl, bufts, id + 1, il0 + ngl[id].layers), il0, il0 + ngl[id].layers,
                     il0 + Sum(LayersOf(ngl)[id..]));
    }
  }

  /** Overrides for layers from lo up to hi, in the order of the model. */
  predicate Ascends(r: seq<Override>, lo: nat, hi: nat) {
    && (forall i :: 0 <= i < |r| ==> r[i].Override? && lo <= r[i].layer < hi)
    && forall i, j :: 0 <= i < j < |r| ==> r[i].layer < r[j].layer
  }

  lemma AscendTogether(a: seq<Override>, b: seq<Override>, lo: nat, mid: nat, hi: nat)
    requires lo <= mid <= hi && Ascends(a, lo, mid) && Ascends(b, mid, hi)
    ensures Ascends(a + b, lo, hi)
  {
  }

  lemma {:induction false} NoPartsNoOverrides(ngl: seq<Ngl>, bufts: seq<int>, id: nat, il0: nat)
    requires |bufts| == |ngl| && Fine(ngl) && id <= |ngl| && forall i :: 0 <= i < |ngl| ==> ngl[i].part == 0
    ensures OverridesFrom(ngl, bufts, id, il0) == []
    decreases |ngl| - id
  {
    if id < |ngl| {
      NoPartsNoOverrides(ngl, bufts, id + 1, il0 + ngl[id].layers);
    }
  }

  /** What stands in the array of overrides after the loops, for these partial layers. */
  ghost predicate IsWritten(outcome: Outcome, all: seq<Override>, before: seq<Override>, after: seq<Override>)
    requires |after| == |before| > 0 && forall i :: 0 <= i < |all| ==> all[i].Override?
  {
    match outcome
    case Written =>
      && |all| < |after| && (forall i :: 0 <= i < |all| ==> all[i].layer < MAX_LAYERS)
      && after == all + [End] + before[|all| + 1..]
    case Insufficient =>
      && |all| >= |after| && (forall i :: 0 <= i < |after| - 1 ==> all[i].layer < MAX_LAYERS)
      && after == all[..|after| - 1] + [End]
    case TooManyLayers =>
      exists n :: 0 <= n < |all| && n + 1 < |after| && all[n].layer >= MAX_LAYERS && after == all[..n] + before[n..]
  }

  /** The first n of the partial layers have been written. */
  ghost predicate WrittenUpTo(n: nat, all: seq<Override>, before: seq<Override>, after: seq<Override>) {
    && n <= |all| && |after| == |before| && n < |after| && after == all[..n] + before[n..]
    && forall i :: 0 <= i < n ==> all[i].Override? && all[i].layer < MAX_LAYERS
  }

  lemma WriteNext(n: nat, all: seq<Override>, before: seq<Override>, after: seq<Override>)
    requires WrittenUpTo(n, all, before, after) && n < |all| && n + 1 < |after|
    requires all[n].Override? && all[n].layer < MAX_LAYERS
    ensures WrittenUpTo(n + 1, all, before, after[n := all[n]])
  {
    assert after[n := all[n]] == all[..n] + [all[n]] + before[n + 1..];
    assert all[..n + 1] == all[..n] + [all[n]];
  }

  lemma WriteEnd(n: nat, all: seq<Override>, before: seq<Override>, after: seq<Override>)
    requires WrittenUpTo(n, all, before, after)
    ensures after[n := End] == all[..n] + [End] + before[n + 1..]
  {
  }

  /** One turn of the inner loop; the pattern exists only for the first layers. */
  method WriteOverride(n: nat, next: Override, overrides: array<Override>, ghost all: seq<Override>,
                       ghost before: seq<Override>)
    returns (outcome: Outcome)
    requires WrittenUpTo(n, all, before, overrides[..]) && n < |all| && all[n] == next && next.Override?
    requires forall i :: 0 <= i < |all| ==> all[i].Override?
    modifies overrides
    ensures outcome == Written ==> WrittenUpTo(n + 1, all, before, overrides[..])
    ensures outcome != Written ==> |before| == overrides.Length && IsWritten(outcome, all, before, overrides[..])
  {
    ghost var now := overrides[..];
    if n + 1 >= overrides.Length {
      overrides[n] := End;
      assert overrides[..] == now[n := End];
      WriteEnd(n, all, before, now);
      assert before[n + 1..] == [];
      return Insufficient;
    }
    if next.layer >= MAX_LAYERS {
      assert all[n].layer >= MAX_LAYERS;
      return TooManyLayers;
    }
    overrides[n] := next;
    assert overrides[..] == now[n := next];
    WriteNext(n, all, before, now);
    return Written;
  }

  lemma OverridesSplit(ngl: seq<Ngl>, bufts: seq<int>, id: nat, il0: nat)
    requires |bufts| == |ngl| && Fine(ngl) && id < |ngl|
    ensures OverridesFrom(ngl, bufts, id, il0)
            == DeviceOverrides(ngl[id], bufts[id], il0 + ngl[id].layers - ngl[id].part)
               + OverridesFrom(ngl, bufts, id + 1, il0 + ngl[id].layers)
  {
  }

  /** The inner loop, over the partial layers of a device; k of all overrides have been written before. */
  method WriteDevice(n: Ngl, buft: int, il0: nat, itbo: nat, overrides: array<Override>, ghost all: seq<Override>,
                     ghost before: seq<Override>)
    returns (outcome: Outcome, itbo': nat)
    requires WrittenUpTo(itbo, all, before, overrides[..]) && forall i :: 0 <= i < |all| ==> all[i].Override?
    requires DeviceOverrides(n, buft, il0) <= all[itbo..]
    modifies overrides
    ensures outcome == Written ==> itbo' == itbo + n.part && WrittenUpTo(itbo', all, before, overrides[..])
    ensures outcome != Written ==> |before| == overrides.Length && IsWritten(outcome, all, before, overrides[..])
  {
    itbo' := itbo;
    var il := il0;
    while il < il0 + n.part
      invariant il0 <= il <= il0 + n.part && itbo' == itbo + (il - il0)
      invariant WrittenUpTo(itbo', all, before, overrides[..])
    {
      var next := Override(il, if il == il0 then n.overflow else Moe, if il == il0 then buft else CPU);
      assert all[itbo..][il - il0] == DeviceOverrides(n, buft, il0)[il - il0] == next;
      outcome := WriteOverride(itbo', next, overrides, all, before);
      if outcome != Written {
        return;
      }
      itbo' := itbo' + 1;
      il := il + 1;
    }
    outcome := Written;
  }

  /** The loop over the devices, whose layers end with the last one of the model. */
  method WriteOverrides(ngl: seq<Ngl>, bufts: seq<int>, first: nat, overrides: array<Override>)
    returns (outcome: Outcome)
    requires |bufts| == |ngl| && Fine(ngl) && overrides.Length > 0
    modifies overrides
    ensures forall i :: 0 <= i < |OverridesFrom(ngl, bufts, 0, first)| ==>
              OverridesFrom(ngl, bufts, 0, first)[i].Override?
    ensures IsWritten(outcome, OverridesFrom(ngl, bufts, 0, first), old(overrides[..]), overrides[..])
  {
    ghost var all, before := OverridesFrom(ngl, bufts, 0, first), overrides[..];
    OverridesAscend(ngl, bufts, 0, first);
    var il0: nat, itbo: nat, id := first, 0, 0;
    assert all[0..] == all && overrides[..] == all[..0] + before[0..];
    while id < |ngl|
      invariant 0 <= id <= |ngl| && WrittenUpTo(itbo, all, before, overrides[..])
      invariant all[itbo..] == OverridesFrom(ngl, bufts, id, il0)
    {
      OverridesSplit(ngl, bufts, id, il0);
      var start := il0 + ngl[id].layers - ngl[id].part;
      ghost var k, rest := itbo, OverridesFrom(ngl, bufts, id + 1, il0 + ngl[id].layers);
      outcome, itbo := WriteDevice(ngl[id], bufts[id], start, itbo, overrides, all, before);
      if outcome != Written {
        return;
      }
      assert all[itbo..] == all[k..][ngl[id].part..] == rest;
      il0 := start + ngl[id].part;
      id := id + 1;
    }
    ghost var now := overrides[..];
    overrides[itbo] := End;
    assert overrides[..] == now[itbo := End];
    WriteEnd(itbo, all, before, now);
    assert all[..itbo] == all;
    outcome := Written;
  }

  /** `set_ngl_tensor_split_tbo`: the output arrays are written in place. */
  method SetNglTensorSplitTbo(ngl: seq<Ngl>, bufts: seq<int>, hpNgl: nat, tensorSplit: array<nat>,
                              overrides: array<Override>)
    returns (nGpuLayers: nat, outcome: Outcome)
    requires |bufts| == |ngl| && Fine(ngl) && Sum(LayersOf(ngl)) <= hpNgl + 1
    requires tensorSplit.Length >= |ngl| && overrides.Length > 0
    modifies tensorSplit, overrides
    ensures nGpuLayers == Sum(LayersOf(ngl))
    ensures tensorSplit[..]
            == (if |ngl| > 1 then LayersOf(ngl) + old(tensorSplit[|ngl|..]) else old(tensorSplit[..]))
    ensures var all := OverridesFrom(ngl, bufts, 0, hpNgl + 1 - nGpuLayers);
            Ascends(all, hpNgl + 1 - nGpuLayers, hpNgl + 1)
                && IsWritten(outcome, all, old(overrides[..]), overrides[..])
  {
    nGpuLayers := SetLayers(LayersOf(ngl), tensorSplit);
    OverridesAscend(ngl, bufts, 0, hpNgl + 1 - nGpuLayers);
    assert LayersOf(ngl)[0..] == LayersOf(ngl);
    outcome := WriteOverrides(ngl, bufts, hpNgl + 1 - nGpuLayers, overrides);
  }

  /** A dense model has no partial layers, and then there is nothing but the end mark among the overrides. */
  lemma DenseWritten(ngl: seq<Ngl>, bufts: seq<int>, il0: nat, outcome: Outcome, before: seq<Override>,
                     after: seq<Override>)
    requires |bufts| == |ngl| && Fine(ngl) && forall i :: 0 <= i < |ngl| ==> ngl[i].part == 0
    requires |after| == |before| > 0 && Ascends(OverridesFrom(ngl, bufts, 0, il0), il0, il0 + Sum(LayersOf(ngl)))
    requires IsWritten(outcome, OverridesFrom(ngl, bufts, 0, il0), before, after)
    ensures outcome == Written && after == [End] + before[1..]
  {
    NoPartsNoOverrides(ngl, bufts, 0, il0);
  }

  /** The number of layers, and the split over the devices if there are several. */
  method SetLayers(ngl: Layers, tensorSplit: array<nat>) returns (nGpuLayers: nat)
    requires tensorSplit.Length >= |ngl|
    modifies tensorSplit
    ensures nGpuLayers == Sum(ngl)
    ensures tensorSplit[..] == (if |ngl| > 1 then ngl + old(tensorSplit[|ngl|..]) else old(tensorSplit[..]))
  {
    nGpuLayers := 0;
    var id := 0;
    assert ngl[..0] == [];
    while id < |ngl|
      invariant 0 <= id <= |ngl| && nGpuLayers + Sum(ngl[id..]) == Sum(ngl)
      invariant if |ngl| > 1 then tensorSplit[..id] == ngl[..id] && tensorSplit[id..] == old(tensorSplit[id..])
                else tensorSplit[..] == old(tensorSplit[..])
    {
      SumFrom(ngl, id);
      nGpuLayers := nGpuLayers + ngl[id];
      if |ngl| > 1 {
        tensorSplit[id] := ngl[id];
      }
      id := id + 1;
    }
  }
}

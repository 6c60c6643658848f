// The tape fill simulator (src/replay/fills.rs): two passes over a tape of
// prints decide whether, how far and when a resting maker order filled.
// Floating-point numbers are modelled as reals.
module Fills {
  import Domain

  type Option<+T> = Domain.Option<T>

  datatype Aggressor = Buy | Sell | Unknown

  datatype FillPrint = FillPrint(tsMs: int, price: real, qty: real, aggressor: Aggressor)

  datatype RestingOrder = RestingOrder(price: real, size: real, restingFromMs: int, sideBuy: bool)

  datatype FillProfile = Optimistic | Base | Conservative

  datatype Simulator = Simulator(profile: FillProfile, queueAhead: real, throughMultiple: real)

  datatype FillOutcome = FillOutcome(
    filled: bool,
    fillFraction: real,
    fillPrice: real,
    profile: FillProfile,
    fillTsMs: Option<int>,
    usedQty: real)

  /** What one print contributes: its time, its weighted size, and whether it
      traded through the limit. */
  datatype Evidence = Evidence(tsMs: int, contribution: real, isThrough: bool)

  function NoFill(price: real, profile: FillProfile): FillOutcome {
    FillOutcome(false, 0.0, price, profile, Domain.None, 0.0)
  }

  /** `FillSimulator::new`: the default queue ahead and multiple of a profile. */
  function DefaultSimulator(profile: FillProfile): Simulator {
    Simulator(profile, if profile.Optimistic? then 0.0 else if profile.Base? then 0.3 else 0.6, 2.0)
  }

  function RealMin(a: real, b: real): real {
    if a < b then a else b
  }

  function RealMax(a: real, b: real): real {
    if a < b then b else a
  }

  function ValidQty(qty: real): (q: real)
    ensures q >= 0.0
  {
    if qty > 0.0 then qty else 0.0
  }

  function AggressorWeight(sideBuy: bool, aggressor: Aggressor): real {
    match aggressor
    case Unknown => 0.5
    case Sell => if sideBuy then 1.0 else 0.0
    case Buy => if sideBuy then 0.0 else 1.0
  }

  function PriceWeight(order: RestingOrder, price: real): Option<real> {
    if price == order.price then Domain.Some(0.5)
    else if (if order.sideBuy then price < order.price else price > order.price) then Domain.Some(1.0)
    else Domain.None
  }

  function AfterQueue(available: real, queueAhead: real): real {
    if available <= 0.0 || queueAhead >= 1.0 then 0.0 else available * (1.0 - queueAhead)
  }

  function EligibleFrom(order: RestingOrder, latencyMs: nat): int {
    Domain.ClampI64(order.restingFromMs + Domain.Min(latencyMs, Domain.I64_MAX))
  }

  /** The evidence of one print, or None when it does not count for the order. */
  function Weigh(order: RestingOrder, from: int, p: FillPrint): (e: Option<Evidence>)
    ensures e.Some? ==> e.value.contribution > 0.0 && e.value.tsMs == p.tsMs
  {
    if p.tsMs < from then Domain.None
    else
      var weight := AggressorWeight(order.sideBuy, p.aggressor);
      if weight == 0.0 then Domain.None
      else
        match PriceWeight(order, p.price)
        case None => Domain.None
        case Some(priceWeight) =>
          var contribution := ValidQty(p.qty) * weight * priceWeight;
          if contribution == 0.0 then Domain.None
          else
            Domain.Some(Evidence(p.tsMs, contribution, priceWeight == 1.0 && p.price != order.price))
  }

  function EvidenceOf(order: RestingOrder, from: int, prints: seq<FillPrint>): seq<Evidence> {
    if prints == [] then []
    else
      var last := Weigh(order, from, prints[|prints| - 1]);
      EvidenceOf(order, from, prints[..|prints| - 1]) + if last.Some? then [last.value] else []
  }

  function Available(ev: seq<Evidence>): real {
    if ev == [] then 0.0 else Available(ev[..|ev| - 1]) + ev[|ev| - 1].contribution
  }

  function Throughs(ev: seq<Evidence>): nat {
    if ev == [] then 0 else Throughs(ev[..|ev| - 1]) + if ev[|ev| - 1].isThrough then 1 else 0
  }

  /** The evidence up to and including position `k` reaches the threshold. */
  predicate Completes(ev: seq<Evidence>, k: nat, queueAhead: real, required: nat, threshold: real)
    requires k < |ev|
  {
    && Throughs(ev[..k + 1]) >= required
    && AfterQueue(Available(ev[..k + 1]), queueAhead) > 0.0
    && AfterQueue(Available(ev[..k + 1]), queueAhead) >= threshold
  }

  /** The first completing position at or after `k`, or the length if none. */
  function FirstComplete(ev: seq<Evidence>, k: nat, queueAhead: real, required: nat, threshold: real): (i: nat)
    requires k <= |ev|
    ensures k <= i <= |ev|
    ensures i < |ev| ==> Completes(ev, i, queueAhead, required, threshold)
    ensures forall j :: k <= j < i ==> !Completes(ev, j, queueAhead, required, threshold)
    decreases |ev| - k
  {
    if k == |ev| || Completes(ev, k, queueAhead, required, threshold) then k
    else FirstComplete(ev, k + 1, queueAhead, required, threshold)
  }

  function CompletionTs(ev: seq<Evidence>, queueAhead: real, required: nat, threshold: real): Option<int> {
    var i := FirstComplete(ev, 0, queueAhead, required, threshold);
    if i < |ev| then Domain.Some(ev[i].tsMs) else Domain.None
  }

  /** The fraction of the order a decision asks for: 1.0 or 0.5. */
  datatype Desired = Whole | Half

  function Requested(size: real, desired: Desired): real {
    if desired.Whole? then size else size * 0.5
  }

  /** `outcome_from_available`. */
  function OutcomeFrom(order: RestingOrder, profile: FillProfile, available: real, desired: Desired,
                       ts: Option<int>): FillOutcome {
    var size := ValidQty(order.size);
    var fillQty := RealMin(Requested(size, desired), RealMax(available, 0.0));
    var fraction := if size == 0.0 then 0.0 else RealMax(0.0, RealMin(1.0, fillQty / size));
    FillOutcome(fillQty > 0.0, fraction, order.price, profile, if fillQty > 0.0 then ts else Domain.None, fillQty)
  }

  /** The effective size at which CONSERVATIVE fills in full; a quarter of it
      fills half. */
  function FullThreshold(sim: Simulator, order: RestingOrder): real {
    ValidQty(order.size) * sim.throughMultiple
  }

  /** OPTIMISTIC and BASE: any directional evidence fills in proportion. */
  function JudgeProportional(sim: Simulator, order: RestingOrder, ev: seq<Evidence>, effective: real): FillOutcome {
    var size := ValidQty(order.size);
    OutcomeFrom(order, sim.profile, effective, Whole,
                if effective >= size then CompletionTs(ev, sim.queueAhead, 0, RealMin(effective, size))
                else if ev == [] then Domain.None else Domain.Some(ev[|ev| - 1].tsMs))
  }

  /** CONSERVATIVE: two through prints, then full, half or nothing. */
  function JudgeConservative(sim: Simulator, order: RestingOrder, full: real, ev: seq<Evidence>, effective: real)
      : FillOutcome {
    if Throughs(ev) < 2 then NoFill(order.price, sim.profile)
    else if effective >= full then
      OutcomeFrom(order, sim.profile, effective, Whole, CompletionTs(ev, sim.queueAhead, 2, full))
    else if effective >= full * 0.25 then
      OutcomeFrom(order, sim.profile, effective, Half, CompletionTs(ev, sim.queueAhead, 2, full * 0.25))
    else NoFill(order.price, sim.profile)
  }

  /** The decision once the evidence is collected. */
  function Judge(sim: Simulator, order: RestingOrder, ev: seq<Evidence>): FillOutcome {
    var effective := AfterQueue(Available(ev), sim.queueAhead);
    if effective <= 0.0 then NoFill(order.price, sim.profile)
    else if sim.profile.Conservative? then JudgeConservative(sim, order, FullThreshold(sim, order), ev, effective)
    else JudgeProportional(sim, order, ev, effective)
  }

  /** `check_fill` as a function of the tape. */
  function Fill(sim: Simulator, order: RestingOrder, prints: seq<FillPrint>, latencyMs: nat): FillOutcome {
    if ValidQty(order.size) == 0.0 then NoFill(order.price, sim.profile)
    else Judge(sim, order, EvidenceOf(order, EligibleFrom(order, latencyMs), prints))
  }

  // ----- The two loops -----

  /** The completion loop. */
  method CompletionTimestamp(ev: seq<Evidence>, queueAhead: real, required: nat, threshold: real)
      returns (ts: Option<int>)
    ensures ts == CompletionTs(ev, queueAhead, required, threshold)
  {
    var available := 0.0;
    var throughs := 0;
    var k := 0;
    while k < |ev|
      invariant 0 <= k <= |ev|
      invariant available == Available(ev[..k]) && throughs == Throughs(ev[..k])
      invariant FirstComplete(ev, 0, queueAhead, required, threshold)
              == FirstComplete(ev, k, queueAhead, required, threshold)
    {
      assert ev[..k + 1][..k] == ev[..k];
      available := available + ev[k].contribution;
      if ev[k].isThrough {
        throughs := throughs + 1;
      }
      var effective := AfterQueue(available, queueAhead);
      if throughs >= required && effective > 0.0 && effective >= threshold {
        return Domain.Some(ev[k].tsMs);
      }
      k := k + 1;
    }
    return Domain.None;
  }

  /** The accumulation loop. */
  method CollectEvidence(order: RestingOrder, from: int, prints: seq<FillPrint>)
      returns (ev: seq<Evidence>, available: real, throughs: nat)
    ensures ev == EvidenceOf(order, from, prints)
    ensures available == Available(ev) && throughs == Throughs(ev)
  {
    ev, available, throughs := [], 0.0, 0;
    var k := 0;
    while k < |prints|
      invariant 0 <= k <= |prints|
      invariant ev == EvidenceOf(order, from, prints[..k])
      invariant available == Available(ev) && throughs == Throughs(ev)
    {
      EvidenceStep(order, from, prints, k);
      var e := Weigh(order, from, prints[k]);
      k := k + 1;
      if e.None? {
        continue;
      }
      if e.value.isThrough {
        throughs := throughs + 1;
      }
      available := available + e.value.contribution;
      TotalsStep(ev, e.value);
      ev := ev + [e.value];
    }
    assert prints[..k] == prints;
  }

  lemma EvidenceStep(order: RestingOrder, from: int, prints: seq<FillPrint>, k: nat)
    requires k < |prints|
    ensures var e := Weigh(order, from, prints[k]);
            EvidenceOf(order, from, prints[..k + 1])
            == if e.Some? then EvidenceOf(order, from, prints[..k]) + [e.value]
               else EvidenceOf(order, from, prints[..k])
  {
    assert prints[..k + 1][..k] == prints[..k];
    assert EvidenceOf(order, from, prints[..k]) + [] == EvidenceOf(order, from, prints[..k]);
  }

  lemma TotalsStep(ev: seq<Evidence>, e: Evidence)
    ensures Available(ev + [e]) == Available(ev) + e.contribution
    ensures Throughs(ev + [e]) == Throughs(ev) + if e.isThrough then 1 else 0
  {
    assert (ev + [e])[..|ev|] == ev;
  }

  /** `check_fill`: collect the evidence, then decide. */
  method CheckFill(sim: Simulator, order: RestingOrder, prints: seq<FillPrint>, latencyMs: nat)
      returns (out: FillOutcome)
    ensures out == Fill(sim, order, prints, latencyMs)
  {
    var from := EligibleFrom(order, latencyMs);
    var size := ValidQty(order.size);
    if size == 0.0 {
      return NoFill(order.price, sim.profile);
    }
    var ev, available, throughs := CollectEvidence(order, from, prints);
    var effective := AfterQueue(available, sim.queueAhead);
    if effective <= 0.0 {
      return NoFill(order.price, sim.profile);
    }
    if sim.profile.Conservative? {
      out := DecideConservative(sim, order, FullThreshold(sim, order), ev, throughs, effective);
    } else {
      out := DecideProportional(sim, order, ev, effective);
    }
  }

  method DecideProportional(sim: Simulator, order: RestingOrder, ev: seq<Evidence>, effective: real)
      returns (out: FillOutcome)
    ensures out == JudgeProportional(sim, order, ev, effective)
  {
    var size := ValidQty(order.size);
    var ts: Option<int>;
    if effective >= size {
      ts := CompletionTimestamp(ev, sim.queueAhead, 0, RealMin(effective, size));
    } else {
      ts := if ev == [] then Domain.None else Domain.Some(ev[|ev| - 1].tsMs);
    }
    out := OutcomeFrom(order, sim.profile, effective, Whole, ts);
  }

  method DecideConservative(
      sim: Simulator, order: RestingOrder, full: real, ev: seq<Evidence>, throughs: nat, effective: real)
      returns (out: FillOutcome)
    requires throughs == Throughs(ev)
    ensures out == JudgeConservative(sim, order, full, ev, effective)
  {
    if throughs < 2 {
      return NoFill(order.price, sim.profile);
    }
    var half := full * 0.25;
    var ts: Option<int>;
    if effective >= full {
      ts := CompletionTimestamp(ev, sim.queueAhead, 2, full);
      out := OutcomeFrom(order, sim.profile, effective, Whole, ts);
    } else if effective >= half {
      ts := CompletionTimestamp(ev, sim.queueAhead, 2, half);
      out := OutcomeFrom(order, sim.profile, effective, Half, ts);
    } else {
      out := NoFill(order.price, sim.profile);
    }
  }
}

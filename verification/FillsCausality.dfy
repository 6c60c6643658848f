// No look-ahead in the tape fill simulator: a reported fill is decided by the
// print it is stamped with, and later prints cannot change it.
module FillsCausality {
  import Domain
  import opened Arithmetic
  import opened Fills

  // ----- Sums over evidence -----

  ghost predicate Positive(ev: seq<Evidence>) {
    forall k :: 0 <= k < |ev| ==> ev[k].contribution > 0.0
  }

  lemma {:induction false} AvailableGrows(ev: seq<Evidence>, m: nat, n: nat)
    requires Positive(ev) && m <= n <= |ev|
    ensures 0.0 <= Available(ev[..m]) <= Available(ev[..n])
    ensures m < n ==> Available(ev[..m]) < Available(ev[..n])
    ensures Throughs(ev[..m]) <= Throughs(ev[..n])
    decreases n
  {
    if n > 0 {
      assert ev[..n][..n - 1] == ev[..n - 1];
      if m < n {
        AvailableGrows(ev, m, n - 1);
      } else {
        AvailableGrows(ev, n - 1, n - 1);
      }
    }
  }

  lemma AfterQueueMonotone(a: real, b: real, q: real)
    requires a <= b
    ensures AfterQueue(a, q) <= AfterQueue(b, q)
    ensures a < b && AfterQueue(b, q) > 0.0 ==> AfterQueue(a, q) < AfterQueue(b, q)
    ensures AfterQueue(a, q) >= 0.0
  {
    AfterQueueSign(a, q);
    if a > 0.0 && q < 1.0 {
      AfterShortQueue(a, b, q);
    } else {
      AfterQueueSign(b, q);
    }
  }

  lemma AfterShortQueue(a: real, b: real, q: real)
    requires 0.0 < a <= b && q < 1.0
    ensures AfterQueue(a, q) <= AfterQueue(b, q)
    ensures a < b ==> AfterQueue(a, q) < AfterQueue(b, q)
  {
    var c := 1.0 - q;
    assert AfterQueue(a, q) == a * c && AfterQueue(b, q) == b * c;
    RealMulMonotone(a, b, c);
  }

  lemma AfterQueueSign(a: real, q: real)
    ensures AfterQueue(a, q) >= 0.0
  {
    if a > 0.0 && q < 1.0 {
      ProductSign(a, 1.0 - q);
    }
  }

  /** Effective size after the first `m` items of evidence. */
  function Effective(sim: Simulator, ev: seq<Evidence>, m: nat): real
    requires m <= |ev|
  {
    AfterQueue(Available(ev[..m]), sim.queueAhead)
  }

  lemma EffectiveGrows(sim: Simulator, ev: seq<Evidence>, m: nat, n: nat)
    requires Positive(ev) && m <= n <= |ev|
    ensures Effective(sim, ev, m) <= Effective(sim, ev, n)
    ensures m < n && Effective(sim, ev, n) > 0.0 ==> Effective(sim, ev, m) < Effective(sim, ev, n)
    ensures Throughs(ev[..m]) <= Throughs(ev[..n])
  {
    AvailableGrows(ev, m, n);
    AfterQueueMonotone(Available(ev[..m]), Available(ev[..n]), sim.queueAhead);
  }

  /** The first completing position only depends on the evidence up to it. */
  lemma FirstCompleteInPrefix(ev: seq<Evidence>, m: nat, q: real, required: nat, threshold: real)
    requires m <= |ev|
    ensures var e := FirstComplete(ev, 0, q, required, threshold);
            FirstComplete(ev[..m], 0, q, required, threshold) == Domain.Min(e, m)
  {
    forall k | 0 <= k < m
      ensures Completes(ev[..m], k, q, required, threshold) == Completes(ev, k, q, required, threshold)
    {
      assert ev[..m][..k + 1] == ev[..k + 1];
    }
  }

  // ----- The outcome, by quantity and time -----

  /** The quantity a decision uses, for an order of size `size` with full-fill
      threshold `full`. */
  function Used(profile: FillProfile, size: real, full: real, effective: real, throughs: nat): real {
    if effective <= 0.0 then 0.0
    else if !profile.Conservative? || (throughs >= 2 && effective >= full) then RealMin(size, effective)
    else if throughs >= 2 && effective >= full * 0.25 then RealMin(size * 0.5, effective)
    else 0.0
  }

  /** A partial proportional fill is stamped with the last evidence, any other
      fill with the first evidence that completes its threshold. */
  function Stamp(sim: Simulator, size: real, full: real, ev: seq<Evidence>): (k: nat)
    ensures k <= |ev|
  {
    var effective := Effective(sim, ev, |ev|);
    if sim.profile.Conservative? then
      FirstComplete(ev, 0, sim.queueAhead, 2, if effective >= full then full else full * 0.25)
    else if effective >= size then FirstComplete(ev, 0, sim.queueAhead, 0, size)
    else Domain.Max(|ev| - 1, 0)
  }

  lemma OutcomeParts(sim: Simulator, order: RestingOrder, available: real, desired: Desired, ts: Option<int>)
    requires order.size > 0.0 && available > 0.0
    ensures OutcomeFrom(order, sim.profile, available, desired, ts)
         == OutcomeAt(sim, order, RealMin(Requested(order.size, desired), available), ts)
  {
    DivPositive(RealMin(Requested(order.size, desired), available), order.size);
  }

  lemma DivPositive(a: real, b: real)
    requires 0.0 < a <= b
    ensures 0.0 < a / b <= 1.0
  {}

  function StampTs(sim: Simulator, size: real, full: real, ev: seq<Evidence>): Option<int> {
    var k := Stamp(sim, size, full, ev);
    if k < |ev| then Domain.Some(ev[k].tsMs) else Domain.None
  }

  function OutcomeAt(sim: Simulator, order: RestingOrder, used: real, ts: Option<int>): FillOutcome
    requires order.size > 0.0
  {
    if used == 0.0 then NoFill(order.price, sim.profile)
    else FillOutcome(true, used / order.size, order.price, sim.profile, ts, used)
  }

  lemma ProportionalParts(sim: Simulator, order: RestingOrder, full: real, ev: seq<Evidence>, effective: real)
    requires order.size > 0.0 && !sim.profile.Conservative?
    requires effective == Effective(sim, ev, |ev|) > 0.0 && ev[..|ev|] == ev
    ensures JudgeProportional(sim, order, ev, effective)
         == OutcomeAt(sim, order, RealMin(order.size, effective), StampTs(sim, order.size, full, ev))
  {
    OutcomeParts(sim, order, effective, Whole, StampTs(sim, order.size, full, ev));
  }

  lemma ConservativeParts(sim: Simulator, order: RestingOrder, full: real, ev: seq<Evidence>, effective: real)
    requires order.size > 0.0 && sim.profile.Conservative?
    requires effective == Effective(sim, ev, |ev|) > 0.0 && ev[..|ev|] == ev
    ensures JudgeConservative(sim, order, full, ev, effective)
         == OutcomeAt(sim, order, Used(sim.profile, order.size, full, effective, Throughs(ev)),
             StampTs(sim, order.size, full, ev))
  {
    OutcomeParts(sim, order, effective, if effective >= full then Whole else Half, StampTs(sim, order.size, full, ev));
  }

  /** An outcome in two parts: how much, and stamped where. */
  lemma JudgeParts(sim: Simulator, order: RestingOrder, full: real, ev: seq<Evidence>)
    requires order.size > 0.0 && full == FullThreshold(sim, order)
    ensures Judge(sim, order, ev)
         == OutcomeAt(sim, order, Used(sim.profile, order.size, full, Effective(sim, ev, |ev|), Throughs(ev)),
                      StampTs(sim, order.size, full, ev))
  {
    assert ev[..|ev|] == ev;
    var effective := Effective(sim, ev, |ev|);
    if effective > 0.0 {
      if sim.profile.Conservative? {
        ConservativeParts(sim, order, full, ev, effective);
      } else {
        ProportionalParts(sim, order, full, ev, effective);
      }
    }
  }

  // ----- No look-ahead, over evidence -----

  lemma SameUsed(a: real, b: real, size: real)
    requires size > 0.0
    ensures a == b <==> a / size == b / size
  {
    assert a / size * size == a && b / size * size == b;
  }

  /** The decision on the first `m` items equals the decision on all of them
      exactly when item `e` is among them. */
  ghost predicate DecidedBy(sim: Simulator, order: RestingOrder, ev: seq<Evidence>, e: nat) {
    && e < |ev|
    && Judge(sim, order, ev).fillTsMs == Domain.Some(ev[e].tsMs)
    && forall m :: 0 <= m <= |ev| ==> (Judge(sim, order, ev[..m]) == Judge(sim, order, ev) <==> m > e)
  }

  lemma PrefixParts(sim: Simulator, order: RestingOrder, full: real, ev: seq<Evidence>, m: nat)
    requires order.size > 0.0 && full == FullThreshold(sim, order) && m <= |ev|
    ensures Judge(sim, order, ev[..m])
         == OutcomeAt(sim, order, Used(sim.profile, order.size, full, Effective(sim, ev, m), Throughs(ev[..m])),
                      StampTs(sim, order.size, full, ev[..m]))
  {
    JudgeParts(sim, order, full, ev[..m]);
    assert ev[..m][..m] == ev[..m];
  }

  /** Whether the evidence completes a threshold is visible from its totals. */
  lemma CompleteByTotals(sim: Simulator, ev: seq<Evidence>, required: nat, threshold: real, m: nat)
    requires Positive(ev) && m <= |ev|
    ensures var e := FirstComplete(ev, 0, sim.queueAhead, required, threshold);
            m > e ==> Throughs(ev[..m]) >= required && Effective(sim, ev, m) > 0.0 && Effective(sim, ev, m) >= threshold
    ensures var e := FirstComplete(ev, 0, sim.queueAhead, required, threshold);
            0 < m <= e ==>
              !(Throughs(ev[..m]) >= required && Effective(sim, ev, m) > 0.0 && Effective(sim, ev, m) >= threshold)
  {
    var e := FirstComplete(ev, 0, sim.queueAhead, required, threshold);
    if m > e {
      EffectiveGrows(sim, ev, e + 1, m);
    } else if m > 0 {
      assert !Completes(ev, m - 1, sim.queueAhead, required, threshold);
    }
  }

  lemma NothingFromNothing(sim: Simulator, ev: seq<Evidence>)
    ensures Effective(sim, ev, 0) == 0.0
  {}

  /** A full or half fill of a profile that is stamped by a completed threshold. */
  lemma CompletedDecides(sim: Simulator, order: RestingOrder, full: real, ev: seq<Evidence>, required: nat,
                         threshold: real, used: real)
    requires Positive(ev) && order.size > 0.0 && full == FullThreshold(sim, order) && used > 0.0
    requires var e := FirstComplete(ev, 0, sim.queueAhead, required, threshold);
             e < |ev| && forall m :: 0 <= m <= |ev| ==>
               var now := Used(sim.profile, order.size, full, Effective(sim, ev, m), Throughs(ev[..m]));
               if m > e then now == used && Stamp(sim, order.size, full, ev[..m]) == e else now != used
    ensures DecidedBy(sim, order, ev, FirstComplete(ev, 0, sim.queueAhead, required, threshold))
  {
    var e := FirstComplete(ev, 0, sim.queueAhead, required, threshold);
    assert ev[..|ev|] == ev;
    forall m | 0 <= m <= |ev| ensures Judge(sim, order, ev[..m]) == Judge(sim, order, ev) <==> m > e {
      PrefixParts(sim, order, full, ev, m);
      PrefixParts(sim, order, full, ev, |ev|);
      SameUsed(Used(sim.profile, order.size, full, Effective(sim, ev, m), Throughs(ev[..m])), used, order.size);
    }
    PrefixParts(sim, order, full, ev, |ev|);
  }

  lemma StampInPrefix(sim: Simulator, size: real, full: real, ev: seq<Evidence>, m: nat, required: nat, threshold: real)
    requires m <= |ev|
    requires var e := FirstComplete(ev, 0, sim.queueAhead, required, threshold); e < m
    requires if sim.profile.Conservative?
             then required == 2 && threshold == if Effective(sim, ev, m) >= full then full else full * 0.25
             else required == 0 && threshold == size <= Effective(sim, ev, m)
    ensures Stamp(sim, size, full, ev[..m]) == FirstComplete(ev, 0, sim.queueAhead, required, threshold)
  {
    assert ev[..m][..m] == ev[..m];
    FirstCompleteInPrefix(ev, m, sim.queueAhead, required, threshold);
  }

  lemma FullIsTwice(sim: Simulator, order: RestingOrder)
    requires order.size > 0.0 && sim.throughMultiple >= 2.0
    ensures FullThreshold(sim, order) >= 2.0 * order.size
  {
    RealMulMonotone(2.0, sim.throughMultiple, order.size);
  }

  /** Profiles whose decision later evidence cannot change. */
  predicate Settled(sim: Simulator) {
    sim.profile.Conservative? ==> sim.throughMultiple >= 2.0
  }

  lemma PartialDecides(sim: Simulator, order: RestingOrder, full: real, ev: seq<Evidence>)
    requires Positive(ev) && order.size > 0.0 && full == FullThreshold(sim, order)
    requires !sim.profile.Conservative? && 0.0 < Effective(sim, ev, |ev|) < order.size
    ensures ev != [] && DecidedBy(sim, order, ev, |ev| - 1)
  {
    assert ev[..|ev|] == ev;
    forall m | 0 <= m <= |ev| ensures Judge(sim, order, ev[..m]) == Judge(sim, order, ev) <==> m == |ev| {
      PrefixParts(sim, order, full, ev, m);
      PrefixParts(sim, order, full, ev, |ev|);
      EffectiveGrows(sim, ev, m, |ev|);
      SameUsed(Used(sim.profile, order.size, full, Effective(sim, ev, m), Throughs(ev[..m])),
               Used(sim.profile, order.size, full, Effective(sim, ev, |ev|), Throughs(ev)), order.size);
    }
    PrefixParts(sim, order, full, ev, |ev|);
  }

  lemma WholeDecides(sim: Simulator, order: RestingOrder, full: real, ev: seq<Evidence>)
    requires Positive(ev) && order.size > 0.0 && full == FullThreshold(sim, order)
    requires !sim.profile.Conservative? && Effective(sim, ev, |ev|) >= order.size
    ensures DecidedBy(sim, order, ev, FirstComplete(ev, 0, sim.queueAhead, 0, order.size))
  {
    assert ev[..|ev|] == ev;
    CompleteByTotals(sim, ev, 0, order.size, |ev|);
    NothingFromNothing(sim, ev);
    var e := FirstComplete(ev, 0, sim.queueAhead, 0, order.size);
    forall m | 0 <= m <= |ev|
      ensures var now := Used(sim.profile, order.size, full, Effective(sim, ev, m), Throughs(ev[..m]));
              if m > e then now == order.size && Stamp(sim, order.size, full, ev[..m]) == e else now != order.size
    {
      CompleteByTotals(sim, ev, 0, order.size, m);
      if m > e {
        StampInPrefix(sim, order.size, full, ev, m, 0, order.size);
      }
    }
    CompletedDecides(sim, order, full, ev, 0, order.size, order.size);
  }

  lemma TierDecides(sim: Simulator, order: RestingOrder, full: real, ev: seq<Evidence>, threshold: real, used: real)
    requires Positive(ev) && order.size > 0.0 && full == FullThreshold(sim, order) >= 2.0 * order.size
    requires sim.profile.Conservative? && Throughs(ev) >= 2
    requires (threshold == full <= Effective(sim, ev, |ev|) && used == order.size)
          || (threshold == full * 0.25 <= Effective(sim, ev, |ev|) < full && used == order.size * 0.5)
    ensures DecidedBy(sim, order, ev, FirstComplete(ev, 0, sim.queueAhead, 2, threshold))
  {
    assert ev[..|ev|] == ev;
    CompleteByTotals(sim, ev, 2, threshold, |ev|);
    NothingFromNothing(sim, ev);
    var e := FirstComplete(ev, 0, sim.queueAhead, 2, threshold);
    forall m | 0 <= m <= |ev|
      ensures var now := Used(sim.profile, order.size, full, Effective(sim, ev, m), Throughs(ev[..m]));
              if m > e then now == used && Stamp(sim, order.size, full, ev[..m]) == e else now != used
    {
      CompleteByTotals(sim, ev, 2, threshold, m);
      EffectiveGrows(sim, ev, m, |ev|);
      if m > e {
        StampInPrefix(sim, order.size, full, ev, m, 2, threshold);
      }
    }
    CompletedDecides(sim, order, full, ev, 2, threshold, used);
  }

  lemma EvidenceDecides(sim: Simulator, order: RestingOrder, ev: seq<Evidence>) returns (e: nat)
    requires Positive(ev) && order.size > 0.0 && Settled(sim) && Judge(sim, order, ev).filled
    ensures DecidedBy(sim, order, ev, e)
  {
    var full, effective := FullThreshold(sim, order), Effective(sim, ev, |ev|);
    assert ev[..|ev|] == ev;
    JudgeParts(sim, order, full, ev);
    if !sim.profile.Conservative? {
      if effective >= order.size {
        WholeDecides(sim, order, full, ev);
        e := FirstComplete(ev, 0, sim.queueAhead, 0, order.size);
      } else {
        PartialDecides(sim, order, full, ev);
        e := |ev| - 1;
      }
    } else {
      FullIsTwice(sim, order);
      var threshold := if effective >= full then full else full * 0.25;
      TierDecides(sim, order, full, ev, threshold, if effective >= full then order.size else order.size * 0.5);
      e := FirstComplete(ev, 0, sim.queueAhead, 2, threshold);
    }
  }

  // ----- The timestamp alone never looks ahead -----

  /** Every cut of the evidence that keeps item `e` fills, stamped with it. */
  ghost predicate StampedBy(sim: Simulator, order: RestingOrder, ev: seq<Evidence>, e: nat) {
    && e < |ev|
    && Judge(sim, order, ev).fillTsMs == Domain.Some(ev[e].tsMs)
    && forall m :: e < m <= |ev| ==> Judge(sim, order, ev[..m]).filled
                                     && Judge(sim, order, ev[..m]).fillTsMs == Domain.Some(ev[e].tsMs)
  }

  /** A cut that keeps the completing item completes the same tier there. */
  lemma TierStampsCut(sim: Simulator, order: RestingOrder, full: real, ev: seq<Evidence>, threshold: real, m: nat)
    requires Positive(ev) && order.size > 0.0 && full == FullThreshold(sim, order) && sim.profile.Conservative?
    requires threshold == if Effective(sim, ev, |ev|) >= full then full else full * 0.25
    requires FirstComplete(ev, 0, sim.queueAhead, 2, threshold) < m <= |ev|
    ensures Judge(sim, order, ev[..m]).filled
    ensures Judge(sim, order, ev[..m]).fillTsMs
            == Domain.Some(ev[FirstComplete(ev, 0, sim.queueAhead, 2, threshold)].tsMs)
  {
    CompleteByTotals(sim, ev, 2, threshold, m);
    EffectiveGrows(sim, ev, m, |ev|);
    StampInPrefix(sim, order.size, full, ev, m, 2, threshold);
    PrefixParts(sim, order, full, ev, m);
  }

  lemma TierStamps(sim: Simulator, order: RestingOrder, ev: seq<Evidence>) returns (e: nat)
    requires Positive(ev) && order.size > 0.0 && sim.profile.Conservative? && Judge(sim, order, ev).filled
    ensures StampedBy(sim, order, ev, e)
  {
    var full := FullThreshold(sim, order);
    assert ev[..|ev|] == ev;
    var threshold := if Effective(sim, ev, |ev|) >= full then full else full * 0.25;
    JudgeParts(sim, order, full, ev);
    NothingFromNothing(sim, ev);
    CompleteByTotals(sim, ev, 2, threshold, |ev|);
    e := FirstComplete(ev, 0, sim.queueAhead, 2, threshold);
    forall m | e < m <= |ev|
      ensures Judge(sim, order, ev[..m]).filled && Judge(sim, order, ev[..m]).fillTsMs == Domain.Some(ev[e].tsMs)
    {
      TierStampsCut(sim, order, full, ev, threshold, m);
    }
  }

  // ----- No look-ahead, over the tape -----

  lemma {:induction false} EvidencePositive(order: RestingOrder, from: int, prints: seq<FillPrint>)
    ensures Positive(EvidenceOf(order, from, prints))
  {
    if prints != [] {
      EvidencePositive(order, from, prints[..|prints| - 1]);
    }
  }

  /** Cutting the tape cuts its evidence. */
  lemma {:induction false} EvidencePrefix(order: RestingOrder, from: int, prints: seq<FillPrint>, n: nat)
    requires n <= |prints|
    ensures EvidenceOf(order, from, prints[..n]) <= EvidenceOf(order, from, prints)
    decreases |prints|
  {
    if n == |prints| {
      assert prints[..n] == prints;
    } else {
      assert prints[..|prints| - 1][..n] == prints[..n];
      EvidencePrefix(order, from, prints[..|prints| - 1], n);
    }
  }

  /** The print an item of evidence comes from: a cut of the tape has the item
      exactly when it has the print. */
  lemma {:induction false} PrintOf(order: RestingOrder, from: int, prints: seq<FillPrint>, e: nat) returns (i: nat)
    requires e < |EvidenceOf(order, from, prints)|
    ensures i < |prints| && Weigh(order, from, prints[i]) == Domain.Some(EvidenceOf(order, from, prints)[e])
    ensures forall n :: 0 <= n <= |prints| ==> (|EvidenceOf(order, from, prints[..n])| > e <==> n > i)
    decreases |prints|
  {
    var last := |prints| - 1;
    var before := prints[..last];
    assert prints[..|prints|] == prints;
    if e < |EvidenceOf(order, from, before)| {
      i := PrintOf(order, from, before, e);
      forall n | 0 <= n <= |prints| ensures |EvidenceOf(order, from, prints[..n])| > e <==> n > i {
        if n < |prints| {
          assert before[..n] == prints[..n];
        }
      }
    } else {
      i := last;
      forall n | 0 <= n < |prints| ensures |EvidenceOf(order, from, prints[..n])| <= e {
        assert before[..n] == prints[..n];
        EvidencePrefix(order, from, before, n);
      }
    }
  }

  /** The fill is decided by print `i`: it is an eligible directional print, it
      carries the fill's timestamp, and cutting the tape anywhere gives the same
      outcome exactly when the cut keeps it. */
  ghost predicate DecidedAt(sim: Simulator, order: RestingOrder, prints: seq<FillPrint>, latencyMs: nat, i: nat) {
    && i < |prints|
    && Weigh(order, EligibleFrom(order, latencyMs), prints[i]).Some?
    && Fill(sim, order, prints, latencyMs).fillTsMs == Domain.Some(prints[i].tsMs)
    && forall n :: 0 <= n <= |prints| ==>
         (Fill(sim, order, prints[..n], latencyMs) == Fill(sim, order, prints, latencyMs) <==> n > i)
  }

  /** No look-ahead: every fill of a settled profile is decided by the print it is
      stamped with. */
  lemma NoLookAhead(sim: Simulator, order: RestingOrder, prints: seq<FillPrint>, latencyMs: nat) returns (i: nat)
    requires Settled(sim) && Fill(sim, order, prints, latencyMs).filled
    ensures DecidedAt(sim, order, prints, latencyMs, i)
  {
    var from := EligibleFrom(order, latencyMs);
    var ev := EvidenceOf(order, from, prints);
    EvidencePositive(order, from, prints);
    var e := EvidenceDecides(sim, order, ev);
    i := PrintOf(order, from, prints, e);
    forall n | 0 <= n <= |prints|
      ensures Fill(sim, order, prints[..n], latencyMs) == Fill(sim, order, prints, latencyMs) <==> n > i
    {
      EvidencePrefix(order, from, prints, n);
      var m := |EvidenceOf(order, from, prints[..n])|;
      assert EvidenceOf(order, from, prints[..n]) == ev[..m];
    }
  }

  /** Later prints never change the timestamp, whatever the settings: the fill is
      stamped with an eligible print, and every cut that keeps this print fills
      with the same timestamp. */
  lemma StampNeverLooksAhead(sim: Simulator, order: RestingOrder, prints: seq<FillPrint>, latencyMs: nat)
      returns (i: nat)
    requires Fill(sim, order, prints, latencyMs).filled
    ensures i < |prints| && Weigh(order, EligibleFrom(order, latencyMs), prints[i]).Some?
    ensures forall n :: i < n <= |prints| ==>
              && Fill(sim, order, prints[..n], latencyMs).filled
              && Fill(sim, order, prints[..n], latencyMs).fillTsMs == Domain.Some(prints[i].tsMs)
  {
    var from := EligibleFrom(order, latencyMs);
    var ev := EvidenceOf(order, from, prints);
    EvidencePositive(order, from, prints);
    var e;
    if sim.profile.Conservative? {
      e := TierStamps(sim, order, ev);
    } else {
      e := EvidenceDecides(sim, order, ev);
    }
    i := PrintOf(order, from, prints, e);
    forall n | i < n <= |prints|
      ensures && Fill(sim, order, prints[..n], latencyMs).filled
              && Fill(sim, order, prints[..n], latencyMs).fillTsMs == Domain.Some(prints[i].tsMs)
    {
      EvidencePrefix(order, from, prints, n);
      var m := |EvidenceOf(order, from, prints[..n])|;
      assert EvidenceOf(order, from, prints[..n]) == ev[..m];
    }
  }

  // ----- Exactly which simulators do not look ahead -----

  /** Three through prints against a buy of one unit, scaled so that the queue
      leaves `a`, `a` and `b` of them. */
  function WitnessOrder(): RestingOrder {
    RestingOrder(0.5, 1.0, 0, true)
  }

  function WitnessTape(q: real, a: real, b: real): seq<FillPrint>
    requires q < 1.0
  {
    var w := 1.0 - q;
    [FillPrint(1, 0.25, a / w, Sell), FillPrint(2, 0.25, a / w, Sell), FillPrint(3, 0.25, b / w, Sell)]
  }

  lemma DivTimes(a: real, w: real)
    requires w > 0.0 && a > 0.0
    ensures a / w > 0.0 && a / w * w == a
  {}

  lemma WitnessEvidence(q: real, a: real, b: real)
    requires q < 1.0 && a > 0.0 && b > 0.0
    ensures var w := 1.0 - q;
            EvidenceOf(WitnessOrder(), 0, WitnessTape(q, a, b))
                == [Evidence(1, a / w, true), Evidence(2, a / w, true), Evidence(3, b / w, true)]
  {
    var w := 1.0 - q;
    DivTimes(a, w);
    DivTimes(b, w);
    var tape, o := WitnessTape(q, a, b), WitnessOrder();
    assert tape[..2] == [tape[0], tape[1]] && tape[..2][..1] == [tape[0]] && tape[..2][..1][..0] == [];
    assert EvidenceOf(o, 0, tape[..2][..1]) == [Evidence(1, a / w, true)];
    assert EvidenceOf(o, 0, tape[..2]) == [Evidence(1, a / w, true), Evidence(2, a / w, true)];
  }

  lemma WitnessTotals(sim: Simulator, ev: seq<Evidence>, a: real, b: real)
    requires sim.queueAhead < 1.0 && a > 0.0 && b > 0.0
    requires var w := 1.0 - sim.queueAhead;
             ev == [Evidence(1, a / w, true), Evidence(2, a / w, true), Evidence(3, b / w, true)]
    ensures Effective(sim, ev, 1) == a && Throughs(ev[..1]) == 1
    ensures Effective(sim, ev, 2) == 2.0 * a && Throughs(ev[..2]) == 2
    ensures Effective(sim, ev, 3) == 2.0 * a + b && Throughs(ev[..3]) == 3
  {
    var w := 1.0 - sim.queueAhead;
    DivTimes(a, w);
    DivTimes(b, w);
    assert ev[..3][..2] == ev[..2] && ev[..2][..1] == ev[..1] && ev[..1][..0] == [];
    assert Available(ev[..1]) == a / w;
    assert Available(ev[..2]) == a / w + a / w;
    assert Available(ev[..3]) == a / w + a / w + b / w;
    assert (a / w + a / w) * w == 2.0 * a;
    assert (a / w + a / w + b / w) * w == 2.0 * a + b;
  }

  /** The witness completes its threshold at the second print, yet its quantity
      is taken from all three. */
  lemma WitnessJudged(sim: Simulator, ev: seq<Evidence>, full: real, a: real, b: real)
    requires sim.profile.Conservative? && full == FullThreshold(sim, WitnessOrder()) < 2.0
    requires if full > 0.0 then a == full / 8.0 && b == full / 4.0 else a == 0.25 && b == 0.25
    requires |ev| == 3 && ev[1].tsMs == 2
    requires Effective(sim, ev, 1) == a && Throughs(ev[..1]) == 1
    requires Effective(sim, ev, 2) == 2.0 * a && Throughs(ev[..2]) == 2
    requires Effective(sim, ev, 3) == 2.0 * a + b && Throughs(ev[..3]) == 3
    ensures Judge(sim, WitnessOrder(), ev).filled && Judge(sim, WitnessOrder(), ev).fillTsMs == Domain.Some(2)
    ensures Judge(sim, WitnessOrder(), ev[..2]).filled && Judge(sim, WitnessOrder(), ev[..2]).fillTsMs == Domain.Some(2)
    ensures Judge(sim, WitnessOrder(), ev[..2]).usedQty < Judge(sim, WitnessOrder(), ev).usedQty
  {
    var o := WitnessOrder();
    assert ev[..3] == ev;
    PrefixParts(sim, o, full, ev, 3);
    PrefixParts(sim, o, full, ev, 2);
    var threshold := if 2.0 * a + b >= full then full else full * 0.25;
    assert !Completes(ev, 0, sim.queueAhead, 2, threshold);
    assert Completes(ev, 1, sim.queueAhead, 2, threshold);
    assert FirstComplete(ev, 0, sim.queueAhead, 2, threshold) == 1;
    FirstCompleteInPrefix(ev, 2, sim.queueAhead, 2, threshold);
    assert ev[..2][..2] == ev[..2];
  }

  /** Below a multiple of two, CONSERVATIVE takes quantity from prints later than
      the one its fill is stamped with: without the third print the fill has the
      same timestamp and a smaller quantity. */
  lemma LooksAheadBelowTwo(sim: Simulator) returns (prints: seq<FillPrint>)
    requires sim.profile.Conservative? && sim.throughMultiple < 2.0 && sim.queueAhead < 1.0
    ensures |prints| == 3 && Fill(sim, WitnessOrder(), prints, 0).filled
    ensures Fill(sim, WitnessOrder(), prints[..2], 0).filled
    ensures Fill(sim, WitnessOrder(), prints[..2], 0).fillTsMs
            == Fill(sim, WitnessOrder(), prints, 0).fillTsMs == Domain.Some(2)
    ensures Fill(sim, WitnessOrder(), prints[..2], 0).usedQty < Fill(sim, WitnessOrder(), prints, 0).usedQty
    ensures forall i :: !DecidedAt(sim, WitnessOrder(), prints, 0, i)
  {
    var o, q := WitnessOrder(), sim.queueAhead;
    var full := FullThreshold(sim, o);
    assert full == sim.throughMultiple;
    var a := if full > 0.0 then full / 8.0 else 0.25;
    var b := if full > 0.0 then full / 4.0 else 0.25;
    prints := WitnessTape(q, a, b);
    var ev := EvidenceOf(o, 0, prints);
    WitnessEvidence(q, a, b);
    WitnessTotals(sim, ev, a, b);
    WitnessJudged(sim, ev, full, a, b);
    WitnessCut(q, a, b);
    assert Fill(sim, o, prints[..2], 0) != Fill(sim, o, prints, 0);
  }

  lemma WitnessCut(q: real, a: real, b: real)
    requires q < 1.0 && a > 0.0 && b > 0.0
    ensures var prints := WitnessTape(q, a, b);
            var ev := EvidenceOf(WitnessOrder(), 0, prints);
            |ev| == 3 && EvidenceOf(WitnessOrder(), 0, prints[..2]) == ev[..2]
  {
    var prints := WitnessTape(q, a, b);
    WitnessEvidence(q, a, b);
    EvidencePrefix(WitnessOrder(), 0, prints, 2);
    DivTimes(a, 1.0 - q);
    assert prints[..2] == [prints[0], prints[1]] && prints[..2][..1] == [prints[0]] && prints[..2][..1][..0] == [];
    assert |EvidenceOf(WitnessOrder(), 0, prints[..2][..1])| == 1;
  }

  /** The exact condition for no look-ahead, over every order, tape and latency. */
  lemma NoLookAheadIff(sim: Simulator)
    ensures (forall order, prints, latencyMs :: Fill(sim, order, prints, latencyMs).filled ==>
               exists i :: DecidedAt(sim, order, prints, latencyMs, i))
       <==> Settled(sim) || sim.queueAhead >= 1.0
  {
    if Settled(sim) || sim.queueAhead >= 1.0 {
      forall order, prints, latencyMs | Fill(sim, order, prints, latencyMs).filled
        ensures exists i :: DecidedAt(sim, order, prints, latencyMs, i)
      {
        var i := NoLookAhead(sim, order, prints, latencyMs);
      }
    } else {
      var prints := LooksAheadBelowTwo(sim);
    }
  }
}

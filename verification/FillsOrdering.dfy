// Order laws of the tape fill simulator: which changes can never reduce a fill,
// how the three profiles compare, and the buy/sell mirror.
module FillsOrdering {
  import Domain
  import opened Arithmetic
  import opened Fills
  import opened FillsCausality

  function Fraction(sim: Simulator, order: RestingOrder, prints: seq<FillPrint>, latencyMs: nat): real {
    Fill(sim, order, prints, latencyMs).fillFraction
  }

  function Totals(order: RestingOrder, prints: seq<FillPrint>, latencyMs: nat): seq<Evidence> {
    EvidenceOf(order, EligibleFrom(order, latencyMs), prints)
  }

  lemma DivMonotone(a: real, b: real, c: real)
    requires a <= b && c > 0.0
    ensures a / c <= b / c
  {
    assert (b - a) / c >= 0.0;
  }

  lemma AfterQueueOrder(a: real, b: real, q: real, q': real)
    requires 0.0 <= a <= b && q' <= q
    ensures AfterQueue(a, q) <= AfterQueue(b, q')
  {
    AfterQueueMonotone(a, b, q);
    if q' < 1.0 {
      ProductSign(b, 1.0 - q');
      if q < 1.0 {
        RealMulMonotone(1.0 - q, 1.0 - q', b);
      }
    }
  }

  lemma UnitRatio(used: real, size: real)
    requires 0.0 <= used <= size && size > 0.0
    ensures 0.0 <= used / size <= 1.0
    ensures used / size > 0.0 <==> used > 0.0
    ensures used / size == 1.0 <==> used == size
  {
    assert used == used / size * size;
    assert size / size == 1.0;
  }

  function UsedOf(sim: Simulator, order: RestingOrder, ev: seq<Evidence>): (used: real)
    requires order.size > 0.0
    ensures 0.0 <= used <= order.size
  {
    Used(sim.profile, order.size, FullThreshold(sim, order), Effective(sim, ev, |ev|), Throughs(ev))
  }

  /** The fraction is the used share of the order. */
  lemma FractionIsUsed(sim: Simulator, order: RestingOrder, ev: seq<Evidence>, used: real)
    requires order.size > 0.0 && used == UsedOf(sim, order, ev)
    ensures var out := Judge(sim, order, ev);
            && out.fillFraction == used / order.size && 0.0 <= out.fillFraction <= 1.0
            && (out.filled <==> used > 0.0) && (out.fillFraction > 0.0 <==> used > 0.0)
            && (out.fillFraction == 1.0 <==> used == order.size)
  {
    JudgeParts(sim, order, FullThreshold(sim, order), ev);
    UnitRatio(used, order.size);
  }

  lemma UsedMonotone(profile: FillProfile, size: real, full: real, a: real, t: nat, b: real, u: nat)
    requires a <= b && t <= u && size > 0.0
    ensures Used(profile, size, full, a, t) <= Used(profile, size, full, b, u)
  {}

  /** More evidence and a shorter queue never reduce the fraction. */
  lemma MoreNeverFillsLess(sim: Simulator, sim': Simulator, order: RestingOrder, order': RestingOrder,
                           ev: seq<Evidence>, ev': seq<Evidence>)
    requires sim'.profile == sim.profile && sim'.throughMultiple == sim.throughMultiple
            && sim'.queueAhead <= sim.queueAhead
    requires order.size == order'.size > 0.0
    requires 0.0 <= Available(ev) <= Available(ev') && Throughs(ev) <= Throughs(ev')
    ensures Judge(sim, order, ev).fillFraction <= Judge(sim', order', ev').fillFraction
  {
    UsedLess(sim, sim', order, order', ev, ev');
    var used, used' := UsedOf(sim, order, ev), UsedOf(sim', order', ev');
    FractionIsUsed(sim, order, ev, used);
    FractionIsUsed(sim', order', ev', used');
    DivMonotone(used, used', order.size);
  }

  lemma SameThreshold(sim: Simulator, sim': Simulator, order: RestingOrder, order': RestingOrder)
    requires sim'.throughMultiple == sim.throughMultiple && order.size == order'.size
    ensures FullThreshold(sim, order) == FullThreshold(sim', order')
  {}

  lemma UsedLess(sim: Simulator, sim': Simulator, order: RestingOrder, order': RestingOrder, ev: seq<Evidence>,
                 ev': seq<Evidence>)
    requires sim'.profile == sim.profile && sim'.throughMultiple == sim.throughMultiple
            && sim'.queueAhead <= sim.queueAhead
    requires order.size == order'.size > 0.0
    requires 0.0 <= Available(ev) <= Available(ev') && Throughs(ev) <= Throughs(ev')
    ensures UsedOf(sim, order, ev) <= UsedOf(sim', order', ev')
  {
    assert ev[..|ev|] == ev && ev'[..|ev'|] == ev';
    SameThreshold(sim, sim', order, order');
    AfterQueueOrder(Available(ev), Available(ev'), sim.queueAhead, sim'.queueAhead);
    UsedMonotone(sim.profile, order.size, FullThreshold(sim, order),
                 Effective(sim, ev, |ev|), Throughs(ev), Effective(sim', ev', |ev'|), Throughs(ev'));
  }

  // ----- What makes more evidence -----

  lemma {:induction false} NonNegative(order: RestingOrder, from: int, prints: seq<FillPrint>)
    ensures Available(EvidenceOf(order, from, prints)) >= 0.0
  {
    EvidencePositive(order, from, prints);
    var ev := EvidenceOf(order, from, prints);
    assert ev[..|ev|] == ev;
    AvailableGrows(ev, |ev|, |ev|);
  }

  lemma AppendItem(ev: seq<Evidence>, e: Option<Evidence>)
    ensures var ev' := ev + if e.Some? then [e.value] else [];
            && Available(ev') == Available(ev) + (if e.Some? then e.value.contribution else 0.0)
            && Throughs(ev') == Throughs(ev) + (if e.Some? && e.value.isThrough then 1 else 0)
  {
    var ev' := ev + if e.Some? then [e.value] else [];
    if e.Some? {
      TotalsStep(ev, e.value);
    } else {
      assert ev' == ev;
    }
  }

  /** One print counts for at least as much. */
  ghost predicate CountsMore(e: Option<Evidence>, e': Option<Evidence>) {
    e.Some? ==>
      && e'.Some? && e.value.contribution <= e'.value.contribution
      && (e.value.isThrough ==> e'.value.isThrough)
  }

  lemma {:induction false} TapeCountsMore(order: RestingOrder, from: int, order': RestingOrder, from': int,
                                          prints: seq<FillPrint>)
    requires forall k :: 0 <= k < |prints| ==>
               CountsMore(Weigh(order, from, prints[k]), Weigh(order', from', prints[k]))
    ensures Available(EvidenceOf(order, from, prints)) <= Available(EvidenceOf(order', from', prints))
    ensures Throughs(EvidenceOf(order, from, prints)) <= Throughs(EvidenceOf(order', from', prints))
  {
    if prints != [] {
      var before, last := prints[..|prints| - 1], prints[|prints| - 1];
      TapeCountsMore(order, from, order', from', before);
      AppendItem(EvidenceOf(order, from, before), Weigh(order, from, last));
      AppendItem(EvidenceOf(order', from', before), Weigh(order', from', last));
      assert CountsMore(Weigh(order, from, last), Weigh(order', from', last));
    }
  }

  // ----- Monotonicity -----

  /** Appending prints never reduces the fill. */
  lemma MorePrints(sim: Simulator, order: RestingOrder, prints: seq<FillPrint>, more: seq<FillPrint>, latencyMs: nat)
    ensures Fraction(sim, order, prints, latencyMs) <= Fraction(sim, order, prints + more, latencyMs)
  {
    if order.size > 0.0 {
      var from := EligibleFrom(order, latencyMs);
      var ev, ev' := Totals(order, prints, latencyMs), Totals(order, prints + more, latencyMs);
      assert (prints + more)[..|prints|] == prints;
      EvidencePrefix(order, from, prints + more, |prints|);
      EvidencePositive(order, from, prints + more);
      assert ev == ev'[..|ev|] && ev'[..|ev'|] == ev';
      AvailableGrows(ev', |ev|, |ev'|);
      MoreNeverFillsLess(sim, sim, order, order, ev, ev');
    }
  }

  /** Lower latency never reduces the fill. */
  lemma LowerLatency(sim: Simulator, order: RestingOrder, prints: seq<FillPrint>, latencyMs: nat, lower: nat)
    requires lower <= latencyMs
    ensures Fraction(sim, order, prints, latencyMs) <= Fraction(sim, order, prints, lower)
  {
    if order.size > 0.0 {
      var from, from' := EligibleFrom(order, latencyMs), EligibleFrom(order, lower);
      TapeCountsMore(order, from, order, from', prints);
      NonNegative(order, from, prints);
      MoreNeverFillsLess(sim, sim, order, order, Totals(order, prints, latencyMs), Totals(order, prints, lower));
    }
  }

  /** A shorter queue ahead never reduces the fill. */
  lemma ShorterQueue(sim: Simulator, queueAhead: real, order: RestingOrder, prints: seq<FillPrint>, latencyMs: nat)
    requires queueAhead <= sim.queueAhead
    ensures Fraction(sim, order, prints, latencyMs)
         <= Fraction(sim.(queueAhead := queueAhead), order, prints, latencyMs)
  {
    if order.size > 0.0 {
      var ev := Totals(order, prints, latencyMs);
      NonNegative(order, EligibleFrom(order, latencyMs), prints);
      MoreNeverFillsLess(sim, sim.(queueAhead := queueAhead), order, order, ev, ev);
    }
  }

  /** A limit is better when it is higher for a buy, lower for a sell. */
  predicate BetterLimit(order: RestingOrder, price: real) {
    if order.sideBuy then order.price <= price else price <= order.price
  }

  /** A better limit never reduces the fill. */
  lemma BetterLimitFillsMore(sim: Simulator, order: RestingOrder, price: real, prints: seq<FillPrint>, latencyMs: nat)
    requires BetterLimit(order, price)
    ensures Fraction(sim, order, prints, latencyMs) <= Fraction(sim, order.(price := price), prints, latencyMs)
  {
    if order.size > 0.0 {
      var from, order' := EligibleFrom(order, latencyMs), order.(price := price);
      forall k | 0 <= k < |prints| ensures CountsMore(Weigh(order, from, prints[k]), Weigh(order', from, prints[k])) {
        BetterLimitCounts(order, from, price, prints[k]);
      }
      TapeCountsMore(order, from, order', from, prints);
      NonNegative(order, from, prints);
      MoreNeverFillsLess(sim, sim, order, order', Totals(order, prints, latencyMs), Totals(order', prints, latencyMs));
    }
  }

  lemma BetterLimitCounts(order: RestingOrder, from: int, price: real, p: FillPrint)
    requires BetterLimit(order, price)
    ensures CountsMore(Weigh(order, from, p), Weigh(order.(price := price), from, p))
  {
    var base := ValidQty(p.qty) * AggressorWeight(order.sideBuy, p.aggressor);
    assert base >= 0.0;
    assert base * 0.5 <= base * 1.0;
  }

  // ----- The three profiles -----

  /** CONSERVATIVE <= BASE <= OPTIMISTIC, on the same order, tape and latency. */
  lemma ProfileOrder(order: RestingOrder, prints: seq<FillPrint>, latencyMs: nat)
    ensures Fraction(DefaultSimulator(Conservative), order, prints, latencyMs)
         <= Fraction(DefaultSimulator(Base), order, prints, latencyMs)
         <= Fraction(DefaultSimulator(Optimistic), order, prints, latencyMs)
  {
    if order.size > 0.0 {
      ProfilesOnEvidence(order, Totals(order, prints, latencyMs), EligibleFrom(order, latencyMs), prints);
    }
  }

  lemma ProfilesOnEvidence(order: RestingOrder, ev: seq<Evidence>, from: int, prints: seq<FillPrint>)
    requires order.size > 0.0 && ev == EvidenceOf(order, from, prints)
    ensures Judge(DefaultSimulator(Conservative), order, ev).fillFraction
         <= Judge(DefaultSimulator(Base), order, ev).fillFraction
         <= Judge(DefaultSimulator(Optimistic), order, ev).fillFraction
  {
    var c, b, o := DefaultSimulator(Conservative), DefaultSimulator(Base), DefaultSimulator(Optimistic);
    NonNegative(order, from, prints);
    assert ev[..|ev|] == ev;
    var used, used', used'' := UsedOf(c, order, ev), UsedOf(b, order, ev), UsedOf(o, order, ev);
    FractionIsUsed(c, order, ev, used);
    FractionIsUsed(b, order, ev, used');
    FractionIsUsed(o, order, ev, used'');
    DivMonotone(used, used', order.size);
    DivMonotone(used', used'', order.size);
  }

  // ----- When the profiles complete -----

  predicate FullyFilled(out: FillOutcome) {
    out.filled && out.fillFraction == 1.0
  }

  lemma FractionAtMostOne(sim: Simulator, order: RestingOrder, prints: seq<FillPrint>, latencyMs: nat)
    ensures 0.0 <= Fraction(sim, order, prints, latencyMs) <= 1.0
    ensures Fraction(sim, order, prints, latencyMs) > 0.0 ==> Fill(sim, order, prints, latencyMs).filled
  {
    if order.size > 0.0 {
      var ev := Totals(order, prints, latencyMs);
      FractionIsUsed(sim, order, ev, UsedOf(sim, order, ev));
    }
  }

  /** A full fill on a cut of the tape is final: its print decides the fill on the
      whole tape as well. */
  lemma FullFillIsFinal(sim: Simulator, order: RestingOrder, prints: seq<FillPrint>, latencyMs: nat, n: nat)
      returns (i: nat)
    requires Settled(sim) && n <= |prints|
    requires FullyFilled(Fill(sim, order, prints[..n], latencyMs))
    ensures i < n && DecidedAt(sim, order, prints, latencyMs, i)
    ensures FullyFilled(Fill(sim, order, prints, latencyMs))
  {
    var cut := prints[..n];
    assert cut + prints[n..] == prints;
    MorePrints(sim, order, cut, prints[n..], latencyMs);
    FractionAtMostOne(sim, order, prints, latencyMs);
    FullSameOutcome(sim, order, prints, latencyMs, n);
    i := NoLookAhead(sim, order, prints, latencyMs);
  }

  lemma FullSameOutcome(sim: Simulator, order: RestingOrder, prints: seq<FillPrint>, latencyMs: nat, n: nat)
    requires Settled(sim) && n <= |prints|
    requires FullyFilled(Fill(sim, order, prints[..n], latencyMs)) && FullyFilled(Fill(sim, order, prints, latencyMs))
    ensures Fill(sim, order, prints[..n], latencyMs) == Fill(sim, order, prints, latencyMs)
  {
    var from := EligibleFrom(order, latencyMs);
    var ev, full := EvidenceOf(order, from, prints), FullThreshold(sim, order);
    EvidencePrefix(order, from, prints, n);
    EvidencePositive(order, from, prints);
    var m := |EvidenceOf(order, from, prints[..n])|;
    assert EvidenceOf(order, from, prints[..n]) == ev[..m] && ev[..|ev|] == ev;
    FractionIsUsed(sim, order, ev[..m], UsedOf(sim, order, ev[..m]));
    FractionIsUsed(sim, order, ev, UsedOf(sim, order, ev));
    assert ev[..m][..m] == ev[..m];
    FullSameStamp(sim, order.size, full, ev, m);
    JudgeParts(sim, order, full, ev[..m]);
    JudgeParts(sim, order, full, ev);
  }

  lemma FullSameStamp(sim: Simulator, size: real, full: real, ev: seq<Evidence>, m: nat)
    requires Positive(ev) && m <= |ev| && size > 0.0
    requires Used(sim.profile, size, full, Effective(sim, ev, m), Throughs(ev[..m])) == size
    ensures StampTs(sim, size, full, ev[..m]) == StampTs(sim, size, full, ev)
  {
    assert ev[..m][..m] == ev[..m] && ev[..|ev|] == ev;
    EffectiveGrows(sim, ev, m, |ev|);
    NothingFromNothing(sim, ev);
    var required := if sim.profile.Conservative? then 2 else 0;
    var threshold := if sim.profile.Conservative? then full else size;
    CompleteByTotals(sim, ev, required, threshold, m);
    FirstCompleteInPrefix(ev, m, sim.queueAhead, required, threshold);
  }

  /** If CONSERVATIVE fills fully, so do the other two, decided by prints no later
      in the tape, OPTIMISTIC no later than BASE. */
  lemma ProfilesCompleteInOrder(order: RestingOrder, prints: seq<FillPrint>, latencyMs: nat)
      returns (c: nat, b: nat, o: nat)
    requires FullyFilled(Fill(DefaultSimulator(Conservative), order, prints, latencyMs))
    ensures o <= b <= c
    ensures DecidedAt(DefaultSimulator(Conservative), order, prints, latencyMs, c)
    ensures DecidedAt(DefaultSimulator(Base), order, prints, latencyMs, b)
    ensures DecidedAt(DefaultSimulator(Optimistic), order, prints, latencyMs, o)
    ensures FullyFilled(Fill(DefaultSimulator(Base), order, prints, latencyMs))
    ensures FullyFilled(Fill(DefaultSimulator(Optimistic), order, prints, latencyMs))
  {
    c := NoLookAhead(DefaultSimulator(Conservative), order, prints, latencyMs);
    b := NextProfile(Conservative, Base, order, prints, latencyMs, c);
    o := NextProfile(Base, Optimistic, order, prints, latencyMs, b);
  }

  lemma NextProfile(p: FillProfile, p': FillProfile, order: RestingOrder, prints: seq<FillPrint>,
                    latencyMs: nat, i: nat) returns (j: nat)
    requires (p == Conservative && p' == Base) || (p == Base && p' == Optimistic)
    requires FullyFilled(Fill(DefaultSimulator(p), order, prints, latencyMs))
    requires DecidedAt(DefaultSimulator(p), order, prints, latencyMs, i)
    ensures j <= i && DecidedAt(DefaultSimulator(p'), order, prints, latencyMs, j)
    ensures FullyFilled(Fill(DefaultSimulator(p'), order, prints, latencyMs))
  {
    var cut := prints[..i + 1];
    assert Fill(DefaultSimulator(p), order, cut, latencyMs) == Fill(DefaultSimulator(p), order, prints, latencyMs);
    ProfileOrder(order, cut, latencyMs);
    FractionAtMostOne(DefaultSimulator(p'), order, cut, latencyMs);
    j := FullFillIsFinal(DefaultSimulator(p'), order, prints, latencyMs, i + 1);
  }

  // ----- Mirror -----

  function MirrorOrder(order: RestingOrder): RestingOrder {
    order.(price := 1.0 - order.price, sideBuy := !order.sideBuy)
  }

  function MirrorPrint(p: FillPrint): FillPrint {
    p.(price := 1.0 - p.price,
       aggressor := match p.aggressor case Buy => Sell case Sell => Buy case Unknown => Unknown)
  }

  function MirrorTape(prints: seq<FillPrint>): (m: seq<FillPrint>)
    ensures |m| == |prints| && forall k :: 0 <= k < |prints| ==> m[k] == MirrorPrint(prints[k])
  {
    if prints == [] then [] else MirrorTape(prints[..|prints| - 1]) + [MirrorPrint(prints[|prints| - 1])]
  }

  lemma MirrorWeights(order: RestingOrder, p: FillPrint)
    ensures AggressorWeight(!order.sideBuy, MirrorPrint(p).aggressor) == AggressorWeight(order.sideBuy, p.aggressor)
    ensures PriceWeight(MirrorOrder(order), MirrorPrint(p).price) == PriceWeight(order, p.price)
    ensures MirrorPrint(p).price != MirrorOrder(order).price <==> p.price != order.price
  {}

  lemma MirrorWeigh(order: RestingOrder, from: int, p: FillPrint)
    ensures Weigh(MirrorOrder(order), from, MirrorPrint(p)) == Weigh(order, from, p)
  {
    MirrorWeights(order, p);
  }

  lemma {:induction false} MirrorEvidence(order: RestingOrder, from: int, prints: seq<FillPrint>)
    ensures EvidenceOf(MirrorOrder(order), from, MirrorTape(prints)) == EvidenceOf(order, from, prints)
  {
    if prints != [] {
      var last := |prints| - 1;
      assert MirrorTape(prints)[..last] == MirrorTape(prints[..last]);
      MirrorEvidence(order, from, prints[..last]);
      MirrorWeigh(order, from, prints[last]);
    }
  }

  lemma MirrorOutcome(sim: Simulator, order: RestingOrder, used: real, ts: Option<int>)
    requires order.size > 0.0
    ensures var out := OutcomeAt(sim, order, used, ts);
            OutcomeAt(sim, MirrorOrder(order), used, ts) == out.(fillPrice := 1.0 - out.fillPrice)
  {}

  lemma MirrorJudged(sim: Simulator, order: RestingOrder, ev: seq<Evidence>)
    requires order.size > 0.0
    ensures var out := Judge(sim, order, ev);
            Judge(sim, MirrorOrder(order), ev) == out.(fillPrice := 1.0 - out.fillPrice)
  {
    var full := FullThreshold(sim, order);
    SameThreshold(sim, sim, order, MirrorOrder(order));
    JudgeParts(sim, order, full, ev);
    JudgeParts(sim, MirrorOrder(order), full, ev);
    MirrorOutcome(sim, order, Used(sim.profile, order.size, full, Effective(sim, ev, |ev|), Throughs(ev)),
                  StampTs(sim, order.size, full, ev));
  }

  /** A buy at p on a tape and a sell at 1 - p on the mirrored tape have the same
      outcome, at mirrored prices. */
  lemma MirrorSymmetry(sim: Simulator, order: RestingOrder, prints: seq<FillPrint>, latencyMs: nat)
    ensures var out := Fill(sim, order, prints, latencyMs);
            Fill(sim, MirrorOrder(order), MirrorTape(prints), latencyMs) == out.(fillPrice := 1.0 - out.fillPrice)
  {
    MirrorEvidence(order, EligibleFrom(order, latencyMs), prints);
    if order.size > 0.0 {
      MirrorJudged(sim, order, Totals(order, prints, latencyMs));
    }
  }
}

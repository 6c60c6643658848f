// The tape fill simulator in the terms of its documentation: which prints can
// count, what each contributes, and which quantity an order is given for it.
module FillsTerms {
  import Domain
  import opened Arithmetic
  import opened Fills
  import opened FillsCausality

  // ----- Only prints after the submit latency count -----

  const LATEST: int := 9_223_372_036_854_775_807

  /** The first time at which an order can be filled: the submit latency after it
      rests, but never past the largest 64-bit time. */
  function FirstTime(order: RestingOrder, latencyMs: nat): int {
    var submitMs := if latencyMs <= LATEST then latencyMs else LATEST;
    if order.restingFromMs + submitMs <= LATEST then order.restingFromMs + submitMs else LATEST
  }

  predicate InRange(order: RestingOrder) {
    -LATEST - 1 <= order.restingFromMs <= LATEST
  }

  /** A print before that time is as good as not there. */
  lemma EarlyPrintIgnored(sim: Simulator, order: RestingOrder, prints: seq<FillPrint>, latencyMs: nat, k: nat)
    requires InRange(order) && k < |prints| && prints[k].tsMs < FirstTime(order, latencyMs)
    ensures Fill(sim, order, prints[..k] + prints[k + 1..], latencyMs) == Fill(sim, order, prints, latencyMs)
  {
    var from := EligibleFrom(order, latencyMs);
    assert from == FirstTime(order, latencyMs);
    assert prints == prints[..k] + [prints[k]] + prints[k + 1..];
    EvidenceJoin(order, from, prints[..k] + [prints[k]], prints[k + 1..]);
    EvidenceJoin(order, from, prints[..k], [prints[k]]);
    EvidenceJoin(order, from, prints[..k], prints[k + 1..]);
    OnePrint(order, from, prints[k]);
    assert EvidenceOf(order, from, prints[..k]) + [] == EvidenceOf(order, from, prints[..k]);
  }

  lemma {:induction false} EvidenceJoin(order: RestingOrder, from: int, a: seq<FillPrint>, b: seq<FillPrint>)
    ensures EvidenceOf(order, from, a + b) == EvidenceOf(order, from, a) + EvidenceOf(order, from, b)
  {
    if b == [] {
      assert a + b == a;
    } else {
      assert (a + b)[..|a + b| - 1] == a + b[..|b| - 1];
      EvidenceJoin(order, from, a, b[..|b| - 1]);
    }
  }

  lemma OnePrint(order: RestingOrder, from: int, p: FillPrint)
    ensures EvidenceOf(order, from, [p]) == match Weigh(order, from, p) case Some(e) => [e] case None => []
  {
    assert [p][..0] == [];
  }

  /** No fill is stamped before that time. */
  lemma StampAfterLatency(sim: Simulator, order: RestingOrder, prints: seq<FillPrint>, latencyMs: nat)
    requires InRange(order) && Fill(sim, order, prints, latencyMs).filled
    ensures var ts := Fill(sim, order, prints, latencyMs).fillTsMs;
            ts.Some? && ts.value >= FirstTime(order, latencyMs)
  {
    var i := StampNeverLooksAhead(sim, order, prints, latencyMs);
    assert prints[..|prints|] == prints;
  }

  // ----- What one print contributes -----

  /** An aggressive print on the other side of the order contributes all its size
      when it trades through the limit and half of it at the limit; a print of
      unknown side half of that; any other print nothing. */
  lemma PrintContributes(order: RestingOrder, from: int, p: FillPrint)
    ensures var toward := if order.sideBuy then p.aggressor == Sell else p.aggressor == Buy;
            var through := if order.sideBuy then p.price < order.price else p.price > order.price;
            var ev := EvidenceOf(order, from, [p]);
            if p.tsMs < from || p.qty <= 0.0 then ev == []
            else if toward && through then ev == [Evidence(p.tsMs, p.qty, true)]
            else if toward && p.price == order.price then ev == [Evidence(p.tsMs, p.qty / 2.0, false)]
            else if p.aggressor == Unknown && through then ev == [Evidence(p.tsMs, p.qty / 2.0, true)]
            else if p.aggressor == Unknown && p.price == order.price then ev == [Evidence(p.tsMs, p.qty / 4.0, false)]
            else ev == []
  {
    OnePrint(order, from, p);
  }

  /** The size a tape makes available is the sum over its prints, and so is the
      number of prints that traded through. */
  lemma TotalsAdd(order: RestingOrder, from: int, prints: seq<FillPrint>, p: FillPrint)
    ensures var ev, one := EvidenceOf(order, from, prints), EvidenceOf(order, from, [p]);
            && EvidenceOf(order, from, prints + [p]) == ev + one
            && Available(ev + one) == Available(ev) + (if one == [] then 0.0 else one[0].contribution)
            && Throughs(ev + one) == Throughs(ev) + (if one != [] && one[0].isThrough then 1 else 0)
  {
    var ev, one := EvidenceOf(order, from, prints), EvidenceOf(order, from, [p]);
    EvidenceJoin(order, from, prints, [p]);
    OnePrint(order, from, p);
    if one == [] {
      assert ev + one == ev;
    } else {
      TotalsStep(ev, one[0]);
    }
  }

  // ----- Which quantity an order is given -----

  /** The share of an available size that the queue in front leaves over. */
  function Leftover(available: real, queueAhead: real): real {
    if queueAhead < 1.0 then available * (1.0 - queueAhead) else 0.0
  }

  function Smaller(a: real, b: real): real {
    if a <= b then a else b
  }

  /** OPTIMISTIC and BASE give what the queue leaves over, up to the order's size.
      CONSERVATIVE needs two prints through the limit; it gives up to the whole size
      once the leftover reaches `full`, up to half of it at a quarter of that, and
      otherwise nothing. */
  function Quantity(profile: FillProfile, size: real, full: real, left: real, throughs: nat): real {
    if left <= 0.0 then 0.0
    else if !profile.Conservative? then Smaller(size, left)
    else if throughs < 2 then 0.0
    else if left >= full then Smaller(size, left)
    else if left >= full / 4.0 then Smaller(size / 2.0, left)
    else 0.0
  }

  /** The quantity of every fill, by profile. The full threshold of CONSERVATIVE is
      the through multiple times the order's size. */
  lemma QuantityGiven(sim: Simulator, order: RestingOrder, prints: seq<FillPrint>, latencyMs: nat)
    requires InRange(order)
    ensures var ev := EvidenceOf(order, FirstTime(order, latencyMs), prints);
            Fill(sim, order, prints, latencyMs).usedQty
            == if order.size <= 0.0 then 0.0
               else Quantity(sim.profile, order.size, order.size * sim.throughMultiple,
                             Leftover(Available(ev), sim.queueAhead), Throughs(ev))
  {
    if order.size > 0.0 {
      var from := EligibleFrom(order, latencyMs);
      var ev := EvidenceOf(order, from, prints);
      assert from == FirstTime(order, latencyMs);
      EvidencePositive(order, from, prints);
      LeftoverIsEffective(ev, sim.queueAhead);
      JudgedQuantity(sim, order, ev, order.size * sim.throughMultiple, Leftover(Available(ev), sim.queueAhead));
    }
  }

  lemma LeftoverIsEffective(ev: seq<Evidence>, queueAhead: real)
    requires Positive(ev)
    ensures Available(ev) >= 0.0 && AfterQueue(Available(ev), queueAhead) == Leftover(Available(ev), queueAhead)
  {
    assert ev[..|ev|] == ev;
    AvailableGrows(ev, |ev|, |ev|);
  }

  lemma JudgedQuantity(sim: Simulator, order: RestingOrder, ev: seq<Evidence>, full: real, left: real)
    requires order.size > 0.0 && full == FullThreshold(sim, order) && left == AfterQueue(Available(ev), sim.queueAhead)
    ensures Judge(sim, order, ev).usedQty == Quantity(sim.profile, order.size, full, left, Throughs(ev))
  {
    assert ev[..|ev|] == ev;
    JudgeParts(sim, order, full, ev);
  }

  /** What else an outcome says: it is filled exactly if it was given a quantity, the
      fraction is the share of the order's size, the price is the limit, and there is
      a timestamp exactly if it is filled. */
  lemma OutcomeSays(sim: Simulator, order: RestingOrder, prints: seq<FillPrint>, latencyMs: nat)
    ensures var out := Fill(sim, order, prints, latencyMs);
            && (out.filled <==> out.usedQty > 0.0)
            && (out.filled <==> out.fillTsMs.Some?)
            && out.fillPrice == order.price && out.profile == sim.profile
            && (order.size <= 0.0 ==> out.fillFraction == 0.0)
            && (order.size > 0.0 ==> out.fillFraction == out.usedQty / order.size)
  {
    if order.size > 0.0 {
      JudgedSays(sim, order, EvidenceOf(order, EligibleFrom(order, latencyMs), prints));
      if Fill(sim, order, prints, latencyMs).filled {
        var i := StampNeverLooksAhead(sim, order, prints, latencyMs);
        assert prints[..|prints|] == prints;
      }
    }
  }

  lemma JudgedSays(sim: Simulator, order: RestingOrder, ev: seq<Evidence>)
    requires order.size > 0.0
    ensures var out := Judge(sim, order, ev);
            && (out.filled <==> out.usedQty > 0.0)
            && (!out.filled ==> out.fillTsMs.None?)
            && out.fillPrice == order.price && out.profile == sim.profile
            && out.fillFraction == out.usedQty / order.size
  {
    var full := FullThreshold(sim, order);
    var used := Used(sim.profile, order.size, full, Effective(sim, ev, |ev|), Throughs(ev));
    JudgeParts(sim, order, full, ev);
    UsedNotNegative(sim.profile, order.size, full, Effective(sim, ev, |ev|), Throughs(ev));
    OutcomeAtSays(sim, order, used, StampTs(sim, order.size, full, ev));
  }

  lemma OutcomeAtSays(sim: Simulator, order: RestingOrder, used: real, ts: Option<int>)
    requires order.size > 0.0 && used >= 0.0
    ensures var out := OutcomeAt(sim, order, used, ts);
            && (out.filled <==> out.usedQty > 0.0)
            && (!out.filled ==> out.fillTsMs.None?)
            && out.fillPrice == order.price && out.profile == sim.profile
            && out.fillFraction == out.usedQty / order.size
  {}

  lemma UsedNotNegative(profile: FillProfile, size: real, full: real, effective: real, throughs: nat)
    requires size > 0.0
    ensures Used(profile, size, full, effective, throughs) >= 0.0
  {}

  /** The default settings of the three profiles. */
  lemma DefaultSettings()
    ensures DefaultSimulator(Optimistic).queueAhead == 0.0 && DefaultSimulator(Optimistic).throughMultiple == 2.0
    ensures DefaultSimulator(Base).queueAhead == 0.3 && DefaultSimulator(Base).throughMultiple == 2.0
    ensures DefaultSimulator(Conservative).queueAhead == 0.6 && DefaultSimulator(Conservative).throughMultiple == 2.0
  {}
}

// One update of the paper matcher in the terms of its orders and quotes alone:
// who is filled, in which order, up to which size, and what is left. Together
// these results determine every fill of an update.
module PaperPriority {
  import opened Domain
  import opened PaperBook
  import opened PaperMatching

  /** The order is priced strictly above the best ask. */
  predicate AboveAsk(r: Resting, u: TopOfBookUpdate, id: nat) {
    id in r && u.bestAsk.Some? && r[id].order.price > u.bestAsk.value
  }

  /** The order is priced at the best bid, and not above the best ask. */
  predicate AtBid(r: Resting, u: TopOfBookUpdate, id: nat) {
    id in r && !AboveAsk(r, u, id) && u.bestBid.Some? && r[id].order.price == u.bestBid.value
  }

  lemma WhoIsMatched(r: Resting, u: TopOfBookUpdate, id: nat)
    ensures id in CrossedIds(r, u) <==> AboveAsk(r, u, id)
    ensures id in TouchIds(r, u, CrossedIds(r, u)) <==> AtBid(r, u, id)
  {}

  // ----- Priority -----

  /** Above the ask, an order is filled only once every order with a higher price
      is complete, at equal prices every older one, and at equal times every one
      with a smaller id. */
  lemma CrossedFillInOrder(r: Resting, ratio: real, u: TopOfBookUpdate, first: nat, later: nat)
    requires WellFormed(r) && 0.0 <= ratio <= 1.0
    requires AboveAsk(r, u, first) && AboveAsk(r, u, later)
    requires var x, y := r[first].order, r[later].order;
             || x.price > y.price
             || (x.price == y.price && x.placedAtMs < y.placedAtMs)
             || (x.price == y.price && x.placedAtMs == y.placedAtMs && first < later)
    requires SizeFilled(AfterUpdate(r, ratio, u).fills, later) > 0
    ensures SizeFilled(AfterUpdate(r, ratio, u).fills, first) == r[first].remaining
    ensures first !in AfterUpdate(r, ratio, u).book
  {
    WhoIsMatched(r, u, first);
    WhoIsMatched(r, u, later);
    PriorityBeforeFill(r, ratio, u, first, later);
  }

  /** At the bid, an order is filled only once every older order, and at equal
      times every one with a smaller id, is complete or, if this was its first
      touch, has exactly one unit left. */
  lemma TouchesFillInOrder(r: Resting, ratio: real, u: TopOfBookUpdate, first: nat, later: nat)
    requires WellFormed(r) && 0.0 <= ratio <= 1.0
    requires AtBid(r, u, first) && AtBid(r, u, later)
    requires var x, y := r[first].order, r[later].order;
             x.placedAtMs < y.placedAtMs || (x.placedAtMs == y.placedAtMs && first < later)
    requires SizeFilled(AfterUpdate(r, ratio, u).fills, later) > 0
    ensures var m := AfterUpdate(r, ratio, u);
            if r[first].touchCount == 0
            then first in m.book && m.book[first].remaining == 1 && SizeFilled(m.fills, first) == r[first].remaining - 1
            else first !in m.book && SizeFilled(m.fills, first) == r[first].remaining
  {
    WhoIsMatched(r, u, first);
    WhoIsMatched(r, u, later);
    TouchLeavesOneUnit(r, ratio, u, first, later);
    UpdateAllots(r, ratio, u, first);
  }

  /** The fills of an update: first those of orders above the ask, then those of
      orders at the bid; each part from higher to lower limit price, at equal
      prices from older to newer, and at equal times from smaller to larger id. */
  lemma FillsListedInOrder(r: Resting, ratio: real, u: TopOfBookUpdate) returns (n: nat)
    requires WellFormed(r) && 0.0 <= ratio <= 1.0
    ensures var fills := AfterUpdate(r, ratio, u).fills;
            && n <= |fills|
            && (forall i :: 0 <= i < n ==> AboveAsk(r, u, fills[i].orderId))
            && (forall i :: n <= i < |fills| ==> AtBid(r, u, fills[i].orderId))
            && forall i, k :: 0 <= i < k < |fills| && (k < n || n <= i) ==>
                 var x, y := r[fills[i].orderId].order, r[fills[k].orderId].order;
                 && fills[i].price >= fills[k].price
                 && (fills[i].price == fills[k].price ==> x.placedAtMs <= y.placedAtMs)
                 && (fills[i].price == fills[k].price && x.placedAtMs == y.placedAtMs ==>
                       fills[i].orderId < fills[k].orderId)
  {
    var through, touch := UpdateExhausts(r, ratio, u);
    n := |through|;
    PartInOrder(r, ThroughQueue(r, u), u.atMs, through);
    PartInOrder(r, TouchQueue(r, u), u.atMs, touch);
    forall i | 0 <= i < |through| ensures AboveAsk(r, u, through[i].orderId) {
      assert ProperFill(r, ThroughQueue(r, u), u.atMs, through[i]);
      WhoIsMatched(r, u, through[i].orderId);
    }
    forall i | 0 <= i < |touch| ensures AtBid(r, u, touch[i].orderId) {
      assert ProperFill(r, TouchQueue(r, u), u.atMs, touch[i]);
      WhoIsMatched(r, u, touch[i].orderId);
    }
  }

  lemma PartInOrder(r: Resting, q: seq<nat>, atMs: int, fills: seq<PaperFill>)
    requires WellFormed(r) && ProperFills(r, q, atMs, fills) && FillsInPriorityOrder(r, fills)
    ensures forall i, k :: 0 <= i < k < |fills| ==>
              var x, y := r[fills[i].orderId].order, r[fills[k].orderId].order;
              && fills[i].price >= fills[k].price
              && (fills[i].price == fills[k].price ==> x.placedAtMs <= y.placedAtMs)
              && (fills[i].price == fills[k].price && x.placedAtMs == y.placedAtMs ==>
                    fills[i].orderId < fills[k].orderId)
  {
    forall i, k | 0 <= i < k < |fills|
      ensures var x, y := r[fills[i].orderId].order, r[fills[k].orderId].order;
              && fills[i].price >= fills[k].price
              && (fills[i].price == fills[k].price ==> x.placedAtMs <= y.placedAtMs)
              && (fills[i].price == fills[k].price && x.placedAtMs == y.placedAtMs ==>
                    fills[i].orderId < fills[k].orderId)
    {
      assert ProperFill(r, q, atMs, fills[i]) && ProperFill(r, q, atMs, fills[k]);
      assert Before(r[fills[i].orderId].order, r[fills[k].orderId].order);
    }
  }

  // ----- Sizes -----

  /** What one order can lose to touches in one update: its first touch leaves one
      unit behind. */
  function TouchLimit(ro: RestingOrder): nat {
    if ro.touchCount == 0 && ro.remaining > 0 then ro.remaining - 1 else ro.remaining
  }

  /** The fill list in its two parts. */
  ghost predicate Parts(r: Resting, ratio: real, u: TopOfBookUpdate, through: seq<PaperFill>, touch: seq<PaperFill>)
    requires WellFormed(r) && 0.0 <= ratio <= 1.0
  {
    && AfterUpdate(r, ratio, u).fills == through + touch
    && (forall f :: f in through ==> AboveAsk(r, u, f.orderId))
    && (forall f :: f in touch ==> AtBid(r, u, f.orderId))
  }

  /** Orders above the ask never get more than the ask size; while any of them has
      not been filled completely, they get exactly that. */
  lemma AskSizeExhausted(r: Resting, ratio: real, u: TopOfBookUpdate, id: nat)
      returns (through: seq<PaperFill>, touch: seq<PaperFill>)
    requires WellFormed(r) && 0.0 <= ratio <= 1.0
    ensures Parts(r, ratio, u, through, touch) && TotalSize(through) <= u.askSize
    ensures AboveAsk(r, u, id) && SizeFilled(AfterUpdate(r, ratio, u).fills, id) < r[id].remaining ==>
              TotalSize(through) == u.askSize
  {
    through, touch := UpdateExhausts(r, ratio, u);
    PartsLocated(r, u, through, touch);
    if AboveAsk(r, u, id) && TotalSize(through) < u.askSize {
      CrossedComplete(r, ratio, u, id);
    }
  }

  /** Orders at the bid never get more than the share of the arriving size, rounded
      down; while any of them has not had all it can take, they get exactly that. */
  lemma CapacityExhausted(r: Resting, ratio: real, u: TopOfBookUpdate, capacity: nat, id: nat)
      returns (through: seq<PaperFill>, touch: seq<PaperFill>)
    requires WellFormed(r) && 0.0 <= ratio <= 1.0
    requires capacity as real <= u.marketableSize as real * ratio < capacity as real + 1.0
    ensures Parts(r, ratio, u, through, touch) && TotalSize(touch) <= capacity
    ensures AtBid(r, u, id) && SizeFilled(AfterUpdate(r, ratio, u).fills, id) < TouchLimit(r[id]) ==>
              TotalSize(touch) == capacity
  {
    CapacityIsFloor(ratio, u.marketableSize, capacity);
    through, touch := TouchesExhausted(r, ratio, u, capacity, id);
  }

  lemma TouchesExhausted(r: Resting, ratio: real, u: TopOfBookUpdate, capacity: nat, id: nat)
      returns (through: seq<PaperFill>, touch: seq<PaperFill>)
    requires WellFormed(r) && 0.0 <= ratio <= 1.0 && capacity == TouchCapacity(ratio, u.marketableSize)
    ensures Parts(r, ratio, u, through, touch) && TotalSize(touch) <= capacity
    ensures AtBid(r, u, id) && SizeFilled(AfterUpdate(r, ratio, u).fills, id) < TouchLimit(r[id]) ==>
              TotalSize(touch) == capacity
  {
    through, touch := UpdateExhausts(r, ratio, u);
    PartsLocated(r, u, through, touch);
    if AtBid(r, u, id) && TotalSize(touch) < capacity {
      TouchesComplete(r, ratio, u, id);
    }
  }

  lemma PartsLocated(r: Resting, u: TopOfBookUpdate, through: seq<PaperFill>, touch: seq<PaperFill>)
    requires WellFormed(r)
    requires ProperFills(r, ThroughQueue(r, u), u.atMs, through) && ProperFills(r, TouchQueue(r, u), u.atMs, touch)
    ensures forall f :: f in through ==> AboveAsk(r, u, f.orderId)
    ensures forall f :: f in touch ==> AtBid(r, u, f.orderId)
  {
    forall f | f in through ensures AboveAsk(r, u, f.orderId) {
      InThrough(r, u, through, f);
    }
    forall f | f in touch ensures AtBid(r, u, f.orderId) {
      InTouch(r, u, touch, f);
    }
  }

  lemma CapacityIsFloor(ratio: real, marketable: nat, capacity: nat)
    requires 0.0 <= ratio <= 1.0
    requires capacity as real <= marketable as real * ratio < capacity as real + 1.0
    ensures capacity == TouchCapacity(ratio, marketable)
  {}

  lemma InThrough(r: Resting, u: TopOfBookUpdate, fills: seq<PaperFill>, f: PaperFill)
    requires WellFormed(r) && ProperFills(r, ThroughQueue(r, u), u.atMs, fills) && f in fills
    ensures AboveAsk(r, u, f.orderId)
  {
    var i :| 0 <= i < |fills| && fills[i] == f;
    assert ProperFill(r, ThroughQueue(r, u), u.atMs, fills[i]);
    WhoIsMatched(r, u, f.orderId);
  }

  lemma InTouch(r: Resting, u: TopOfBookUpdate, fills: seq<PaperFill>, f: PaperFill)
    requires WellFormed(r) && ProperFills(r, TouchQueue(r, u), u.atMs, fills) && f in fills
    ensures AtBid(r, u, f.orderId)
  {
    var i :| 0 <= i < |fills| && fills[i] == f;
    assert ProperFill(r, TouchQueue(r, u), u.atMs, fills[i]);
    WhoIsMatched(r, u, f.orderId);
  }

  lemma CrossedComplete(r: Resting, ratio: real, u: TopOfBookUpdate, id: nat)
    requires WellFormed(r) && 0.0 <= ratio <= 1.0 && AboveAsk(r, u, id)
    requires QueueDemand(r, ThroughQueue(r, u), TradeThrough) < u.askSize
    ensures SizeFilled(AfterUpdate(r, ratio, u).fills, id) == r[id].remaining
  {
    WhoIsMatched(r, u, id);
    UpdateAllots(r, ratio, u, id);
    AheadWithin(r, ThroughQueue(r, u), id, TradeThrough);
  }

  lemma TouchesComplete(r: Resting, ratio: real, u: TopOfBookUpdate, id: nat)
    requires WellFormed(r) && 0.0 <= ratio <= 1.0 && AtBid(r, u, id)
    requires QueueDemand(r, TouchQueue(r, u), Touch) < TouchCapacity(ratio, u.marketableSize)
    ensures SizeFilled(AfterUpdate(r, ratio, u).fills, id) == TouchLimit(r[id])
  {
    WhoIsMatched(r, u, id);
    UpdateAllots(r, ratio, u, id);
    AheadWithin(r, TouchQueue(r, u), id, Touch);
  }

  /** An order and the demand in front of it are part of the queue's demand. */
  lemma {:induction false} AheadWithin(r: Resting, q: seq<nat>, id: nat, cause: FillCause)
    requires (forall x :: x in q ==> x in r) && id in q
    ensures DemandAhead(r, q, id, cause) + Demand(r[id], cause) <= QueueDemand(r, q, cause)
  {
    if q[0] != id {
      AheadWithin(r, q[1..], id, cause);
    }
  }

  /** One order through one update: it loses exactly what it is filled, keeps its
      terms, and leaves the book exactly when nothing remains. Only orders above
      the ask or at the bid are filled, and only the latter count touches. */
  lemma OrderAccounted(r: Resting, ratio: real, u: TopOfBookUpdate, id: nat)
    requires WellFormed(r) && 0.0 <= ratio <= 1.0 && id in r
    ensures var m := AfterUpdate(r, ratio, u);
            var filled := SizeFilled(m.fills, id);
            && filled <= r[id].remaining
            && (filled > 0 ==> AboveAsk(r, u, id) || AtBid(r, u, id))
            && (AtBid(r, u, id) ==> filled <= TouchLimit(r[id]))
            && (id in m.book <==> filled < r[id].remaining)
            && (id in m.book ==>
                  && m.book[id].order == r[id].order
                  && m.book[id].remaining == r[id].remaining - filled
                  && (!AtBid(r, u, id) ==> m.book[id].touchCount == r[id].touchCount)
                  && (filled > 0 && AtBid(r, u, id) && r[id].touchCount < U64_MAX ==>
                        m.book[id].touchCount == r[id].touchCount + 1))
  {
    WhoIsMatched(r, u, id);
    UpdateAllots(r, ratio, u, id);
  }
}

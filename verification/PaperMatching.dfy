// What one update of the paper matcher does to every resting order.
module PaperMatching {
  import opened Domain
  import opened PaperBook

  function SizeFilled(fills: seq<PaperFill>, id: nat): nat {
    if fills == [] then 0
    else SizeFilled(fills[..|fills| - 1], id) + if fills[|fills| - 1].orderId == id then fills[|fills| - 1].size else 0
  }

  function TotalSize(fills: seq<PaperFill>): nat {
    if fills == [] then 0 else TotalSize(fills[..|fills| - 1]) + fills[|fills| - 1].size
  }

  // ----- Fills of one queue -----

  ghost predicate ProperFill(r: Resting, q: seq<nat>, atMs: int, f: PaperFill) {
    && f.orderId in q && f.orderId in r
    && f.price == r[f.orderId].order.price
    && f.size >= 1 && f.filledAtMs == atMs && f.maker
  }

  /** Every fill is for a queued order, at its limit price, of at least one unit. */
  ghost predicate ProperFills(r: Resting, q: seq<nat>, atMs: int, fills: seq<PaperFill>) {
    forall k :: 0 <= k < |fills| ==> ProperFill(r, q, atMs, fills[k])
  }

  /** Fills come in strict priority order, so no order fills twice. */
  ghost predicate FillsInPriorityOrder(r: Resting, fills: seq<PaperFill>) {
    && (forall k :: 0 <= k < |fills| ==> fills[k].orderId in r)
    && forall a, b :: 0 <= a < b < |fills| ==>
         Before(r[fills[a].orderId].order, r[fills[b].orderId].order)
  }

  lemma {:induction false} FillsProper(r: Resting, q: seq<nat>, k: nat, size: nat, atMs: int, cause: FillCause)
    requires InPriorityOrder(r, q) && k <= |q|
    ensures ProperFills(r, q[..k], atMs, FillsUpTo(r, q, k, size, atMs, cause))
    ensures FillsInPriorityOrder(r, FillsUpTo(r, q, k, size, atMs, cause))
  {
    if k > 0 {
      FillsProper(r, q, k - 1, size, atMs, cause);
      var earlier := FillsUpTo(r, q, k - 1, size, atMs, cause);
      forall a | 0 <= a < |earlier|
        ensures ProperFill(r, q[..k], atMs, earlier[a]) && Before(r[earlier[a].orderId].order, r[q[k - 1]].order)
      {
        assert ProperFill(r, q[..k - 1], atMs, earlier[a]);
        var j :| 0 <= j < k - 1 && q[..k - 1][j] == earlier[a].orderId;
        assert q[j] == earlier[a].orderId && q[..k][j] == q[j];
      }
      assert q[..k][k - 1] == q[k - 1];
    }
  }

  /** An order's fills in a queue add up to what the waterfall gave it. */
  lemma {:induction false} FilledIsGot(r: Resting, q: seq<nat>, k: nat, size: nat, atMs: int, cause: FillCause, id: nat)
    requires InPriorityOrder(r, q) && k <= |q|
    ensures SizeFilled(FillsUpTo(r, q, k, size, atMs, cause), id)
         == if id in q[..k] then Got(r, q, size, cause, id) else 0
  {
    if k > 0 {
      var j := k - 1;
      FilledIsGot(r, q, j, size, atMs, cause, id);
      QueueDistinct(r, q, j);
      InSnoc(q[..j], q[j], id);
      NextFill(r, q, j, size, atMs, cause);
      FillAdds(r, FillsUpTo(r, q, j, size, atMs, cause), q[j], Got(r, q, size, cause, q[j]), atMs, id);
    }
  }

  lemma NextFill(r: Resting, q: seq<nat>, j: nat, size: nat, atMs: int, cause: FillCause)
    requires InPriorityOrder(r, q) && j < |q|
    ensures FillsUpTo(r, q, j + 1, size, atMs, cause)
         == FillsUpTo(r, q, j, size, atMs, cause) + OneFill(r, q[j], Got(r, q, size, cause, q[j]), atMs)
  {}

  lemma InSnoc(s: seq<nat>, x: nat, y: nat)
    ensures y in s + [x] <==> y in s || y == x
  {}

  lemma FillAdds(r: Resting, fills: seq<PaperFill>, filled: nat, got: nat, atMs: int, id: nat)
    requires filled in r
    ensures SizeFilled(fills + OneFill(r, filled, got, atMs), id)
            == SizeFilled(fills, id) + if filled == id then got else 0
    ensures TotalSize(fills + OneFill(r, filled, got, atMs)) == TotalSize(fills) + got
  {
    var longer := fills + OneFill(r, filled, got, atMs);
    if got == 0 {
      assert longer == fills;
    } else {
      assert longer[..|longer| - 1] == fills;
    }
  }

  lemma TotalGrows(r: Resting, q: seq<nat>, j: nat, size: nat, atMs: int, cause: FillCause)
    requires InPriorityOrder(r, q) && j < |q|
    ensures TotalSize(FillsUpTo(r, q, j + 1, size, atMs, cause))
         == TotalSize(FillsUpTo(r, q, j, size, atMs, cause))
             + Share(size, QueueDemand(r, q[..j], cause), Demand(r[q[j]], cause))
  {
    AheadAt(r, q, j, cause);
    NextFill(r, q, j, size, atMs, cause);
    FillAdds(r, FillsUpTo(r, q, j, size, atMs, cause), q[j], Got(r, q, size, cause, q[j]), atMs, 0);
  }

  lemma ShareAfter(size: nat, ahead: nat, demand: nat)
    ensures Min(size, ahead) + Share(size, ahead, demand) == Min(size, ahead + demand)
  {}

  /** A queue takes all that it is offered, or all that it demands. */
  lemma {:induction false} Exhaustion(r: Resting, q: seq<nat>, k: nat, size: nat, atMs: int, cause: FillCause)
    requires InPriorityOrder(r, q) && k <= |q|
    ensures TotalSize(FillsUpTo(r, q, k, size, atMs, cause)) == Min(size, QueueDemand(r, q[..k], cause))
  {
    if k > 0 {
      Exhaustion(r, q, k - 1, size, atMs, cause);
      NextExhausts(r, q, k - 1, size, atMs, cause, QueueDemand(r, q[..k - 1], cause));
    }
  }

  lemma NextExhausts(r: Resting, q: seq<nat>, j: nat, size: nat, atMs: int, cause: FillCause, ahead: nat)
    requires InPriorityOrder(r, q) && j < |q| && ahead == QueueDemand(r, q[..j], cause)
    requires TotalSize(FillsUpTo(r, q, j, size, atMs, cause)) == Min(size, ahead)
    ensures TotalSize(FillsUpTo(r, q, j + 1, size, atMs, cause)) == Min(size, QueueDemand(r, q[..j + 1], cause))
  {
    TotalGrows(r, q, j, size, atMs, cause);
    DemandSnoc(r, q, j, cause);
    ShareAfter(size, ahead, Demand(r[q[j]], cause));
  }

  lemma {:induction false} DemandFrame(r: Resting, r': Resting, q: seq<nat>, id: nat, cause: FillCause)
    requires forall x :: x in q ==> x in r && x in r' && r[x] == r'[x]
    ensures DemandAhead(r, q, id, cause) == DemandAhead(r', q, id, cause)
    ensures QueueDemand(r, q, cause) == QueueDemand(r', q, cause)
  {
    if q != [] {
      DemandFrame(r, r', q[1..], id, cause);
    }
  }

  /** An order waits behind the demand of every order with priority over it. */
  lemma AheadOfLater(r: Resting, q: seq<nat>, first: nat, later: nat, cause: FillCause)
    requires InPriorityOrder(r, q) && first in q && later in q && Before(r[first].order, r[later].order)
    ensures DemandAhead(r, q, later, cause) >= DemandAhead(r, q, first, cause) + Demand(r[first], cause)
  {
    var i :| 0 <= i < |q| && q[i] == first;
    var j :| 0 <= j < |q| && q[j] == later;
    AheadAt(r, q, i, cause);
    AheadAt(r, q, j, cause);
    DemandSnoc(r, q, i, cause);
    DemandGrows(r, q, i + 1, j, cause);
  }

  lemma {:induction false} DemandGrows(r: Resting, q: seq<nat>, i: nat, j: nat, cause: FillCause)
    requires i <= j <= |q| && forall id :: id in q ==> id in r
    ensures QueueDemand(r, q[..i], cause) <= QueueDemand(r, q[..j], cause)
  {
    if i < j {
      DemandSnoc(r, q, j - 1, cause);
      DemandGrows(r, q, i, j - 1, cause);
    }
  }

  // ----- One whole update -----

  ghost function ThroughQueue(r: Resting, u: TopOfBookUpdate): seq<nat>
    requires WellFormed(r)
  {
    Queue(r, CrossedIds(r, u))
  }

  ghost function TouchQueue(r: Resting, u: TopOfBookUpdate): seq<nat>
    requires WellFormed(r)
  {
    Queue(r, TouchIds(r, u, CrossedIds(r, u)))
  }

  /** The size one update gives to a resting order, read off the book before the
      update. */
  ghost function Allotment(r: Resting, ratio: real, u: TopOfBookUpdate, id: nat): nat
    requires WellFormed(r) && 0.0 <= ratio <= 1.0 && id in r
  {
    if id in CrossedIds(r, u) then
      Share(u.askSize, DemandAhead(r, ThroughQueue(r, u), id, TradeThrough), r[id].remaining)
    else if u.bestBid == Some(r[id].order.price) then
      Share(TouchCapacity(ratio, u.marketableSize), DemandAhead(r, TouchQueue(r, u), id, Touch), Demand(r[id], Touch))
    else 0
  }

  /** Whether the touch queue reaches the order before its capacity runs out. */
  ghost predicate Touched(r: Resting, ratio: real, u: TopOfBookUpdate, id: nat)
    requires WellFormed(r) && 0.0 <= ratio <= 1.0 && id in r
  {
    && id !in CrossedIds(r, u)
    && u.bestBid == Some(r[id].order.price)
    && DemandAhead(r, TouchQueue(r, u), id, Touch) < TouchCapacity(ratio, u.marketableSize)
  }

  /** The two phases act on disjoint orders: the touch phase sees its orders as
      they were before the update. */
  lemma TwoPhases(r: Resting, ratio: real, u: TopOfBookUpdate) returns (through: Matched, touch: Matched)
    requires WellFormed(r) && 0.0 <= ratio <= 1.0
    ensures through == MatchQueue(r, ThroughQueue(r, u), u.askSize, u.atMs, TradeThrough)
    ensures WellFormed(through.book) && InPriorityOrder(through.book, TouchQueue(r, u))
    ensures forall id :: id in TouchQueue(r, u) ==> id in through.book && through.book[id] == r[id]
    ensures touch == MatchQueue(through.book, TouchQueue(r, u), TouchCapacity(ratio, u.marketableSize), u.atMs, Touch)
    ensures AfterUpdate(r, ratio, u) == Matched(touch.book, through.fills + touch.fills)
  {
    var crossed, capacity := CrossedIds(r, u), TouchCapacity(ratio, u.marketableSize);
    through := MatchQueue(r, ThroughQueue(r, u), u.askSize, u.atMs, TradeThrough);
    MatchKeepsWellFormed(r, ThroughQueue(r, u), u.askSize, TradeThrough);
    var touching := TouchIds(r, u, crossed);
    forall id | id in r && id !in crossed ensures id in through.book && through.book[id] == r[id] {
      assert id !in ThroughQueue(r, u);
    }
    assert TouchIds(through.book, u, crossed) == touching;
    forall id | id in TouchQueue(r, u) ensures id in through.book && through.book[id] == r[id] {
      assert id in touching;
    }
    assert IsQueue(through.book, touching, TouchQueue(r, u));
    QueueUnique(through.book, touching, TouchQueue(r, u), Queue(through.book, touching));
    touch := MatchQueue(through.book, TouchQueue(r, u), capacity, u.atMs, Touch);
    if capacity == 0 {
      NothingOffered(through.book, TouchQueue(r, u), u.atMs, Touch);
    }
  }

  lemma NothingOffered(r: Resting, q: seq<nat>, atMs: int, cause: FillCause)
    requires WellFormed(r) && InPriorityOrder(r, q)
    ensures MatchQueue(r, q, 0, atMs, cause) == Matched(r, [])
  {
    BookStops(r, q, 0, 0, atMs, cause);
    assert BookAfter(r, q[..0], 0, cause) == r;
  }

  lemma {:induction false} SizeFilledAppend(a: seq<PaperFill>, b: seq<PaperFill>, id: nat)
    ensures SizeFilled(a + b, id) == SizeFilled(a, id) + SizeFilled(b, id)
  {
    if b == [] {
      assert a + b == a;
    } else {
      assert (a + b)[..|a + b| - 1] == a + b[..|b| - 1];
      SizeFilledAppend(a, b[..|b| - 1], id);
    }
  }

  /** `m` gives the order `got` units and holds what is left of it. */
  ghost predicate Gives(r: Resting, m: Matched, id: nat, got: nat, touched: bool)
    requires id in r
  {
    && got <= r[id].remaining
    && SizeFilled(m.fills, id) == got
    && (id in m.book <==> got < r[id].remaining)
    && (id in m.book ==> m.book[id] == AfterTaking(r[id], got, touched))
  }

  lemma QueueGives(r: Resting, q: seq<nat>, size: nat, atMs: int, cause: FillCause, id: nat)
    requires WellFormed(r) && InPriorityOrder(r, q) && id in q
    ensures Gives(r, MatchQueue(r, q, size, atMs, cause), id, Got(r, q, size, cause, id),
                  cause.Touch? && DemandAhead(r, q, id, cause) < size)
  {
    FilledIsGot(r, q, |q|, size, atMs, cause, id);
    assert q[..|q|] == q;
  }

  lemma QueuePasses(r: Resting, q: seq<nat>, size: nat, atMs: int, cause: FillCause, id: nat)
    requires InPriorityOrder(r, q) && id !in q
    ensures var m := MatchQueue(r, q, size, atMs, cause);
            && SizeFilled(m.fills, id) == 0
            && (id in m.book <==> id in r) && (id in r ==> m.book[id] == r[id])
  {
    FilledIsGot(r, q, |q|, size, atMs, cause, id);
    assert q[..|q|] == q;
  }

  /** Main result for one update: every order gets exactly its allotment, and
      stays in the book with the rest of its size unless that was everything. */
  lemma UpdateAllots(r: Resting, ratio: real, u: TopOfBookUpdate, id: nat)
    requires WellFormed(r) && 0.0 <= ratio <= 1.0 && id in r
    ensures Gives(r, AfterUpdate(r, ratio, u), id, Allotment(r, ratio, u, id), Touched(r, ratio, u, id))
  {
    var through, touch := TwoPhases(r, ratio, u);
    var capacity := TouchCapacity(ratio, u.marketableSize);
    var q, q' := ThroughQueue(r, u), TouchQueue(r, u);
    SizeFilledAppend(through.fills, touch.fills, id);
    if id in CrossedIds(r, u) {
      assert id in q && id !in q';
      QueueGives(r, q, u.askSize, u.atMs, TradeThrough, id);
      QueuePasses(through.book, q', capacity, u.atMs, Touch, id);
    } else {
      assert id !in q;
      QueuePasses(r, q, u.askSize, u.atMs, TradeThrough, id);
      if id in TouchIds(r, u, CrossedIds(r, u)) {
        assert id in q';
        QueueGives(through.book, q', capacity, u.atMs, Touch, id);
        DemandFrame(r, through.book, q', id, Touch);
      } else {
        QueuePasses(through.book, q', capacity, u.atMs, Touch, id);
      }
    }
  }

  /** Main result for one update: its fills are the trade-through fills followed
      by the touch fills. The first kind consumes all of the ask size that
      crossed orders can take, the second all of the capacity that touched
      orders can take. */
  lemma UpdateExhausts(r: Resting, ratio: real, u: TopOfBookUpdate)
      returns (through: seq<PaperFill>, touch: seq<PaperFill>)
    requires WellFormed(r) && 0.0 <= ratio <= 1.0
    ensures AfterUpdate(r, ratio, u).fills == through + touch
    ensures ProperFills(r, ThroughQueue(r, u), u.atMs, through) && FillsInPriorityOrder(r, through)
    ensures ProperFills(r, TouchQueue(r, u), u.atMs, touch) && FillsInPriorityOrder(r, touch)
    ensures TotalSize(through) == Min(u.askSize, QueueDemand(r, ThroughQueue(r, u), TradeThrough))
    ensures TotalSize(touch) == Min(TouchCapacity(ratio, u.marketableSize), QueueDemand(r, TouchQueue(r, u), Touch))
  {
    var first, second := TwoPhases(r, ratio, u);
    through, touch := first.fills, second.fills;
    QueueFillsAll(r, ThroughQueue(r, u), u.askSize, u.atMs, TradeThrough);
    QueueFillsAll(first.book, TouchQueue(r, u), TouchCapacity(ratio, u.marketableSize), u.atMs, Touch);
    DemandFrame(r, first.book, TouchQueue(r, u), 0, Touch);
    FillsFrame(r, first.book, TouchQueue(r, u), u.atMs, touch);
  }

  lemma QueueFillsAll(r: Resting, q: seq<nat>, size: nat, atMs: int, cause: FillCause)
    requires InPriorityOrder(r, q)
    ensures var fills := MatchQueue(r, q, size, atMs, cause).fills;
            && ProperFills(r, q, atMs, fills) && FillsInPriorityOrder(r, fills)
            && TotalSize(fills) == Min(size, QueueDemand(r, q, cause))
  {
    assert q[..|q|] == q;
    FillsProper(r, q, |q|, size, atMs, cause);
    Exhaustion(r, q, |q|, size, atMs, cause);
  }

  lemma FillsFrame(r: Resting, r': Resting, q: seq<nat>, atMs: int, fills: seq<PaperFill>)
    requires forall x :: x in q ==> x in r && x in r' && r[x] == r'[x]
    requires ProperFills(r', q, atMs, fills) && FillsInPriorityOrder(r', fills)
    ensures ProperFills(r, q, atMs, fills) && FillsInPriorityOrder(r, fills)
  {
    forall k | 0 <= k < |fills| ensures ProperFill(r, q, atMs, fills[k]) {
      assert ProperFill(r', q, atMs, fills[k]);
    }
  }

  /** Every fill is for an order of the book, at its limit, of at least one unit. */
  lemma UpdateFillsAtLimit(r: Resting, ratio: real, u: TopOfBookUpdate)
    requires WellFormed(r) && 0.0 <= ratio <= 1.0
    ensures forall f :: f in AfterUpdate(r, ratio, u).fills ==>
              f.size >= 1 && f.orderId in r && f.price == r[f.orderId].order.price && f.filledAtMs == u.atMs && f.maker
  {
    var through, touch := UpdateExhausts(r, ratio, u);
    forall f: PaperFill | f in through + touch
      ensures f.size >= 1 && f.orderId in r && f.price == r[f.orderId].order.price && f.filledAtMs == u.atMs && f.maker
    {
      if f in through {
        assert ProperFill(r, ThroughQueue(r, u), u.atMs, f);
      } else {
        assert ProperFill(r, TouchQueue(r, u), u.atMs, f);
      }
    }
  }

  /** No order fills twice in one update. */
  lemma NoDoubleFill(r: Resting, ratio: real, u: TopOfBookUpdate, a: nat, b: nat)
    requires WellFormed(r) && 0.0 <= ratio <= 1.0
    requires a < b < |AfterUpdate(r, ratio, u).fills|
    ensures AfterUpdate(r, ratio, u).fills[a].orderId != AfterUpdate(r, ratio, u).fills[b].orderId
  {
    var through, touch := UpdateExhausts(r, ratio, u);
    if b < |through| {
      assert Before(r[through[a].orderId].order, r[through[b].orderId].order);
    } else if a >= |through| {
      assert Before(r[touch[a - |through|].orderId].order, r[touch[b - |through|].orderId].order);
    } else {
      assert ProperFill(r, ThroughQueue(r, u), u.atMs, through[a]);
      assert ProperFill(r, TouchQueue(r, u), u.atMs, touch[b - |through|]);
      assert through[a].orderId in CrossedIds(r, u);
      assert touch[b - |through|].orderId in TouchIds(r, u, CrossedIds(r, u));
    }
  }

  /** Price-time priority: a crossed order fills only once every crossed order
      of higher priority has filled completely and left the book. */
  lemma PriorityBeforeFill(r: Resting, ratio: real, u: TopOfBookUpdate, first: nat, later: nat)
    requires WellFormed(r) && 0.0 <= ratio <= 1.0
    requires first in CrossedIds(r, u) && later in CrossedIds(r, u)
    requires Before(r[first].order, r[later].order)
    requires SizeFilled(AfterUpdate(r, ratio, u).fills, later) > 0
    ensures SizeFilled(AfterUpdate(r, ratio, u).fills, first) == r[first].remaining
    ensures first !in AfterUpdate(r, ratio, u).book
  {
    var q := ThroughQueue(r, u);
    UpdateAllots(r, ratio, u, first);
    UpdateAllots(r, ratio, u, later);
    AheadOfLater(r, q, first, later, TradeThrough);
  }

  /** The touch queue: a first touch never completes an order, and when a later
      order fills, each earlier one was touched and is complete, or was touched
      for the first time and has exactly one unit left. */
  lemma TouchLeavesOneUnit(r: Resting, ratio: real, u: TopOfBookUpdate, first: nat, later: nat)
    requires WellFormed(r) && 0.0 <= ratio <= 1.0
    requires var touching := TouchIds(r, u, CrossedIds(r, u)); first in touching && later in touching
    requires Before(r[first].order, r[later].order)
    requires SizeFilled(AfterUpdate(r, ratio, u).fills, later) > 0
    ensures var m := AfterUpdate(r, ratio, u);
            if r[first].touchCount == 0
            then first in m.book && m.book[first].remaining == 1 && m.book[first].touchCount == 1
            else first !in m.book
  {
    var q := TouchQueue(r, u);
    UpdateAllots(r, ratio, u, first);
    UpdateAllots(r, ratio, u, later);
    AheadOfLater(r, q, first, later, Touch);
  }

  lemma FirstTouchNeverCompletes(r: Resting, ratio: real, u: TopOfBookUpdate, id: nat)
    requires WellFormed(r) && 0.0 <= ratio <= 1.0
    requires id in r && id !in CrossedIds(r, u) && r[id].touchCount == 0
    ensures id in AfterUpdate(r, ratio, u).book
    ensures AfterUpdate(r, ratio, u).book[id].touchCount == if Touched(r, ratio, u, id) then 1 else 0
  {
    UpdateAllots(r, ratio, u, id);
  }
}

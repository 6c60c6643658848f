// The paper matcher for resting maker orders (src/execution/paper.rs).
//
// The class below updates a book of resting orders in place, as the program
// does. Its methods are proved against the functions of this module, which act
// on book values; the theorems about matching are in PaperMatching and
// PaperLedger.
module PaperBook {
  import opened Domain

  datatype PaperOrder = PaperOrder(id: nat, side: TradeSide, price: nat, size: nat, placedAtMs: int)

  datatype RestingOrder = RestingOrder(order: PaperOrder, remaining: nat, touchCount: nat)

  datatype PaperFill = PaperFill(orderId: nat, price: nat, size: nat, filledAtMs: int, maker: bool)

  datatype TopOfBookUpdate = TopOfBookUpdate(
    atMs: int,
    bestBid: Option<nat>,
    bidSize: nat,
    bestAsk: Option<nat>,
    askSize: nat,
    marketableSize: nat)

  datatype PaperError = InvalidFillRatio | InvalidSide | InvalidSize | ZeroPrice | DuplicateOrderId(id: nat)

  datatype FillCause = TradeThrough | Touch

  type Resting = map<nat, RestingOrder>

  datatype Matched = Matched(book: Resting, fills: seq<PaperFill>)

  /** `PaperOrder::validate`: the first failing check is the one reported. */
  function Validate(order: PaperOrder): Option<PaperError> {
    if order.side != Buy then Some(InvalidSide)
    else if order.size == 0 then Some(InvalidSize)
    else if order.price == 0 then Some(ZeroPrice)
    else None
  }

  /** What every reachable book satisfies: orders sit under their own id, are
      valid, and have between one and `size` units left. */
  ghost predicate WellFormed(r: Resting) {
    forall id :: id in r ==>
      && r[id].order.id == id
      && Validate(r[id].order) == None
      && 1 <= r[id].remaining <= r[id].order.size
  }

  // ----- Priority -----

  /** The comparator of `ordered_ids`: price descending, then placement time,
      then id. */
  predicate Before(x: PaperOrder, y: PaperOrder) {
    || x.price > y.price
    || (x.price == y.price && x.placedAtMs < y.placedAtMs)
    || (x.price == y.price && x.placedAtMs == y.placedAtMs && x.id < y.id)
  }

  ghost predicate InPriorityOrder(r: Resting, q: seq<nat>) {
    && (forall i :: 0 <= i < |q| ==> q[i] in r)
    && forall i, j :: 0 <= i < j < |q| ==> Before(r[q[i]].order, r[q[j]].order)
  }

  /** `q` lists exactly the ids of `s`, best priority first. */
  ghost predicate IsQueue(r: Resting, s: set<nat>, q: seq<nat>) {
    && InPriorityOrder(r, q)
    && forall id :: id in s <==> id in q
  }

  lemma {:induction false} QueueUnique(r: Resting, s: set<nat>, q: seq<nat>, q': seq<nat>)
    requires IsQueue(r, s, q) && IsQueue(r, s, q')
    ensures q == q'
    decreases |q|
  {
    QueueEmpty(r, s, q);
    QueueEmpty(r, s, q');
    if q != [] {
      assert q[0] in s && q[0] in q';
      assert q'[0] in s && q'[0] in q;
      assert q[0] == q'[0];
      QueueTail(r, s, q);
      QueueTail(r, s, q');
      QueueUnique(r, s - {q[0]}, q[1..], q'[1..]);
      assert q == [q[0]] + q[1..] && q' == [q'[0]] + q'[1..];
    }
  }

  lemma QueueEmpty(r: Resting, s: set<nat>, q: seq<nat>)
    requires IsQueue(r, s, q)
    ensures q == [] <==> s == {}
  {
    if q != [] {
      assert q[0] in s;
    }
  }

  lemma QueueTail(r: Resting, s: set<nat>, q: seq<nat>)
    requires IsQueue(r, s, q) && q != []
    ensures IsQueue(r, s - {q[0]}, q[1..])
  {
    forall id ensures id in s - {q[0]} <==> id in q[1..] {
      if id in q[1..] {
        var k :| 0 <= k < |q[1..]| && q[1..][k] == id;
        assert q[k + 1] == id && Before(r[q[0]].order, r[q[k + 1]].order);
      }
    }
  }

  /** Inserts an id at its place in a queue; one step of the library sort. */
  function Insert(r: Resting, q: seq<nat>, id: nat): (out: seq<nat>)
    requires id in r && forall i :: 0 <= i < |q| ==> q[i] in r
  {
    if q == [] then [id]
    else if Before(r[id].order, r[q[0]].order) then [id] + q
    else [q[0]] + Insert(r, q[1..], id)
  }

  lemma {:induction false} InsertKeepsQueue(r: Resting, s: set<nat>, q: seq<nat>, id: nat)
    requires IsQueue(r, s, q) && id in r && id !in s
    requires WellFormed(r)
    ensures IsQueue(r, s + {id}, Insert(r, q, id))
    decreases |q|
  {
    if q == [] {
    } else if Before(r[id].order, r[q[0]].order) {
    } else {
      QueueTail(r, s, q);
      var tail := Insert(r, q[1..], id);
      InsertKeepsQueue(r, s - {q[0]}, q[1..], id);
      assert q[0] in s && q[0] != id;
      forall k | 0 <= k < |tail| ensures tail[k] in r && Before(r[q[0]].order, r[tail[k]].order) {
        assert tail[k] in s - {q[0]} + {id};
        if tail[k] != id {
          assert tail[k] in q[1..];
        }
      }
      forall x ensures x in s + {id} <==> x in [q[0]] + tail {
        assert x in tail <==> x in s - {q[0]} + {id};
      }
    }
  }

  lemma {:induction false} QueueExists(r: Resting, s: set<nat>)
    requires WellFormed(r) && s <= r.Keys
    ensures exists q :: IsQueue(r, s, q)
  {
    if s == {} {
      assert IsQueue(r, s, []);
    } else {
      var id :| id in s;
      QueueExists(r, s - {id});
      var rest :| IsQueue(r, s - {id}, rest);
      InsertKeepsQueue(r, s - {id}, rest, id);
      assert s - {id} + {id} == s;
    }
  }

  /** The ids of `s` in the order the matcher visits them. */
  ghost function Queue(r: Resting, s: set<nat>): (q: seq<nat>)
    requires WellFormed(r) && s <= r.Keys
    ensures IsQueue(r, s, q)
  {
    QueueExists(r, s);
    var q :| IsQueue(r, s, q);
    q
  }

  // ----- Matching -----

  /** Ids priced strictly above the best ask. */
  function CrossedIds(r: Resting, u: TopOfBookUpdate): set<nat> {
    set id | id in r && u.bestAsk.Some? && u.bestAsk.value < r[id].order.price
  }

  /** Ids at the best bid, except those already offered the trade-through size. */
  function TouchIds(r: Resting, u: TopOfBookUpdate, crossed: set<nat>): set<nat> {
    set id | id in r && u.bestBid == Some(r[id].order.price) && id !in crossed
  }

  /** `touch_capacity`: the participating share of arriving size, floored. */
  function TouchCapacity(ratio: real, marketable: nat): nat
    requires 0.0 <= ratio <= 1.0
  {
    assert marketable as real * ratio >= 0.0;
    (marketable as real * ratio).Floor
  }

  // The matching loops hand a size down a queue. Read declaratively that is a
  // waterfall: each order takes its share of what the demand in front of it
  // leaves over.

  /** What an order can take at most. A first touch leaves one unit behind. */
  function Demand(ro: RestingOrder, cause: FillCause): nat {
    if cause.Touch? && ro.touchCount == 0 then SatSub(ro.remaining, 1) else ro.remaining
  }

  /** Total demand of a queue. */
  function QueueDemand(r: Resting, q: seq<nat>, cause: FillCause): nat
    requires forall id :: id in q ==> id in r
  {
    if q == [] then 0 else Demand(r[q[0]], cause) + QueueDemand(r, q[1..], cause)
  }

  /** Demand of the orders queued in front of `id`. */
  function DemandAhead(r: Resting, q: seq<nat>, id: nat, cause: FillCause): nat
    requires forall id :: id in q ==> id in r
  {
    if q == [] || q[0] == id then 0 else Demand(r[q[0]], cause) + DemandAhead(r, q[1..], id, cause)
  }

  /** What is left of `size` for an order behind `ahead` units of demand. */
  function Share(size: nat, ahead: nat, demand: nat): nat {
    Min(demand, SatSub(size, ahead))
  }

  function Got(r: Resting, q: seq<nat>, size: nat, cause: FillCause, id: nat): (got: nat)
    requires id in r && forall id :: id in q ==> id in r
    ensures got <= r[id].remaining
  {
    Share(size, DemandAhead(r, q, id, cause), Demand(r[id], cause))
  }

  /** The order after it has taken `got` units. */
  function AfterTaking(ro: RestingOrder, got: nat, touched: bool): RestingOrder
    requires got <= ro.remaining
  {
    RestingOrder(ro.order, ro.remaining - got, if touched then SatIncrement(ro.touchCount) else ro.touchCount)
  }

  /** The queued order `id` after the waterfall, or None once it is complete. */
  function OrderAfter(r: Resting, q: seq<nat>, size: nat, cause: FillCause, id: nat): Option<RestingOrder>
    requires id in r && forall id :: id in q ==> id in r
  {
    var got := Got(r, q, size, cause, id);
    if got == r[id].remaining then None
    else Some(AfterTaking(r[id], got, cause.Touch? && DemandAhead(r, q, id, cause) < size))
  }

  /** The book after a queue has been offered `size` units. */
  function BookAfter(r: Resting, q: seq<nat>, size: nat, cause: FillCause): Resting
    requires forall id :: id in q ==> id in r
  {
    map id | id in r && (id in q ==> OrderAfter(r, q, size, cause, id).Some?) ::
      if id in q then OrderAfter(r, q, size, cause, id).value else r[id]
  }

  /** The fills of the first `k` orders of a queue, best priority first. */
  function FillsUpTo(r: Resting, q: seq<nat>, k: nat, size: nat, atMs: int, cause: FillCause): seq<PaperFill>
    requires k <= |q| && forall id :: id in q ==> id in r
  {
    if k == 0 then []
    else
      var id := q[k - 1];
      FillsUpTo(r, q, k - 1, size, atMs, cause) + OneFill(r, id, Got(r, q, size, cause, id), atMs)
  }

  /** The fill of one order that gets `got` units, if it gets any. */
  function OneFill(r: Resting, id: nat, got: nat, atMs: int): seq<PaperFill>
    requires id in r
  {
    if got == 0 then [] else [PaperFill(id, r[id].order.price, got, atMs, true)]
  }

  /** The book once an order has taken `got` units. */
  function AfterOne(r: Resting, id: nat, got: nat, cause: FillCause): Resting
    requires id in r && got <= r[id].remaining
  {
    if got == r[id].remaining then r - {id} else r[id := AfterTaking(r[id], got, cause.Touch?)]
  }

  function MatchQueue(r: Resting, q: seq<nat>, size: nat, atMs: int, cause: FillCause): Matched
    requires forall id :: id in q ==> id in r
  {
    Matched(BookAfter(r, q, size, cause), FillsUpTo(r, q, |q|, size, atMs, cause))
  }

  /** Matching keeps a book well formed, since a queued order left with nothing
      leaves the book. */
  lemma MatchKeepsWellFormed(r: Resting, q: seq<nat>, size: nat, cause: FillCause)
    requires WellFormed(r) && forall id :: id in q ==> id in r
    ensures WellFormed(BookAfter(r, q, size, cause))
  {}

  /** The first half of `apply_update`: the ask size, offered to crossed orders. */
  ghost function ThroughPhase(r: Resting, u: TopOfBookUpdate): (m: Matched)
    requires WellFormed(r)
    ensures WellFormed(m.book)
  {
    var q := Queue(r, CrossedIds(r, u));
    MatchKeepsWellFormed(r, q, u.askSize, TradeThrough);
    MatchQueue(r, q, u.askSize, u.atMs, TradeThrough)
  }

  /** The second half: the touch capacity, offered to orders at the best bid. */
  ghost function TouchPhase(r: Resting, ratio: real, u: TopOfBookUpdate, crossed: set<nat>): (m: Matched)
    requires WellFormed(r) && 0.0 <= ratio <= 1.0
    ensures WellFormed(m.book)
  {
    var capacity := TouchCapacity(ratio, u.marketableSize);
    if capacity == 0 then Matched(r, [])
    else
      var q := Queue(r, TouchIds(r, u, crossed));
      MatchKeepsWellFormed(r, q, capacity, Touch);
      MatchQueue(r, q, capacity, u.atMs, Touch)
  }

  /** `apply_update` on a book value: trade-throughs first, then touches. */
  ghost function AfterUpdate(r: Resting, ratio: real, u: TopOfBookUpdate): (m: Matched)
    requires WellFormed(r) && 0.0 <= ratio <= 1.0
    ensures WellFormed(m.book) && m.book.Keys <= r.Keys
    ensures forall id :: id in m.book ==> m.book[id].order == r[id].order
  {
    var through := ThroughPhase(r, u);
    var touch := TouchPhase(through.book, ratio, u, CrossedIds(r, u));
    Matched(touch.book, through.fills + touch.fills)
  }

  // ----- How a waterfall advances by one order -----

  lemma {:induction false} DemandSnoc(r: Resting, q: seq<nat>, k: nat, cause: FillCause)
    requires k < |q| && forall id :: id in q ==> id in r
    ensures QueueDemand(r, q[..k + 1], cause) == QueueDemand(r, q[..k], cause) + Demand(r[q[k]], cause)
  {
    if k > 0 {
      assert q[..k + 1][1..] == q[1..][..k] && q[..k][1..] == q[1..][..k - 1];
      DemandSnoc(r, q[1..], k - 1, cause);
    }
  }

  lemma {:induction false} AheadAt(r: Resting, q: seq<nat>, k: nat, cause: FillCause)
    requires InPriorityOrder(r, q) && k < |q|
    ensures DemandAhead(r, q, q[k], cause) == QueueDemand(r, q[..k], cause)
  {
    if k > 0 {
      assert Before(r[q[0]].order, r[q[k]].order);
      assert q[..k][1..] == q[1..][..k - 1];
      AheadAt(r, q[1..], k - 1, cause);
    }
  }

  /** In a queue, demand ahead is that of the positions in front; the front `k`
      orders do not see the rest. */
  lemma {:induction false} AheadInPrefix(r: Resting, q: seq<nat>, k: nat, id: nat, cause: FillCause)
    requires k <= |q| && id in q[..k] && forall id :: id in q ==> id in r
    ensures DemandAhead(r, q[..k], id, cause) == DemandAhead(r, q, id, cause)
  {
    if q[0] != id {
      assert q[..k][1..] == q[1..][..k - 1];
      AheadInPrefix(r, q[1..], k - 1, id, cause);
    }
  }

  lemma BookAdvances(r: Resting, q: seq<nat>, k: nat, size: nat, cause: FillCause)
    requires InPriorityOrder(r, q) && k < |q|
    ensures var now, next := BookAfter(r, q[..k], size, cause), BookAfter(r, q[..k + 1], size, cause);
            && q[k] in now && now[q[k]] == r[q[k]]
            && next == match OrderAfter(r, q, size, cause, q[k])
                       case None => now - {q[k]}
                       case Some(ro) => now[q[k] := ro]
  {
    var now, next := BookAfter(r, q[..k], size, cause), BookAfter(r, q[..k + 1], size, cause);
    var want := match OrderAfter(r, q, size, cause, q[k]) case None => now - {q[k]} case Some(ro) => now[q[k] := ro];
    QueueDistinct(r, q, k);
    BookAt(r, q, k, size, cause, q[k]);
    forall id | id in r ensures (id in next <==> id in want) && (id in next ==> next[id] == want[id]) {
      NextBookAt(r, q, k, size, cause, id);
    }
    assert next == want;
  }

  lemma NextBookAt(r: Resting, q: seq<nat>, k: nat, size: nat, cause: FillCause, id: nat)
    requires InPriorityOrder(r, q) && k < |q| && id in r
    ensures var now, next := BookAfter(r, q[..k], size, cause), BookAfter(r, q[..k + 1], size, cause);
            var after := OrderAfter(r, q, size, cause, q[k]);
            if id == q[k] then (id in next <==> after.Some?) && (id in next ==> next[id] == after.value)
            else (id in next <==> id in now) && (id in next ==> next[id] == now[id])
  {
    QueueDistinct(r, q, k);
    BookAt(r, q, k, size, cause, id);
    BookAt(r, q, k + 1, size, cause, id);
    assert id in q[..k + 1] <==> id in q[..k] || id == q[k];
  }

  lemma QueueDistinct(r: Resting, q: seq<nat>, k: nat)
    requires InPriorityOrder(r, q) && k < |q|
    ensures q[k] !in q[..k] && q[..k + 1] == q[..k] + [q[k]]
  {
    forall j | 0 <= j < k ensures q[j] != q[k] {
      assert Before(r[q[j]].order, r[q[k]].order);
    }
  }

  /** One order of the book after the first `k` orders of a queue. */
  lemma BookAt(r: Resting, q: seq<nat>, k: nat, size: nat, cause: FillCause, id: nat)
    requires InPriorityOrder(r, q) && k <= |q| && id in r
    ensures var now := BookAfter(r, q[..k], size, cause);
            var after := OrderAfter(r, q, size, cause, id);
            && (id in now <==> (id in q[..k] ==> after.Some?))
            && (id in now ==> now[id] == if id in q[..k] then after.value else r[id])
  {
    if id in q[..k] {
      AheadInPrefix(r, q, k, id, cause);
    }
  }

  /** The fill loop stands at position `k`: book, fills and what is left of the
      size are those of the waterfall over the first `k` orders. */
  ghost predicate FilledUpTo(r: Resting, q: seq<nat>, k: nat, size: nat, atMs: int, cause: FillCause,
                             available: nat, now: Resting, fills: seq<PaperFill>)
    requires k <= |q| && forall id :: id in q ==> id in r
  {
    && available == SatSub(size, QueueDemand(r, q[..k], cause))
    && now == BookAfter(r, q[..k], size, cause)
    && fills == FillsUpTo(r, q, k, size, atMs, cause)
  }

  /** One turn of the fill loop: what `fill_order` does at position `k` takes the
      waterfall over the first `k` orders to that over the first `k + 1`. */
  lemma QueueAdvances(r: Resting, q: seq<nat>, k: nat, size: nat, atMs: int, cause: FillCause,
                      available: nat, now: Resting, fills: seq<PaperFill>)
    requires InPriorityOrder(r, q) && k < |q| && available > 0
    requires FilledUpTo(r, q, k, size, atMs, cause, available, now, fills)
    ensures q[k] in now
    ensures var got := Min(available, Demand(now[q[k]], cause));
            FilledUpTo(r, q, k + 1, size, atMs, cause, SatSub(available, got), AfterOne(now, q[k], got, cause),
                       fills + OneFill(now, q[k], got, atMs))
  {
    BookAdvances(r, q, k, size, cause);
    AheadAt(r, q, k, cause);
    DemandSnoc(r, q, k, cause);
  }

  /** When the offer is used up, the rest of the queue is left as it is. */
  lemma BookStops(r: Resting, q: seq<nat>, k: nat, size: nat, atMs: int, cause: FillCause)
    requires InPriorityOrder(r, q) && k <= |q| && WellFormed(r)
    requires QueueDemand(r, q[..k], cause) >= size || k == |q|
    ensures BookAfter(r, q[..k], size, cause) == BookAfter(r, q, size, cause)
    ensures FillsUpTo(r, q, k, size, atMs, cause) == FillsUpTo(r, q, |q|, size, atMs, cause)
    decreases |q| - k
  {
    if k == |q| {
      assert q[..k] == q;
    } else {
      DemandSnoc(r, q, k, cause);
      StopsHere(r, q, k, size, atMs, cause);
      BookStops(r, q, k + 1, size, atMs, cause);
    }
  }

  lemma StopsHere(r: Resting, q: seq<nat>, k: nat, size: nat, atMs: int, cause: FillCause)
    requires InPriorityOrder(r, q) && k < |q| && WellFormed(r) && QueueDemand(r, q[..k], cause) >= size
    ensures BookAfter(r, q[..k + 1], size, cause) == BookAfter(r, q[..k], size, cause)
    ensures FillsUpTo(r, q, k + 1, size, atMs, cause) == FillsUpTo(r, q, k, size, atMs, cause)
  {
    AheadAt(r, q, k, cause);
    NothingLeft(r, q, size, cause, q[k]);
    BookAdvances(r, q, k, size, cause);
    assert FillsUpTo(r, q, k, size, atMs, cause) + [] == FillsUpTo(r, q, k, size, atMs, cause);
  }

  lemma NothingLeft(r: Resting, q: seq<nat>, size: nat, cause: FillCause, id: nat)
    requires WellFormed(r) && id in r && (forall x :: x in q ==> x in r)
    requires DemandAhead(r, q, id, cause) >= size
    ensures Got(r, q, size, cause, id) == 0 && OrderAfter(r, q, size, cause, id) == Some(r[id])
  {}

  /** `replay` on a book value. */
  ghost function AfterReplay(r: Resting, ratio: real, updates: seq<TopOfBookUpdate>): (m: Matched)
    requires WellFormed(r) && 0.0 <= ratio <= 1.0
    ensures WellFormed(m.book)
    decreases |updates|
  {
    if updates == [] then Matched(r, [])
    else
      var last := |updates| - 1;
      var before := AfterReplay(r, ratio, updates[..last]);
      var m := AfterUpdate(before.book, ratio, updates[last]);
      Matched(m.book, before.fills + m.fills)
  }

  /** `PaperBook`: the mutable book. */
  class Book {
    const ratio: real
    var resting: Resting

    ghost predicate Valid()
      reads this
    {
      0.0 <= ratio <= 1.0 && WellFormed(resting)
    }

    constructor (fillRatio: real)
      requires 0.0 <= fillRatio <= 1.0
      ensures Valid() && ratio == fillRatio && resting == map[]
    {
      ratio := fillRatio;
      resting := map[];
    }

    /** A book with an explicit touch ratio; one that is not finite is None. */
    static method New(fillRatio: Option<real>) returns (res: Result<Book, PaperError>)
      ensures res.Ok? <==> fillRatio.Some? && 0.0 <= fillRatio.value <= 1.0
      ensures res.Ok? ==> fresh(res.value) && res.value.Valid()
      ensures res.Ok? ==> res.value.ratio == fillRatio.value && res.value.resting == map[]
      ensures res.Err? ==> res.error == InvalidFillRatio
    {
      if fillRatio == None || !(0.0 <= fillRatio.value <= 1.0) {
        return Err(InvalidFillRatio);
      }
      var book := new Book(fillRatio.value);
      return Ok(book);
    }

    /** Rests a validated order without matching it. */
    method Place(order: PaperOrder) returns (res: Result<(), PaperError>)
      requires Valid()
      modifies this
      ensures Valid()
      ensures res.Ok? <==> order.side == Buy && order.size > 0 && order.price > 0 && order.id !in old(resting)
      ensures res.Ok? ==> resting == old(resting)[order.id := RestingOrder(order, order.size, 0)]
      ensures res.Err? ==> resting == old(resting)
      ensures res == Err(InvalidSide) <==> order.side != Buy
      ensures res == Err(InvalidSize) <==> order.side == Buy && order.size == 0
      ensures res == Err(ZeroPrice) <==> order.side == Buy && order.size > 0 && order.price == 0
      ensures res.Err? && order.side == Buy && order.size > 0 && order.price > 0 ==>
                res == Err(DuplicateOrderId(order.id))
    {
      var problem := Validate(order);
      if problem.Some? {
        return Err(problem.value);
      }
      if order.id in resting {
        return Err(DuplicateOrderId(order.id));
      }
      resting := resting[order.id := RestingOrder(order, order.size, 0)];
      return Ok(());
    }

    /** Removes a resting order at once and reports whether it was there. */
    method Cancel(id: nat) returns (present: bool)
      requires Valid()
      modifies this
      ensures Valid()
      ensures present <==> id in old(resting)
      ensures resting == old(resting) - {id}
    {
      present := id in resting;
      resting := resting - {id};
    }

    method OrderedIds(ids: set<nat>) returns (q: seq<nat>)
      requires Valid() && ids <= resting.Keys
      ensures q == Queue(resting, ids)
    {
      q := [];
      var todo := ids;
      ghost var done: set<nat> := {};
      while todo != {}
        invariant todo + done == ids && todo !! done
        invariant IsQueue(resting, done, q)
        decreases todo
      {
        var id :| id in todo;
        InsertKeepsQueue(resting, done, q, id);
        q := Insert(resting, q, id);
        todo := todo - {id};
        done := done + {id};
      }
      assert done == ids;
      QueueUnique(resting, ids, q, Queue(resting, ids));
    }

    /** `fill_order`: a first touch that would complete the order is capped one
        unit short, and it counts as a touch even when nothing fills. */
    method FillOrder(id: nat, available: nat, atMs: int, cause: FillCause) returns (fill: Option<PaperFill>)
      requires Valid()
      modifies this
      ensures Valid()
      ensures id !in old(resting) ==> fill == None && resting == old(resting)
      ensures id in old(resting) ==>
        var ro := old(resting)[id];
        var got := Min(available, Demand(ro, cause));
        && fill == (if got == 0 then None else Some(PaperFill(id, ro.order.price, got, atMs, true)))
        && resting == AfterOne(old(resting), id, got, cause)
    {
      if id !in resting {
        return None;
      }
      var ro := resting[id];
      var fillSize: nat := Min(available, ro.remaining);
      if cause.Touch? {
        if ro.touchCount == 0 && fillSize >= ro.remaining {
          fillSize := SatSub(ro.remaining, 1);
        }
        resting := resting[id := ro.(touchCount := SatIncrement(ro.touchCount))];
      }
      if fillSize == 0 {
        assert resting == old(resting)[id := resting[id]];
        return None;
      }
      var left := ro.remaining - fillSize;
      if left == 0 {
        resting := resting - {id};
        assert resting == old(resting) - {id};
      } else {
        resting := resting[id := resting[id].(remaining := left)];
        assert resting == old(resting)[id := resting[id]];
      }
      return Some(PaperFill(id, ro.order.price, fillSize, atMs, true));
    }

    /** The two fill loops of `apply_update` share this shape. */
    method FillDown(q: seq<nat>, size: nat, atMs: int, cause: FillCause) returns (fills: seq<PaperFill>)
      requires Valid() && InPriorityOrder(resting, q)
      modifies this
      ensures Valid()
      ensures Matched(resting, fills) == MatchQueue(old(resting), q, size, atMs, cause)
    {
      fills := [];
      var available := size;
      var k := 0;
      ghost var start := resting;
      while k < |q| && available != 0
        invariant 0 <= k <= |q|
        invariant Valid()
        invariant FilledUpTo(start, q, k, size, atMs, cause, available, resting, fills)
      {
        QueueAdvances(start, q, k, size, atMs, cause, available, resting, fills);
        assert fills + [] == fills;
        var fill := FillOrder(q[k], available, atMs, cause);
        if fill.Some? {
          available := SatSub(available, fill.value.size);
          fills := fills + [fill.value];
        }
        k := k + 1;
      }
      BookStops(start, q, k, size, atMs, cause);
    }

    /** Applies one top-of-book update and returns its fills. */
    method ApplyUpdate(u: TopOfBookUpdate) returns (fills: seq<PaperFill>)
      requires Valid()
      modifies this
      ensures Valid()
      ensures Matched(resting, fills) == AfterUpdate(old(resting), ratio, u)
    {
      var crossed := CrossedIds(resting, u);
      var crossedQueue := OrderedIds(crossed);
      fills := FillDown(crossedQueue, u.askSize, u.atMs, TradeThrough);
      var capacity := TouchCapacity(ratio, u.marketableSize);
      if capacity == 0 {
        assert fills + [] == fills;
        return;
      }
      var touchQueue := OrderedIds(TouchIds(resting, u, crossed));
      var touchFills := FillDown(touchQueue, capacity, u.atMs, Touch);
      fills := fills + touchFills;
    }

    /** Replays a tape and returns every fill it generates. */
    method Replay(updates: seq<TopOfBookUpdate>) returns (fills: seq<PaperFill>)
      requires Valid()
      modifies this
      ensures Valid()
      ensures Matched(resting, fills) == AfterReplay(old(resting), ratio, updates)
    {
      fills := [];
      var k := 0;
      while k < |updates|
        invariant 0 <= k <= |updates|
        invariant Valid()
        invariant Matched(resting, fills) == AfterReplay(old(resting), ratio, updates[..k])
      {
        assert updates[..k + 1][..k] == updates[..k];
        var more := ApplyUpdate(updates[k]);
        fills := fills + more;
        k := k + 1;
      }
      assert updates[..k] == updates;
    }
  }
}

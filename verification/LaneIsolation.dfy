// Lane non-interference of the execution actor, as a statement about two runs:
// what one variant sees in any interleaved run is what it sees in the run with
// the other variant's quotes and cancels deleted. Only order ids differ, by a
// strictly increasing renaming, because both lanes draw from one id sequence.
module LaneIsolation {
  import opened Domain
  import opened PaperBook
  import opened ExecutionActor

  // ----- Runs -----

  const INITIAL := State(map[], map[], 1)

  /** The state after a run of a new actor. */
  ghost function After(limits: RiskLimits, events: seq<Event>): (s: State)
    ensures s.Valid()
  {
    if events == [] then INITIAL
    else Step(After(limits, events[..|events| - 1]), limits, events[|events| - 1]).0
  }

  /** The reply to the last event of a non-empty run. */
  ghost function LastReply(limits: RiskLimits, events: seq<Event>): Reply
    requires events != []
  {
    Step(After(limits, events[..|events| - 1]), limits, events[|events| - 1]).1
  }

  /** What one variant sees of a reply: its own quotes and cancels, its own fills. */
  datatype LaneReply =
    | LaneQuoted(result: Result<seq<PaperFill>, RiskBlock>)
    | LaneCancelled(present: bool)
    | LaneFills(fills: seq<PaperFill>)

  predicate Concerns(e: Event, v: Variant) {
    e.BookUpdate? || e.variant == v
  }

  function Seen(reply: Reply, v: Variant): LaneReply {
    match reply
    case Quoted(result) => LaneQuoted(result)
    case Cancelled(present) => LaneCancelled(present)
    case Fills(fills) => LaneFills(fills.Of(v))
  }

  /** Everything one variant sees of a run, in order. */
  ghost function LaneView(limits: RiskLimits, events: seq<Event>, v: Variant): seq<LaneReply> {
    if events == [] then []
    else
      LaneView(limits, events[..|events| - 1], v)
      + if Concerns(events[|events| - 1], v) then [Seen(LastReply(limits, events), v)] else []
  }

  /** The ids given to one variant's accepted quotes, in order. */
  ghost function LaneIds(limits: RiskLimits, events: seq<Event>, v: Variant): seq<nat> {
    if events == [] then []
    else
      var before, e := events[..|events| - 1], events[|events| - 1];
      LaneIds(limits, before, v)
      + if e.Quote? && e.variant == v && LastReply(limits, events) == Quoted(Ok([]))
        then [After(limits, before).nextId] else []
  }

  // ----- The run with the other lane deleted -----

  /** The 1-based position of an id among a lane's ids, or 0 for a foreign id. */
  ghost function Rank(ids: seq<nat>, id: nat): (k: nat)
    ensures if id in ids then 1 <= k <= |ids| && ids[k - 1] == id else k == 0
  {
    if id !in ids then 0 else var k :| 0 <= k < |ids| && ids[k] == id; k + 1
  }

  /** The run with the other variant's quotes and cancels deleted. A variant that
      runs alone gives its k-th accepted quote the id k, so the ids it cancels
      are renamed likewise; 0 is an id no order ever has. */
  ghost function Alone(limits: RiskLimits, events: seq<Event>, v: Variant): seq<Event> {
    if events == [] then []
    else
      var before, e := events[..|events| - 1], events[|events| - 1];
      Alone(limits, before, v)
      + if !Concerns(e, v) then []
        else if e.CancelOrder? then [CancelOrder(v, Rank(LaneIds(limits, before, v), e.id))]
        else [e]
  }

  // ----- Renaming -----

  /** Positive and strictly increasing. */
  ghost predicate Increasing(ids: seq<nat>) {
    && (forall i :: 0 <= i < |ids| ==> ids[i] >= 1)
    && forall i, j :: 0 <= i < j < |ids| ==> ids[i] < ids[j]
  }

  /** The renaming: id k of the variant running alone is its k-th id in the
      interleaved run. It is continued above to a strictly increasing function. */
  function Up(ids: seq<nat>, k: nat): nat {
    if k == 0 then 0
    else if k <= |ids| then ids[k - 1]
    else if ids == [] then k
    else ids[|ids| - 1] + (k - |ids|)
  }

  lemma UpMonotone(ids: seq<nat>, a: nat, b: nat)
    requires Increasing(ids)
    ensures a < b <==> Up(ids, a) < Up(ids, b)
    ensures a == b <==> Up(ids, a) == Up(ids, b)
  {}

  function Rename(ro: RestingOrder, id: nat): RestingOrder {
    ro.(order := ro.order.(id := id))
  }

  /** `big` is `small` with every id renamed. */
  ghost predicate Renamed(ids: seq<nat>, small: Resting, big: Resting) {
    && (forall k :: k in small ==>
          1 <= k <= |ids| && Up(ids, k) in big && big[Up(ids, k)] == Rename(small[k], Up(ids, k)))
    && forall id :: id in big ==> exists k :: k in small && Up(ids, k) == id
  }

  /** `s'` is the image of `s` under the renaming. */
  ghost predicate RenamedSet(ids: seq<nat>, s: set<nat>, s': set<nat>) {
    && (forall k :: k in s ==> Up(ids, k) in s')
    && forall id :: id in s' ==> exists k :: k in s && Up(ids, k) == id
  }

  ghost predicate RenamedQueue(ids: seq<nat>, q: seq<nat>, q': seq<nat>) {
    |q'| == |q| && forall i :: 0 <= i < |q| ==> q'[i] == Up(ids, q[i])
  }

  predicate RenamedFills(ids: seq<nat>, small: seq<PaperFill>, big: seq<PaperFill>) {
    && |small| == |big|
    && forall i :: 0 <= i < |small| ==>
         1 <= small[i].orderId <= |ids| && big[i] == small[i].(orderId := Up(ids, small[i].orderId))
  }

  ghost predicate RenamedMatch(ids: seq<nat>, small: Matched, big: Matched) {
    Renamed(ids, small.book, big.book) && RenamedFills(ids, small.fills, big.fills)
  }

  /** The same reply up to the renaming of fill ids. */
  predicate RenamedReply(ids: seq<nat>, small: LaneReply, big: LaneReply) {
    match small
    case LaneFills(fills) => big.LaneFills? && RenamedFills(ids, fills, big.fills)
    case _ => small == big
  }

  predicate RenamedView(ids: seq<nat>, small: seq<LaneReply>, big: seq<LaneReply>) {
    && |small| == |big|
    && forall i :: 0 <= i < |small| ==> RenamedReply(ids, small[i], big[i])
  }

  // ----- Matching commutes with renaming -----

  lemma UpQueue(ids: seq<nat>, q: seq<nat>) returns (q': seq<nat>)
    ensures RenamedQueue(ids, q, q')
  {
    q' := seq(|q|, i requires 0 <= i < |q| => Up(ids, q[i]));
  }

  lemma RenamedInOrder(ids: seq<nat>, small: Resting, big: Resting, q: seq<nat>, q': seq<nat>)
    requires Increasing(ids) && Renamed(ids, small, big) && WellFormed(small) && WellFormed(big)
    requires InPriorityOrder(small, q) && RenamedQueue(ids, q, q')
    ensures InPriorityOrder(big, q')
  {
    forall i | 0 <= i < |q'| ensures q'[i] in big { assert q[i] in small; }
    forall i, j | 0 <= i < j < |q'| ensures Before(big[q'[i]].order, big[q'[j]].order) {
      assert Before(small[q[i]].order, small[q[j]].order);
      UpMonotone(ids, q[i], q[j]);
    }
  }

  lemma RenamedMembers(ids: seq<nat>, s: set<nat>, s': set<nat>, q: seq<nat>, q': seq<nat>)
    requires RenamedSet(ids, s, s') && RenamedQueue(ids, q, q') && forall k :: k in s <==> k in q
    ensures forall id :: id in s' <==> id in q'
  {
    forall id | id in s' ensures id in q' {
      var k :| k in s && Up(ids, k) == id;
      var i :| 0 <= i < |q| && q[i] == k;
      assert q'[i] == id;
    }
    forall id | id in q' ensures id in s' {
      var i :| 0 <= i < |q'| && q'[i] == id;
      assert q[i] in s;
    }
  }

  /** Priority does not see the renaming, since it keeps the order of ids. */
  lemma QueueRenamed(ids: seq<nat>, small: Resting, big: Resting, s: set<nat>, s': set<nat>)
    requires Increasing(ids) && Renamed(ids, small, big) && WellFormed(small) && WellFormed(big)
    requires s <= small.Keys && s' <= big.Keys && RenamedSet(ids, s, s')
    ensures RenamedQueue(ids, Queue(small, s), Queue(big, s'))
  {
    var q := Queue(small, s);
    var q' := UpQueue(ids, q);
    RenamedInOrder(ids, small, big, q, q');
    RenamedMembers(ids, s, s', q, q');
    QueueUnique(big, s', q', Queue(big, s'));
  }

  lemma {:induction false} DemandRenamed(ids: seq<nat>, small: Resting, big: Resting, q: seq<nat>, q': seq<nat>,
                                         k: nat, cause: FillCause)
    requires Increasing(ids) && Renamed(ids, small, big) && RenamedQueue(ids, q, q')
    requires (forall x :: x in q ==> x in small) && forall x :: x in q' ==> x in big
    ensures DemandAhead(big, q', Up(ids, k), cause) == DemandAhead(small, q, k, cause)
  {
    if q != [] {
      UpMonotone(ids, q[0], k);
      assert q[0] in small && q'[0] == Up(ids, q[0]);
      DemandRenamed(ids, small, big, q[1..], q'[1..], k, cause);
    }
  }

  lemma MemberRenamed(ids: seq<nat>, q: seq<nat>, q': seq<nat>, k: nat)
    requires Increasing(ids) && RenamedQueue(ids, q, q')
    ensures k in q <==> Up(ids, k) in q'
  {
    if k in q {
      var i :| 0 <= i < |q| && q[i] == k;
      assert q'[i] == Up(ids, k);
    }
    if Up(ids, k) in q' {
      var i :| 0 <= i < |q'| && q'[i] == Up(ids, k);
      UpMonotone(ids, q[i], k);
    }
  }

  lemma OrderRenamed(ids: seq<nat>, small: Resting, big: Resting, q: seq<nat>, q': seq<nat>, size: nat,
                     cause: FillCause, k: nat)
    requires Increasing(ids) && Renamed(ids, small, big) && k in small
    requires InPriorityOrder(small, q) && InPriorityOrder(big, q') && RenamedQueue(ids, q, q')
    ensures Got(big, q', size, cause, Up(ids, k)) == Got(small, q, size, cause, k)
    ensures match OrderAfter(small, q, size, cause, k)
            case None => OrderAfter(big, q', size, cause, Up(ids, k)) == None
            case Some(ro) => OrderAfter(big, q', size, cause, Up(ids, k)) == Some(Rename(ro, Up(ids, k)))
  {
    DemandRenamed(ids, small, big, q, q', k, cause);
    assert big[Up(ids, k)] == Rename(small[k], Up(ids, k));
  }

  lemma BookRenamed(ids: seq<nat>, small: Resting, big: Resting, q: seq<nat>, q': seq<nat>, size: nat, cause: FillCause)
    requires Increasing(ids) && Renamed(ids, small, big)
    requires InPriorityOrder(small, q) && InPriorityOrder(big, q') && RenamedQueue(ids, q, q')
    ensures Renamed(ids, BookAfter(small, q, size, cause), BookAfter(big, q', size, cause))
  {
    var small', big' := BookAfter(small, q, size, cause), BookAfter(big, q', size, cause);
    forall k | k in small'
      ensures 1 <= k <= |ids| && Up(ids, k) in big' && big'[Up(ids, k)] == Rename(small'[k], Up(ids, k)) {
      MemberRenamed(ids, q, q', k);
      OrderRenamed(ids, small, big, q, q', size, cause, k);
    }
    forall id | id in big' ensures exists k :: k in small' && Up(ids, k) == id {
      var k :| k in small && Up(ids, k) == id;
      MemberRenamed(ids, q, q', k);
      OrderRenamed(ids, small, big, q, q', size, cause, k);
      assert k in small';
    }
  }

  lemma FillsRenamed(ids: seq<nat>, small: Resting, big: Resting, q: seq<nat>, q': seq<nat>, size: nat,
                     atMs: int, cause: FillCause)
    requires Increasing(ids) && Renamed(ids, small, big)
    requires InPriorityOrder(small, q) && InPriorityOrder(big, q') && RenamedQueue(ids, q, q')
    ensures RenamedFills(ids, FillsUpTo(small, q, |q|, size, atMs, cause), FillsUpTo(big, q', |q|, size, atMs, cause))
  {
    forall j | 0 <= j < |q|
      ensures RenamedFills(ids, FillAt(small, q, j, size, atMs, cause), FillAt(big, q', j, size, atMs, cause))
    {
      OrderRenamed(ids, small, big, q, q', size, cause, q[j]);
      OneFillRenamed(ids, small, big, q[j], Got(small, q, size, cause, q[j]), atMs);
    }
    FillsRenamedUpTo(ids, small, big, q, q', |q|, size, atMs, cause);
  }

  /** The fill at one position of a queue. */
  function FillAt(r: Resting, q: seq<nat>, j: nat, size: nat, atMs: int, cause: FillCause): seq<PaperFill>
    requires j < |q| && forall id :: id in q ==> id in r
  {
    OneFill(r, q[j], Got(r, q, size, cause, q[j]), atMs)
  }

  lemma {:induction false} FillsRenamedUpTo(ids: seq<nat>, small: Resting, big: Resting, q: seq<nat>,
                                            q': seq<nat>, n: nat, size: nat, atMs: int, cause: FillCause)
    requires n <= |q| == |q'| && (forall id :: id in q ==> id in small) && forall id :: id in q' ==> id in big
    requires forall j :: 0 <= j < n ==>
               RenamedFills(ids, FillAt(small, q, j, size, atMs, cause), FillAt(big, q', j, size, atMs, cause))
    ensures RenamedFills(ids, FillsUpTo(small, q, n, size, atMs, cause), FillsUpTo(big, q', n, size, atMs, cause))
  {
    if n > 0 {
      FillsRenamedUpTo(ids, small, big, q, q', n - 1, size, atMs, cause);
      FillsJoin(ids, FillsUpTo(small, q, n - 1, size, atMs, cause), FillsUpTo(big, q', n - 1, size, atMs, cause),
                FillAt(small, q, n - 1, size, atMs, cause), FillAt(big, q', n - 1, size, atMs, cause));
    }
  }

  lemma OneFillRenamed(ids: seq<nat>, small: Resting, big: Resting, k: nat, got: nat, atMs: int)
    requires Renamed(ids, small, big) && k in small
    ensures RenamedFills(ids, OneFill(small, k, got, atMs), OneFill(big, Up(ids, k), got, atMs))
  {
    assert big[Up(ids, k)] == Rename(small[k], Up(ids, k));
  }

  lemma FillsJoin(ids: seq<nat>, a: seq<PaperFill>, a': seq<PaperFill>, b: seq<PaperFill>, b': seq<PaperFill>)
    requires RenamedFills(ids, a, a') && RenamedFills(ids, b, b')
    ensures RenamedFills(ids, a + b, a' + b')
  {}

  lemma SetsRenamed(ids: seq<nat>, small: Resting, big: Resting, u: TopOfBookUpdate)
    requires Increasing(ids) && Renamed(ids, small, big)
    ensures RenamedSet(ids, CrossedIds(small, u), CrossedIds(big, u))
  {
    forall id | id in CrossedIds(big, u) ensures exists k :: k in CrossedIds(small, u) && Up(ids, k) == id {
      var k :| k in small && Up(ids, k) == id;
      assert k in CrossedIds(small, u);
    }
  }

  lemma TouchSetsRenamed(ids: seq<nat>, small: Resting, big: Resting, u: TopOfBookUpdate, s: set<nat>, s': set<nat>)
    requires Increasing(ids) && Renamed(ids, small, big) && RenamedSet(ids, s, s')
    ensures RenamedSet(ids, TouchIds(small, u, s), TouchIds(big, u, s'))
  {
    forall k | k in TouchIds(small, u, s) ensures Up(ids, k) in TouchIds(big, u, s') {
      if Up(ids, k) in s' {
        var k' :| k' in s && Up(ids, k') == Up(ids, k);
        UpMonotone(ids, k, k');
        assert false;
      }
    }
    forall id | id in TouchIds(big, u, s') ensures exists k :: k in TouchIds(small, u, s) && Up(ids, k) == id {
      var k :| k in small && Up(ids, k) == id;
      assert k in TouchIds(small, u, s);
    }
  }

  lemma PhaseRenamed(ids: seq<nat>, small: Resting, big: Resting, s: set<nat>, s': set<nat>, size: nat,
                     atMs: int, cause: FillCause)
    requires Increasing(ids) && Renamed(ids, small, big) && WellFormed(small) && WellFormed(big)
    requires s <= small.Keys && s' <= big.Keys && RenamedSet(ids, s, s')
    ensures RenamedMatch(ids, MatchQueue(small, Queue(small, s), size, atMs, cause),
            MatchQueue(big, Queue(big, s'), size, atMs, cause))
  {
    var q, q' := Queue(small, s), Queue(big, s');
    QueueRenamed(ids, small, big, s, s');
    BookRenamed(ids, small, big, q, q', size, cause);
    FillsRenamed(ids, small, big, q, q', size, atMs, cause);
  }

  lemma ThroughRenamed(ids: seq<nat>, small: Resting, big: Resting, u: TopOfBookUpdate)
    requires Increasing(ids) && Renamed(ids, small, big) && WellFormed(small) && WellFormed(big)
    ensures RenamedMatch(ids, ThroughPhase(small, u), ThroughPhase(big, u))
  {
    SetsRenamed(ids, small, big, u);
    PhaseRenamed(ids, small, big, CrossedIds(small, u), CrossedIds(big, u), u.askSize, u.atMs, TradeThrough);
  }

  lemma TouchRenamed(ids: seq<nat>, small: Resting, big: Resting, ratio: real, u: TopOfBookUpdate, s: set<nat>,
                     s': set<nat>)
    requires Increasing(ids) && Renamed(ids, small, big) && WellFormed(small) && WellFormed(big)
    requires 0.0 <= ratio <= 1.0 && RenamedSet(ids, s, s')
    ensures RenamedMatch(ids, TouchPhase(small, ratio, u, s), TouchPhase(big, ratio, u, s'))
  {
    TouchSetsRenamed(ids, small, big, u, s, s');
    PhaseRenamed(ids, small, big, TouchIds(small, u, s), TouchIds(big, u, s'),
                 TouchCapacity(ratio, u.marketableSize), u.atMs, Touch);
  }

  /** Matching an update commutes with the renaming. */
  lemma UpdateRenamed(ids: seq<nat>, small: Resting, big: Resting, ratio: real, u: TopOfBookUpdate)
    requires Increasing(ids) && Renamed(ids, small, big) && WellFormed(small) && WellFormed(big) && 0.0 <= ratio <= 1.0
    ensures RenamedMatch(ids, AfterUpdate(small, ratio, u), AfterUpdate(big, ratio, u))
  {
    SetsRenamed(ids, small, big, u);
    var through, through' := ThroughPhase(small, u), ThroughPhase(big, u);
    ThroughRenamed(ids, small, big, u);
    TouchRenamed(ids, through.book, through'.book, ratio, u, CrossedIds(small, u), CrossedIds(big, u));
    FillsJoin(ids, through.fills, through'.fills,
              TouchPhase(through.book, ratio, u, CrossedIds(small, u)).fills,
              TouchPhase(through'.book, ratio, u, CrossedIds(big, u)).fills);
  }

  // ----- The two runs step by step -----

  /** The renaming is onto, so the two books have equally many orders. */
  lemma {:induction false} SameCount(ids: seq<nat>, small: set<nat>, big: set<nat>)
    requires Increasing(ids) && RenamedSet(ids, small, big)
    ensures |small| == |big|
  {
    if small == {} {
      assert big == {};
    } else {
      var k :| k in small;
      var small', big' := small - {k}, big - {Up(ids, k)};
      forall x | x in small' ensures Up(ids, x) in big' { UpMonotone(ids, x, k); }
      forall id | id in big' ensures exists x :: x in small' && Up(ids, x) == id {
        var x :| x in small && Up(ids, x) == id;
        assert x in small';
      }
      SameCount(ids, small', big');
    }
  }

  /** How the lane of a variant in the interleaved run relates to the lane of the
      same variant running alone. */
  ghost predicate Simulates(ids: seq<nat>, alone: State, full: State, v: Variant) {
    && Increasing(ids)
    && Renamed(ids, alone.Lane(v), full.Lane(v))
    && alone.nextId == |ids| + 1
    && (forall i :: 0 <= i < |ids| ==> ids[i] < full.nextId)
    && full.nextId >= 1
  }

  lemma OldIdsKeepNames(ids: seq<nat>, id: nat, k: nat)
    requires k <= |ids|
    ensures Up(ids + [id], k) == Up(ids, k)
  {}

  lemma PlacedRenamed(ids: seq<nat>, small: Resting, big: Resting, id: nat, order: PaperOrder)
    requires Increasing(ids) && Renamed(ids, small, big)
    requires order.id == |ids| + 1 && id !in big
    ensures var ids' := ids + [id];
            Renamed(ids', small[|ids| + 1 := RestingOrder(order, order.size, 0)],
                          big[id := RestingOrder(order.(id := id), order.size, 0)])
  {
    var ids' := ids + [id];
    var small' := small[|ids| + 1 := RestingOrder(order, order.size, 0)];
    var big' := big[id := RestingOrder(order.(id := id), order.size, 0)];
    assert Up(ids', |ids| + 1) == id;
    forall k | k in small'
      ensures 1 <= k <= |ids'| && Up(ids', k) in big' && big'[Up(ids', k)] == Rename(small'[k], Up(ids', k))
    {
      OldIdsKeepNames(ids, id, if k <= |ids| then k else 0);
    }
    forall x | x in big' ensures exists k :: k in small' && Up(ids', k) == x {
      PlacedCovered(ids, small, big, id, order, x);
    }
  }

  lemma PlacedCovered(ids: seq<nat>, small: Resting, big: Resting, id: nat, order: PaperOrder, x: nat)
    requires Renamed(ids, small, big) && (x == id || x in big)
    ensures exists k :: k in small[|ids| + 1 := RestingOrder(order, order.size, 0)] && Up(ids + [id], k) == x
  {
    var small' := small[|ids| + 1 := RestingOrder(order, order.size, 0)];
    if x == id {
      assert |ids| + 1 in small' && Up(ids + [id], |ids| + 1) == id;
    } else {
      var k :| k in small && Up(ids, k) == x;
      OldIdsKeepNames(ids, id, k);
      assert k in small' && Up(ids + [id], k) == x;
    }
  }

  lemma FreshInLane(ids: seq<nat>, alone: State, full: State, v: Variant)
    requires Simulates(ids, alone, full, v)
    ensures alone.nextId !in alone.Lane(v) && full.nextId !in full.Lane(v)
    ensures |alone.Lane(v)| == |full.Lane(v)|
  {
    var small, big := alone.Lane(v), full.Lane(v);
    SameCount(ids, small.Keys, big.Keys);
    forall x | x in big ensures x != full.nextId {
      var k :| k in small && Up(ids, k) == x;
      assert ids[k - 1] < full.nextId;
    }
  }

  lemma PlacedSimulates(ids: seq<nat>, alone: State, full: State, v: Variant, intent: QuoteIntent)
    requires Simulates(ids, alone, full, v) && alone.nextId < U64_MAX && full.nextId < U64_MAX
    ensures Simulates(ids + [full.nextId], Placing(alone, v, intent), Placing(full, v, intent), v)
  {
    FreshInLane(ids, alone, full, v);
    var order := OrderOf(alone.nextId, intent);
    PlacedRenamed(ids, alone.Lane(v), full.Lane(v), full.nextId, order);
    assert order.(id := full.nextId) == OrderOf(full.nextId, intent);
    NewestLargest(ids, full.nextId);
    PlacingLane(alone, v, intent);
    PlacingLane(full, v, intent);
  }

  lemma NewestLargest(ids: seq<nat>, id: nat)
    requires Increasing(ids) && id >= 1 && forall i :: 0 <= i < |ids| ==> ids[i] < id
    ensures Increasing(ids + [id]) && forall i :: 0 <= i < |ids + [id]| ==> (ids + [id])[i] < id + 1
  {}

  lemma PlacingLane(s: State, v: Variant, intent: QuoteIntent)
    ensures Placing(s, v, intent).Lane(v)
            == s.Lane(v)[s.nextId := RestingOrder(OrderOf(s.nextId, intent), intent.size, 0)]
    ensures Placing(s, v, intent).nextId == SatIncrement(s.nextId)
  {}

  /** The state once a quote of the variant rests. */
  function Placing(s: State, v: Variant, intent: QuoteIntent): State {
    var order := OrderOf(s.nextId, intent);
    s.WithLane(v, s.Lane(v)[s.nextId := RestingOrder(order, order.size, 0)]).(nextId := SatIncrement(s.nextId))
  }

  /** A quote of the variant gets the same answer in both runs. */
  lemma QuoteSimulated(ids: seq<nat>, alone: State, full: State, v: Variant, limits: RiskLimits,
                       intent: QuoteIntent, bookStale: bool, latencyMs: nat)
    requires Simulates(ids, alone, full, v)
    requires alone.nextId < U64_MAX && full.nextId < U64_MAX
    ensures var (alone', r) := AfterQuote(alone, limits, v, intent, bookStale, latencyMs);
            var (full', r') := AfterQuote(full, limits, v, intent, bookStale, latencyMs);
            && r == r' && (r.Ok? ==> r == Ok([]))
            && Simulates(if r.Ok? then ids + [full.nextId] else ids, alone', full', v)
            && full'.nextId <= full.nextId + 1
  {
    FreshInLane(ids, alone, full, v);
    SameAnswer(alone, full, limits, v, intent, bookStale, latencyMs);
    QuoteOutcome(alone, limits, v, intent, bookStale, latencyMs);
    QuoteOutcome(full, limits, v, intent, bookStale, latencyMs);
    if AfterQuote(alone, limits, v, intent, bookStale, latencyMs).1.Ok? {
      PlacedSimulates(ids, alone, full, v, intent);
    }
  }

  /** A quote either rests under the next id or changes nothing. */
  lemma QuoteOutcome(s: State, limits: RiskLimits, v: Variant, intent: QuoteIntent, bookStale: bool, latencyMs: nat)
    ensures var (s', r) := AfterQuote(s, limits, v, intent, bookStale, latencyMs);
            if r.Ok? then r == Ok([]) && s' == Placing(s, v, intent) else s' == s
  {}

  lemma SameAnswer(alone: State, full: State, limits: RiskLimits, v: Variant, intent: QuoteIntent,
                   bookStale: bool, latencyMs: nat)
    requires |alone.Lane(v)| == |full.Lane(v)| && alone.nextId !in alone.Lane(v) && full.nextId !in full.Lane(v)
    ensures AfterQuote(alone, limits, v, intent, bookStale, latencyMs).1
            == AfterQuote(full, limits, v, intent, bookStale, latencyMs).1
  {
    assert Validate(OrderOf(alone.nextId, intent)) == Validate(OrderOf(full.nextId, intent));
  }

  lemma CancelSimulated(ids: seq<nat>, alone: State, full: State, v: Variant, id: nat)
    requires Simulates(ids, alone, full, v)
    ensures var k := Rank(ids, id);
            && (k in alone.Lane(v) <==> id in full.Lane(v))
            && Renamed(ids, alone.Lane(v) - {k}, full.Lane(v) - {id})
  {
    var small, big, k := alone.Lane(v), full.Lane(v), Rank(ids, id);
    if id in big {
      var j :| j in small && Up(ids, j) == id;
      assert ids[j - 1] == id;
      UpMonotone(ids, j, k);
    }
    forall j | j in small - {k} ensures Up(ids, j) in big - {id} {
      if k != 0 { UpMonotone(ids, j, k); }
    }
    RemovedCovered(ids, small, big, k, id);
  }

  lemma RemovedCovered(ids: seq<nat>, small: Resting, big: Resting, k: nat, id: nat)
    requires Renamed(ids, small, big) && (k in small ==> Up(ids, k) == id)
    ensures forall x :: x in big - {id} ==> exists j :: j in small - {k} && Up(ids, j) == x
  {
    forall x | x in big - {id} ensures exists j :: j in small - {k} && Up(ids, j) == x {
      var j :| j in small && Up(ids, j) == x;
      assert j in small - {k};
    }
  }

  lemma UpdateSimulated(ids: seq<nat>, alone: State, full: State, v: Variant, limits: RiskLimits, u: TopOfBookUpdate)
    requires alone.Valid() && full.Valid() && Simulates(ids, alone, full, v)
    ensures var (alone', r) := Step(alone, limits, BookUpdate(u));
            var (full', r') := Step(full, limits, BookUpdate(u));
            Simulates(ids, alone', full', v) && RenamedReply(ids, Seen(r, v), Seen(r', v))
  {
    UpdateRenamed(ids, alone.Lane(v), full.Lane(v), DEFAULT_FILL_RATIO, u);
  }

  lemma LongerNames(ids: seq<nat>, id: nat, small: seq<LaneReply>, big: seq<LaneReply>)
    requires RenamedView(ids, small, big)
    ensures RenamedView(ids + [id], small, big)
  {
    forall i | 0 <= i < |small| ensures RenamedReply(ids + [id], small[i], big[i]) {
      assert RenamedReply(ids, small[i], big[i]);
    }
  }

  lemma ViewGrows(ids: seq<nat>, small: seq<LaneReply>, big: seq<LaneReply>, r: LaneReply, r': LaneReply)
    requires RenamedView(ids, small, big) && RenamedReply(ids, r, r')
    ensures RenamedView(ids, small + [r], big + [r'])
  {}

  /** A run of `n` events against the same variant's run alone. */
  ghost predicate Related(ids: seq<nat>, alone: State, full: State, small: seq<LaneReply>, big: seq<LaneReply>,
                          v: Variant, n: nat) {
    && alone.Valid() && full.Valid()
    && Simulates(ids, alone, full, v)
    && RenamedView(ids, small, big)
    && |ids| <= n && full.nextId <= n + 1
  }

  lemma ForeignRelated(ids: seq<nat>, alone: State, full: State, small: seq<LaneReply>, big: seq<LaneReply>,
                       v: Variant, n: nat, limits: RiskLimits, e: Event)
    requires Related(ids, alone, full, small, big, v, n) && !Concerns(e, v)
    ensures Related(ids, alone, Step(full, limits, e).0, small, big, v, n + 1)
  {
    ForeignStep(full, limits, e, v);
  }

  lemma ForeignStep(full: State, limits: RiskLimits, e: Event, v: Variant)
    requires full.Valid() && !Concerns(e, v)
    ensures var full' := Step(full, limits, e).0;
            full'.Lane(v) == full.Lane(v) && full.nextId <= full'.nextId <= full.nextId + 1
  {
    if e.Quote? {
      assert Step(full, limits, e).0 == AfterQuote(full, limits, e.variant, e.intent, e.bookStale, e.latencyMs).0;
    } else {
      assert Step(full, limits, e).0 == full.WithLane(e.variant, full.Lane(e.variant) - {e.id});
    }
  }

  lemma UpdateRelated(ids: seq<nat>, alone: State, full: State, small: seq<LaneReply>, big: seq<LaneReply>,
                      v: Variant, n: nat, limits: RiskLimits, u: TopOfBookUpdate)
    requires Related(ids, alone, full, small, big, v, n)
    ensures var (s, r) := Step(alone, limits, BookUpdate(u));
            var (t, r') := Step(full, limits, BookUpdate(u));
            Related(ids, s, t, small + [Seen(r, v)], big + [Seen(r', v)], v, n + 1)
  {
    UpdateSimulated(ids, alone, full, v, limits, u);
    ViewGrows(ids, small, big, Seen(Step(alone, limits, BookUpdate(u)).1, v),
        Seen(Step(full, limits, BookUpdate(u)).1, v));
  }

  lemma CancelRelated(ids: seq<nat>, alone: State, full: State, small: seq<LaneReply>, big: seq<LaneReply>,
                      v: Variant, n: nat, limits: RiskLimits, id: nat)
    requires Related(ids, alone, full, small, big, v, n)
    ensures var (s, r) := Step(alone, limits, CancelOrder(v, Rank(ids, id)));
            var (t, r') := Step(full, limits, CancelOrder(v, id));
            Related(ids, s, t, small + [Seen(r, v)], big + [Seen(r', v)], v, n + 1)
  {
    CancelSimulated(ids, alone, full, v, id);
    var present := id in full.Lane(v);
    ViewGrows(ids, small, big, LaneCancelled(present), LaneCancelled(present));
  }

  lemma QuoteRelated(ids: seq<nat>, alone: State, full: State, small: seq<LaneReply>, big: seq<LaneReply>,
                     v: Variant, n: nat, limits: RiskLimits, e: Event)
    requires Related(ids, alone, full, small, big, v, n) && e.Quote? && e.variant == v
    requires n + 2 < U64_MAX
    ensures var (s, r) := Step(alone, limits, e);
            var (t, r') := Step(full, limits, e);
            Related(if r' == Quoted(Ok([])) then ids + [full.nextId] else ids, s, t,
                    small + [Seen(r, v)], big + [Seen(r', v)], v, n + 1)
  {
    var (s, r) := AfterQuote(alone, limits, v, e.intent, e.bookStale, e.latencyMs);
    var (t, r') := AfterQuote(full, limits, v, e.intent, e.bookStale, e.latencyMs);
    QuoteSimulated(ids, alone, full, v, limits, e.intent, e.bookStale, e.latencyMs);
    assert Step(alone, limits, e) == (s, Quoted(r)) && Step(full, limits, e) == (t, Quoted(r'));
    if r.Ok? {
      LongerNames(ids, full.nextId, small, big);
      ViewGrows(ids + [full.nextId], small, big, LaneQuoted(r), LaneQuoted(r));
      assert Related(ids + [full.nextId], s, t, small + [LaneQuoted(r)], big + [LaneQuoted(r')], v, n + 1);
    } else {
      ViewGrows(ids, small, big, LaneQuoted(r), LaneQuoted(r));
      assert Related(ids, s, t, small + [LaneQuoted(r)], big + [LaneQuoted(r')], v, n + 1);
    }
  }

  lemma NothingAdded<T>(s: seq<T>)
    ensures s + [] == s
  {}

  lemma RunGrows(limits: RiskLimits, events: seq<Event>, e: Event, v: Variant)
    ensures var (s, r) := Step(After(limits, events), limits, e);
            && After(limits, events + [e]) == s
            && LaneView(limits, events + [e], v)
                == LaneView(limits, events, v) + (if Concerns(e, v) then [Seen(r, v)] else [])
            && LaneIds(limits, events + [e], v)
               == LaneIds(limits, events, v)
                  + (if e.Quote? && e.variant == v && r == Quoted(Ok([])) then [After(limits, events).nextId] else [])
            && Alone(limits, events + [e], v)
               == Alone(limits, events, v)
                  + (if !Concerns(e, v) then []
                     else if e.CancelOrder? then [CancelOrder(v, Rank(LaneIds(limits, events, v), e.id))]
                     else [e])
  {
    assert (events + [e])[..|events + [e]| - 1] == events;
  }

  /** Lane non-interference: over every run, one variant's replies (its quote
      results, cancel results and fills) and its resting orders are those of the
      run with the other variant's quotes and cancels deleted, up to a strictly
      increasing renaming of order ids. The bound on the run's length only keeps
      the id counter below its saturation point. */
  lemma {:induction false} LanesDoNotInterfere(limits: RiskLimits, events: seq<Event>, v: Variant)
    requires |events| + 2 < U64_MAX
    ensures var ids, alone := LaneIds(limits, events, v), Alone(limits, events, v);
            Related(ids, After(limits, alone), After(limits, events),
                    LaneView(limits, alone, v), LaneView(limits, events, v), v, |events|)
  {
    if events == [] {
      assert After(limits, []) == INITIAL;
    } else {
      var before, e := events[..|events| - 1], events[|events| - 1];
      LanesDoNotInterfere(limits, before, v);
      assert before + [e] == events;
      RunGrows(limits, before, e, v);
      var ids, alone := LaneIds(limits, before, v), Alone(limits, before, v);
      var s, t := After(limits, alone), After(limits, before);
      var small, big := LaneView(limits, alone, v), LaneView(limits, before, v);
      NothingAdded(ids);
      NothingAdded(alone);
      NothingAdded(big);
      if !Concerns(e, v) {
        ForeignRelated(ids, s, t, small, big, v, |before|, limits, e);
      } else if e.BookUpdate? {
        RunGrows(limits, alone, e, v);
        UpdateRelated(ids, s, t, small, big, v, |before|, limits, e.update);
      } else if e.CancelOrder? {
        RunGrows(limits, alone, CancelOrder(v, Rank(ids, e.id)), v);
        CancelRelated(ids, s, t, small, big, v, |before|, limits, e.id);
      } else {
        RunGrows(limits, alone, e, v);
        QuoteRelated(ids, s, t, small, big, v, |before|, limits, e);
      }
    }
  }

  /** Ids are unique across lanes: in every run the two books share no id, and
      every resting id was drawn from the sequence. */
  lemma {:induction false} LanesShareNoId(limits: RiskLimits, events: seq<Event>)
    requires |events| + 1 < U64_MAX
    ensures OwnIds(After(limits, events)) && After(limits, events).nextId <= |events| + 1
  {
    if events != [] {
      var before := events[..|events| - 1];
      LanesShareNoId(limits, before);
      StepKeepsOwnIds(After(limits, before), limits, events[|events| - 1]);
    }
  }

  /** The two books share no id, and every resting id was drawn from the sequence. */
  ghost predicate OwnIds(s: State) {
    && s.control.Keys !! s.quant.Keys
    && (forall id :: id in s.control || id in s.quant ==> 1 <= id < s.nextId)
    && 1 <= s.nextId
  }

  lemma StepKeepsOwnIds(s: State, limits: RiskLimits, e: Event)
    requires s.Valid() && OwnIds(s) && s.nextId < U64_MAX
    ensures OwnIds(Step(s, limits, e).0) && Step(s, limits, e).0.nextId <= s.nextId + 1
  {
    var s' := Step(s, limits, e).0;
    match e
    case Quote(v, intent, bookStale, latencyMs) =>
      assert s' == AfterQuote(s, limits, v, intent, bookStale, latencyMs).0;
      QuoteKeepsOwnIds(s, limits, v, intent, bookStale, latencyMs);
    case CancelOrder(v, id) =>
      assert s' == s.WithLane(v, s.Lane(v) - {id});
    case BookUpdate(u) =>
      assert s'.control.Keys <= s.control.Keys && s'.quant.Keys <= s.quant.Keys;
  }

  lemma QuoteKeepsOwnIds(s: State, limits: RiskLimits, v: Variant, intent: QuoteIntent, bookStale: bool, latencyMs: nat)
    requires OwnIds(s) && s.nextId < U64_MAX
    ensures var s' := AfterQuote(s, limits, v, intent, bookStale, latencyMs).0;
            OwnIds(s') && s'.nextId <= s.nextId + 1
  {
    QuoteOutcome(s, limits, v, intent, bookStale, latencyMs);
    PlacingKeepsOwnIds(s, v, intent);
  }

  lemma PlacingKeepsOwnIds(s: State, v: Variant, intent: QuoteIntent)
    requires OwnIds(s) && s.nextId < U64_MAX
    ensures OwnIds(Placing(s, v, intent)) && Placing(s, v, intent).nextId == s.nextId + 1
  {
    assert Placing(s, v, intent).Lane(v).Keys == s.Lane(v).Keys + {s.nextId};
  }
}

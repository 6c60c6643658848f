// Conservation over whole runs of the paper matcher: no unit of an order is
// lost, duplicated or filled away from the order's own price.
module PaperLedger {
  import opened Domain
  import opened PaperBook
  import opened PaperMatching

  datatype BookEvent = Place(order: PaperOrder) | Cancel(id: nat) | Update(update: TopOfBookUpdate)

  datatype Entry = Placed(order: PaperOrder) | Filled(fill: PaperFill) | Cancelled(id: nat, remainder: nat)

  datatype Run = Run(book: Resting, log: seq<Entry>)

  function FillEntries(fills: seq<PaperFill>): (es: seq<Entry>)
    ensures |es| == |fills|
  {
    seq(|fills|, k requires 0 <= k < |fills| => Filled(fills[k]))
  }

  /** One call on the book, with what it did appended to the log. Rejected
      placements and cancels of absent orders leave no trace. */
  ghost function Step(s: Run, ratio: real, e: BookEvent): (s': Run)
    requires WellFormed(s.book) && 0.0 <= ratio <= 1.0
    ensures WellFormed(s'.book)
  {
    match e
    case Place(o) =>
      if Validate(o).Some? || o.id in s.book then s
      else Run(s.book[o.id := RestingOrder(o, o.size, 0)], s.log + [Placed(o)])
    case Cancel(id) =>
      if id !in s.book then s
      else Run(s.book - {id}, s.log + [Cancelled(id, s.book[id].remaining)])
    case Update(u) =>
      var m := AfterUpdate(s.book, ratio, u);
      Run(m.book, s.log + FillEntries(m.fills))
  }

  /** The state after a sequence of calls on an empty book. */
  ghost function Outcome(events: seq<BookEvent>, ratio: real): (s: Run)
    requires 0.0 <= ratio <= 1.0
    ensures WellFormed(s.book)
  {
    if events == [] then Run(map[], [])
    else Step(Outcome(events[..|events| - 1], ratio), ratio, events[|events| - 1])
  }

  function PlacedSize(log: seq<Entry>, id: nat): nat {
    if log == [] then 0
    else
      var e := log[|log| - 1];
      PlacedSize(log[..|log| - 1], id) + if e.Placed? && e.order.id == id then e.order.size else 0
  }

  function FilledSize(log: seq<Entry>, id: nat): nat {
    if log == [] then 0
    else
      var e := log[|log| - 1];
      FilledSize(log[..|log| - 1], id) + if e.Filled? && e.fill.orderId == id then e.fill.size else 0
  }

  function CancelledSize(log: seq<Entry>, id: nat): nat {
    if log == [] then 0
    else
      var e := log[|log| - 1];
      CancelledSize(log[..|log| - 1], id) + if e.Cancelled? && e.id == id then e.remainder else 0
  }

  function RemainingSize(book: Resting, id: nat): nat {
    if id in book then book[id].remaining else 0
  }

  lemma {:induction false} FillsInLog(log: seq<Entry>, fills: seq<PaperFill>, id: nat)
    ensures var log' := log + FillEntries(fills);
            && FilledSize(log', id) == FilledSize(log, id) + SizeFilled(fills, id)
            && PlacedSize(log', id) == PlacedSize(log, id)
            && CancelledSize(log', id) == CancelledSize(log, id)
  {
    if fills == [] {
      assert log + FillEntries(fills) == log;
    } else {
      var shorter := fills[..|fills| - 1];
      FillsInLog(log, shorter, id);
      var log' := log + FillEntries(fills);
      assert log'[..|log'| - 1] == log + FillEntries(shorter);
    }
  }

  /** An update does not touch what is not in the book. */
  lemma UpdateIgnores(r: Resting, ratio: real, u: TopOfBookUpdate, id: nat)
    requires WellFormed(r) && 0.0 <= ratio <= 1.0 && id !in r
    ensures SizeFilled(AfterUpdate(r, ratio, u).fills, id) == 0
  {
    var through, touch := TwoPhases(r, ratio, u);
    QueuePasses(r, ThroughQueue(r, u), u.askSize, u.atMs, TradeThrough, id);
    QueuePasses(through.book, TouchQueue(r, u), TouchCapacity(ratio, u.marketableSize), u.atMs, Touch, id);
    SizeFilledAppend(through.fills, touch.fills, id);
  }

  /** Conservation, for every id and every run: what was placed is what was
      filled, plus what cancels discarded, plus what still rests. */
  lemma {:induction false} Conservation(events: seq<BookEvent>, ratio: real, id: nat)
    requires 0.0 <= ratio <= 1.0
    ensures Balanced(Outcome(events, ratio), id)
  {
    if events != [] {
      var before, e := events[..|events| - 1], events[|events| - 1];
      Conservation(before, ratio, id);
      var s := Outcome(before, ratio);
      if e.Update? {
        UpdateConserves(s, ratio, e.update, id);
      } else {
        PlaceOrCancelConserves(s, ratio, e, id);
      }
    }
  }

  ghost predicate Balanced(s: Run, id: nat) {
    PlacedSize(s.log, id) == FilledSize(s.log, id) + CancelledSize(s.log, id) + RemainingSize(s.book, id)
  }

  lemma PlaceOrCancelConserves(s: Run, ratio: real, e: BookEvent, id: nat)
    requires WellFormed(s.book) && 0.0 <= ratio <= 1.0 && !e.Update? && Balanced(s, id)
    ensures Balanced(Step(s, ratio, e), id)
  {
    var s' := Step(s, ratio, e);
    if s' != s {
      var entry := if e.Place? then Placed(e.order) else Cancelled(e.id, s.book[e.id].remaining);
      assert s'.log == s.log + [entry];
      OneEntry(s.log, entry, id);
    }
  }

  lemma OneEntry(log: seq<Entry>, e: Entry, id: nat)
    ensures PlacedSize(log + [e], id) == PlacedSize(log, id) + if e.Placed? && e.order.id == id then e.order.size else 0
    ensures FilledSize(log + [e], id)
            == FilledSize(log, id) + if e.Filled? && e.fill.orderId == id then e.fill.size else 0
    ensures CancelledSize(log + [e], id)
            == CancelledSize(log, id) + if e.Cancelled? && e.id == id then e.remainder else 0
  {
    assert (log + [e])[..|log|] == log;
  }

  lemma UpdateConserves(s: Run, ratio: real, u: TopOfBookUpdate, id: nat)
    requires WellFormed(s.book) && 0.0 <= ratio <= 1.0
    ensures var s' := Step(s, ratio, Update(u));
            && PlacedSize(s'.log, id) == PlacedSize(s.log, id)
            && CancelledSize(s'.log, id) == CancelledSize(s.log, id)
            && FilledSize(s'.log, id) + RemainingSize(s'.book, id) == FilledSize(s.log, id) + RemainingSize(s.book, id)
  {
    FillsInLog(s.log, AfterUpdate(s.book, ratio, u).fills, id);
    if id in s.book {
      UpdateAllots(s.book, ratio, u, id);
    } else {
      UpdateIgnores(s.book, ratio, u, id);
    }
  }

  /** The last order placed under an id. */
  function LastPlaced(log: seq<Entry>, id: nat): Option<PaperOrder> {
    if log == [] then None
    else
      var e := log[|log| - 1];
      if e.Placed? && e.order.id == id then Some(e.order) else LastPlaced(log[..|log| - 1], id)
  }

  /** Every resting order is the last one placed under its id, and every fill is of
      at least one unit at the limit price of the last order placed before it under
      its id. */
  ghost predicate Accounted(s: Run) {
    && (forall id :: id in s.book ==> LastPlaced(s.log, id) == Some(s.book[id].order))
    && forall k :: 0 <= k < |s.log| && s.log[k].Filled? ==> FilledAtLimit(s.log[..k], s.log[k].fill)
  }

  ghost predicate FilledAtLimit(before: seq<Entry>, f: PaperFill) {
    && f.size >= 1
    && LastPlaced(before, f.orderId).Some? && LastPlaced(before, f.orderId).value.price == f.price
  }

  lemma {:induction false} FillsPlaceNothing(log: seq<Entry>, fills: seq<PaperFill>, id: nat)
    ensures LastPlaced(log + FillEntries(fills), id) == LastPlaced(log, id)
  {
    var log' := log + FillEntries(fills);
    if fills == [] {
      assert log' == log;
    } else {
      var shorter := fills[..|fills| - 1];
      FillsPlaceNothing(log, shorter, id);
      assert log'[..|log'| - 1] == log + FillEntries(shorter);
    }
  }

  lemma FillsAccounted(s: Run, fills: seq<PaperFill>, k: nat)
    requires Accounted(s) && k < |fills|
    requires forall f :: f in fills ==> f.size >= 1 && f.orderId in s.book && f.price == s.book[f.orderId].order.price
    ensures FilledAtLimit((s.log + FillEntries(fills))[..|s.log| + k], fills[k])
  {
    assert fills[k] in fills;
    assert (s.log + FillEntries(fills))[..|s.log| + k] == s.log + FillEntries(fills[..k]);
    FillsPlaceNothing(s.log, fills[..k], fills[k].orderId);
  }

  lemma FillsKeepAccounted(s: Run, book: Resting, fills: seq<PaperFill>)
    requires Accounted(s) && forall id :: id in book ==> id in s.book && book[id].order == s.book[id].order
    requires forall f :: f in fills ==> f.size >= 1 && f.orderId in s.book && f.price == s.book[f.orderId].order.price
    ensures Accounted(Run(book, s.log + FillEntries(fills)))
  {
    var log' := s.log + FillEntries(fills);
    forall k | 0 <= k < |log'| && log'[k].Filled? ensures FilledAtLimit(log'[..k], log'[k].fill) {
      if k < |s.log| {
        assert log'[..k] == s.log[..k];
      } else {
        FillsAccounted(s, fills, k - |s.log|);
      }
    }
    forall id | id in book ensures LastPlaced(log', id) == Some(book[id].order) {
      FillsPlaceNothing(s.log, fills, id);
    }
  }

  lemma UpdateAccounted(s: Run, ratio: real, u: TopOfBookUpdate)
    requires WellFormed(s.book) && 0.0 <= ratio <= 1.0 && Accounted(s)
    ensures Accounted(Step(s, ratio, Update(u)))
  {
    UpdateFillsAtLimit(s.book, ratio, u);
    var m := AfterUpdate(s.book, ratio, u);
    FillsKeepAccounted(s, m.book, m.fills);
  }

  lemma PlaceOrCancelAccounted(s: Run, ratio: real, e: BookEvent)
    requires WellFormed(s.book) && 0.0 <= ratio <= 1.0 && Accounted(s) && !e.Update?
    ensures Accounted(Step(s, ratio, e))
  {
    var s' := Step(s, ratio, e);
    if s' != s {
      assert s'.log[..|s.log|] == s.log;
      forall k | 0 <= k < |s'.log| && s'.log[k].Filled? ensures FilledAtLimit(s'.log[..k], s'.log[k].fill) {
        assert s'.log[..k] == s.log[..k];
      }
    }
  }

  lemma {:induction false} RunAccounted(events: seq<BookEvent>, ratio: real)
    requires 0.0 <= ratio <= 1.0
    ensures Accounted(Outcome(events, ratio))
  {
    if events != [] {
      var before, e := events[..|events| - 1], events[|events| - 1];
      RunAccounted(before, ratio);
      var s := Outcome(before, ratio);
      match e
      case Update(u) => UpdateAccounted(s, ratio, u);
      case _ => PlaceOrCancelAccounted(s, ratio, e);
    }
  }

  // ----- The life of one placement -----

  /** A placement in the log is one call, made while its id was free; the log so
      far is the log of the run before it. */
  lemma {:induction false} PlacementCall(events: seq<BookEvent>, ratio: real, j: nat) returns (k: nat)
    requires 0.0 <= ratio <= 1.0
    requires var log := Outcome(events, ratio).log; j < |log| && log[j].Placed?
    ensures k < |events|
    ensures var s, before := Outcome(events, ratio), Outcome(events[..k], ratio);
            before.log == s.log[..j] && s.log[j].order.id !in before.book
  {
    var last := |events| - 1;
    var before := Outcome(events[..last], ratio);
    var s := Outcome(events, ratio);
    LogGrows(before, ratio, events[last]);
    if j < |before.log| {
      k := PlacementCall(events[..last], ratio, j);
      assert events[..last][..k] == events[..k];
      assert before.log[..j] == s.log[..j];
    } else {
      k := last;
      PlacedLast(before, ratio, events[last], j);
    }
  }

  lemma LogGrows(s: Run, ratio: real, e: BookEvent)
    requires WellFormed(s.book) && 0.0 <= ratio <= 1.0
    ensures s.log <= Step(s, ratio, e).log
  {}

  lemma PlacedLast(s: Run, ratio: real, e: BookEvent, j: nat)
    requires WellFormed(s.book) && 0.0 <= ratio <= 1.0
    requires |s.log| <= j < |Step(s, ratio, e).log| && Step(s, ratio, e).log[j].Placed?
    ensures s.log == Step(s, ratio, e).log[..j] && Step(s, ratio, e).log[j].order.id !in s.book
  {}

  lemma {:induction false} SizesAppend(a: seq<Entry>, b: seq<Entry>, id: nat)
    ensures PlacedSize(a + b, id) == PlacedSize(a, id) + PlacedSize(b, id)
    ensures FilledSize(a + b, id) == FilledSize(a, id) + FilledSize(b, id)
    ensures CancelledSize(a + b, id) == CancelledSize(a, id) + CancelledSize(b, id)
  {
    if b == [] {
      assert a + b == a;
    } else {
      var front, last := b[..|b| - 1], b[|b| - 1];
      SizesAppend(a, front, id);
      OneEntry(a + front, last, id);
      OneEntry(front, last, id);
      assert a + b == a + front + [last] && b == front + [last];
    }
  }

  /** The log from placement `j` up to `e`, with no other placement of the id, and
      `e` either the next one or the end of the log. */
  ghost predicate IsLife(log: seq<Entry>, j: nat, e: nat) {
    && j < e <= |log| && log[j].Placed?
    && (forall i :: j < i < e && log[i].Placed? ==> log[i].order.id != log[j].order.id)
    && (e < |log| ==> log[e].Placed? && log[e].order.id == log[j].order.id)
  }

  lemma {:induction false} PlacedOnce(log: seq<Entry>, o: PaperOrder)
    requires log != [] && log[0] == Placed(o)
    requires forall i :: 0 < i < |log| && log[i].Placed? ==> log[i].order.id != o.id
    ensures PlacedSize(log, o.id) == o.size && LastPlaced(log, o.id) == Some(o)
  {
    var front := log[..|log| - 1];
    if front == [] {
      assert PlacedSize(front, o.id) == 0;
    } else {
      PlacedOnce(front, o);
    }
  }

  lemma {:induction false} LastPlacedAppend(a: seq<Entry>, b: seq<Entry>, id: nat)
    requires LastPlaced(b, id).Some?
    ensures LastPlaced(a + b, id) == LastPlaced(b, id)
  {
    assert (a + b)[..|a + b| - 1] == a + b[..|b| - 1];
    if LastPlaced(b[..|b| - 1], id).Some? {
      LastPlacedAppend(a, b[..|b| - 1], id);
    }
  }

  /** The size placed and what became of it, at the end of a life. */
  lemma LifeBalance(events: seq<BookEvent>, ratio: real, j: nat, e: nat)
    requires 0.0 <= ratio <= 1.0 && IsLife(Outcome(events, ratio).log, j, e)
    ensures var s := Outcome(events, ratio);
            var o, life := s.log[j].order, s.log[j..e];
            o.size == FilledSize(life, o.id) + CancelledSize(life, o.id)
                + if e == |s.log| then RemainingSize(s.book, o.id) else 0
  {
    var s := Outcome(events, ratio);
    var o, life := s.log[j].order, s.log[j..e];
    BalanceAt(events, ratio, j, o.id);
    BalanceAt(events, ratio, e, o.id);
    assert s.log[..e] == s.log[..j] + life;
    SizesAppend(s.log[..j], life, o.id);
    LifeStarts(s.log, j, e);
    PlacedOnce(life, o);
  }

  lemma LifeStarts(log: seq<Entry>, j: nat, e: nat)
    requires IsLife(log, j, e)
    ensures log[j..e] != [] && log[j..e][0] == Placed(log[j].order)
    ensures forall i :: 0 < i < |log[j..e]| && log[j..e][i].Placed? ==> log[j..e][i].order.id != log[j].order.id
  {
    forall i | 0 <= i < |log[j..e]| ensures log[j..e][i] == log[j + i] {}
  }

  /** Conservation where an id is placed, and at the end of the run. */
  lemma BalanceAt(events: seq<BookEvent>, ratio: real, e: nat, id: nat)
    requires 0.0 <= ratio <= 1.0 && e <= |Outcome(events, ratio).log|
    requires var log := Outcome(events, ratio).log; e < |log| ==> log[e].Placed? && log[e].order.id == id
    ensures var s := Outcome(events, ratio);
            PlacedSize(s.log[..e], id)
            == FilledSize(s.log[..e], id) + CancelledSize(s.log[..e], id)
               + if e == |s.log| then RemainingSize(s.book, id) else 0
  {
    var log := Outcome(events, ratio).log;
    if e < |log| {
      var k := PlacementCall(events, ratio, e);
      Conservation(events[..k], ratio, id);
    } else {
      Conservation(events, ratio, id);
      assert log[..e] == log;
    }
  }

  /** Within a life the order is the last one placed under its id. */
  lemma LifeOrder(log: seq<Entry>, j: nat, e: nat, k: nat)
    requires IsLife(log, j, e) && j < k <= e
    ensures LastPlaced(log[..k], log[j].order.id) == Some(log[j].order)
  {
    var o := log[j].order;
    forall i | 0 <= i < |log[j..k]| ensures log[j..k][i] == log[j + i] {}
    PlacedOnce(log[j..k], o);
    LastPlacedAppend(log[..j], log[j..k], o.id);
    assert log[..k] == log[..j] + log[j..k];
  }

  /** The life of an order, from its placement to the next placement of its id or
      the end of the run: its size is what was filled and discarded in between plus
      what still rests, and all fills in between are at its own limit price. */
  lemma OrderLife(events: seq<BookEvent>, ratio: real, j: nat, e: nat)
    requires 0.0 <= ratio <= 1.0 && IsLife(Outcome(events, ratio).log, j, e)
    ensures var s := Outcome(events, ratio);
            var o, life := s.log[j].order, s.log[j..e];
            && o.size == FilledSize(life, o.id) + CancelledSize(life, o.id)
                + (if e == |s.log| then RemainingSize(s.book, o.id) else 0)
            && (e == |s.log| && o.id in s.book ==> s.book[o.id].order == o && 1 <= s.book[o.id].remaining <= o.size)
            && forall k :: j < k < e && s.log[k].Filled? && s.log[k].fill.orderId == o.id ==>
                 s.log[k].fill.size >= 1 && s.log[k].fill.price == o.price
  {
    var s := Outcome(events, ratio);
    var o := s.log[j].order;
    LifeBalance(events, ratio, j, e);
    RunAccounted(events, ratio);
    LifeOrder(s.log, j, e, e);
    assert s.log[..|s.log|] == s.log;
    forall k | j < k < e && s.log[k].Filled? && s.log[k].fill.orderId == o.id
      ensures s.log[k].fill.size >= 1 && s.log[k].fill.price == o.price
    {
      LifeOrder(s.log, j, e, k);
      assert FilledAtLimit(s.log[..k], s.log[k].fill);
    }
  }

  // ----- What one call adds to the totals -----

  /** How the totals of an id differ between two logs. */
  predicate Adds(log: seq<Entry>, log': seq<Entry>, id: nat, placed: nat, cancelled: nat, filled: nat) {
    && PlacedSize(log', id) == PlacedSize(log, id) + placed
    && CancelledSize(log', id) == CancelledSize(log, id) + cancelled
    && FilledSize(log', id) == FilledSize(log, id) + filled
  }

  /** A placement adds the size of its order if it is accepted, and nothing else. */
  lemma PlacementAdds(s: Run, ratio: real, o: PaperOrder, id: nat)
    requires WellFormed(s.book) && 0.0 <= ratio <= 1.0
    ensures var s' := Step(s, ratio, Place(o));
            var accepted := o.side == Buy && o.size > 0 && o.price > 0 && o.id !in s.book;
            && s'.book == (if accepted then s.book[o.id := RestingOrder(o, o.size, 0)] else s.book)
            && Adds(s.log, s'.log, id, if accepted && id == o.id then o.size else 0, 0, 0)
  {
    OneEntry(s.log, Placed(o), id);
  }

  /** A cancel adds what was left of its order, and nothing else. */
  lemma CancelAdds(s: Run, ratio: real, gone: nat, id: nat)
    requires WellFormed(s.book) && 0.0 <= ratio <= 1.0
    ensures var s' := Step(s, ratio, Cancel(gone));
            && s'.book == s.book - {gone}
            && Adds(s.log, s'.log, id, 0, if id == gone then RemainingSize(s.book, id) else 0, 0)
  {
    if gone in s.book {
      OneEntry(s.log, Cancelled(gone, s.book[gone].remaining), id);
    }
  }

  /** An update adds what it fills, and nothing else. */
  lemma UpdateAdds(s: Run, ratio: real, u: TopOfBookUpdate, id: nat)
    requires WellFormed(s.book) && 0.0 <= ratio <= 1.0
    ensures var s', m := Step(s, ratio, Update(u)), AfterUpdate(s.book, ratio, u);
            s'.book == m.book && Adds(s.log, s'.log, id, 0, 0, SizeFilled(m.fills, id))
  {
    FillsInLog(s.log, AfterUpdate(s.book, ratio, u).fills, id);
  }

  // ----- Tapes -----

  lemma ReplayEmpty(r: Resting, ratio: real)
    requires WellFormed(r) && 0.0 <= ratio <= 1.0
    ensures AfterReplay(r, ratio, []) == Matched(r, [])
  {}

  /** Each further update of a tape is matched on the book the tape so far leaves,
      and its fills are listed last. */
  lemma ReplayGrows(r: Resting, ratio: real, updates: seq<TopOfBookUpdate>, u: TopOfBookUpdate)
    requires WellFormed(r) && 0.0 <= ratio <= 1.0
    ensures var before := AfterReplay(r, ratio, updates);
            var m := AfterUpdate(before.book, ratio, u);
            AfterReplay(r, ratio, updates + [u]) == Matched(m.book, before.fills + m.fills)
  {
    assert (updates + [u])[..|updates|] == updates;
  }

  /** The second tape is matched on the book that the first one leaves, and its fills
      are listed after those of the first. */
  ghost predicate Joined(r: Resting, ratio: real, a: seq<TopOfBookUpdate>, b: seq<TopOfBookUpdate>)
    requires WellFormed(r) && 0.0 <= ratio <= 1.0
  {
    var first := AfterReplay(r, ratio, a);
    var second := AfterReplay(first.book, ratio, b);
    AfterReplay(r, ratio, a + b) == Matched(second.book, first.fills + second.fills)
  }

  /** Replaying a tape is replaying its parts one after the other. */
  lemma {:induction false} ReplayJoin(r: Resting, ratio: real, a: seq<TopOfBookUpdate>, b: seq<TopOfBookUpdate>)
    requires WellFormed(r) && 0.0 <= ratio <= 1.0
    ensures Joined(r, ratio, a, b)
    decreases |b|
  {
    if b == [] {
      ReplayEmpty(AfterReplay(r, ratio, a).book, ratio);
      assert a + b == a;
    } else {
      var front, last := b[..|b| - 1], b[|b| - 1];
      ReplayJoin(r, ratio, a, front);
      JoinGrows(r, ratio, a, front, last);
      LastSplit(b, front, last);
    }
  }

  lemma LastSplit<T>(s: seq<T>, front: seq<T>, last: T)
    requires s != [] && front == s[..|s| - 1] && last == s[|s| - 1]
    ensures s == front + [last]
  {}

  lemma JoinGrows(r: Resting, ratio: real, a: seq<TopOfBookUpdate>, b: seq<TopOfBookUpdate>, u: TopOfBookUpdate)
    requires WellFormed(r) && 0.0 <= ratio <= 1.0 && Joined(r, ratio, a, b)
    ensures Joined(r, ratio, a, b + [u])
  {
    var first := AfterReplay(r, ratio, a);
    var second := AfterReplay(first.book, ratio, b);
    var m := AfterUpdate(second.book, ratio, u);
    ReplayGrows(first.book, ratio, b, u);
    ReplayGrows(r, ratio, a + b, u);
    Associative(a, b, [u]);
    Associative(first.fills, second.fills, m.fills);
  }

  lemma Associative<T>(a: seq<T>, b: seq<T>, c: seq<T>)
    ensures a + b + c == a + (b + c)
  {}
}

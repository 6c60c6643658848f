// What each call on the execution actor does to its two lanes, in their own
// terms, and what a cancel means for the rest of a run.
module LaneCalls {
  import opened Domain
  import opened PaperBook
  import opened PaperMatching
  import opened ExecutionActor
  import opened LaneIsolation

  /** When a quote is accepted, and which reason it is blocked for otherwise: the
      kill switch, a stale book, the outstanding cap of its own lane, its latency,
      and last the order itself. */
  lemma QuoteAnswer(s: State, limits: RiskLimits, v: Variant, intent: QuoteIntent, bookStale: bool, latencyMs: nat)
    requires s.Valid()
    ensures var r := Step(s, limits, Quote(v, intent, bookStale, latencyMs)).1;
            var open := !limits.killed && !bookStale;
            var room := open && |s.Lane(v)| < limits.maxOutstandingQuotes;
            var timely := room && latencyMs <= limits.maxLatencyMs;
            var sound := intent.side == Buy && intent.size > 0 && intent.price > 0 && s.nextId !in s.Lane(v);
            && (r == Quoted(Err(Killed)) <==> limits.killed)
            && (r == Quoted(Err(StaleBook)) <==> !limits.killed && bookStale)
            && (r == Quoted(Err(TooManyOutstandingQuotes)) <==> open && !room)
            && (r == Quoted(Err(LatencyExceeded)) <==> room && !timely)
            && (r == Quoted(Err(InvalidOrder)) <==> timely && !sound)
            && (r == Quoted(Ok([])) <==> timely && sound)
  {}

  /** What a quote does: nothing unless it is accepted; then exactly one new order
      rests in its own lane, with the terms quoted, whole and untouched. */
  lemma QuoteEffect(s: State, limits: RiskLimits, v: Variant, intent: QuoteIntent, bookStale: bool, latencyMs: nat)
    requires s.Valid()
    ensures var (s', r) := Step(s, limits, Quote(v, intent, bookStale, latencyMs));
            if r != Quoted(Ok([])) then s' == s
            else
              var order := PaperOrder(s.nextId, intent.side, intent.price, intent.size, 0);
              && s'.Lane(v) == s.Lane(v)[s.nextId := RestingOrder(order, intent.size, 0)]
              && s'.Lane(Other(v)) == s.Lane(Other(v))
              && s'.nextId == if s.nextId < 18_446_744_073_709_551_615 then s.nextId + 1 else s.nextId
  {}

  /** What a cancel does: the order is gone from its lane, everything else stays,
      and the reply and the outstanding count say whether it was there. */
  lemma CancelEffect(s: State, limits: RiskLimits, v: Variant, id: nat)
    requires s.Valid()
    ensures var (s', r) := Step(s, limits, CancelOrder(v, id));
            && r == Cancelled(id in s.Lane(v))
            && id !in s'.Lane(v) && s'.Lane(v) == s.Lane(v) - {id}
            && s'.Lane(Other(v)) == s.Lane(Other(v)) && s'.nextId == s.nextId
            && |s'.Lane(v)| == |s.Lane(v)| - One(id in s.Lane(v))
  {
    RemovalCount(s.Lane(v), id);
  }

  /** What an update does: each lane is matched on its own, with a fifth of the
      arriving size offered to touches, and no id is drawn. */
  lemma UpdateEffect(s: State, limits: RiskLimits, v: Variant, u: TopOfBookUpdate)
    requires s.Valid()
    ensures var (s', r) := Step(s, limits, BookUpdate(u));
            && r.Fills? && s'.nextId == s.nextId
            && s'.Lane(v) == AfterUpdate(s.Lane(v), 0.2, u).book
            && r.fills.Of(v) == AfterUpdate(s.Lane(v), 0.2, u).fills
  {}

  // ----- A cancelled order is gone for good -----

  /** The order is not in the lane, and its id will not be drawn again. */
  ghost predicate Gone(s: State, v: Variant, id: nat) {
    id !in s.Lane(v) && id < s.nextId
  }

  lemma GoneStays(s: State, limits: RiskLimits, e: Event, v: Variant, id: nat)
    requires s.Valid() && s.nextId < U64_MAX && Gone(s, v, id)
    ensures Gone(Step(s, limits, e).0, v, id)
    ensures var r := Step(s, limits, e).1;
            r.Fills? ==> forall f :: f in r.fills.Of(v) ==> f.orderId != id
  {
    match e
    case Quote(w, intent, bookStale, latencyMs) =>
      QuoteEffect(s, limits, w, intent, bookStale, latencyMs);
    case CancelOrder(w, k) =>
      CancelEffect(s, limits, w, k);
    case BookUpdate(u) =>
      UpdateEffect(s, limits, v, u);
      UpdateFillsAtLimit(s.Lane(v), 0.2, u);
  }

  lemma AfterOne(limits: RiskLimits, events: seq<Event>, k: nat)
    requires k < |events|
    ensures After(limits, events[..k + 1]) == Step(After(limits, events[..k]), limits, events[k]).0
  {
    assert events[..k + 1][..k] == events[..k];
  }

  lemma NextIdBound(limits: RiskLimits, events: seq<Event>)
    requires |events| + 1 < U64_MAX
    ensures After(limits, events).nextId <= |events| + 1
  {
    LanesShareNoId(limits, events);
  }

  lemma GoneNext(limits: RiskLimits, events: seq<Event>, v: Variant, id: nat, k: nat)
    requires |events| + 2 < U64_MAX && k < |events| && Gone(After(limits, events[..k]), v, id)
    ensures Gone(After(limits, events[..k + 1]), v, id)
  {
    NextIdBound(limits, events[..k]);
    GoneStays(After(limits, events[..k]), limits, events[k], v, id);
    AfterOne(limits, events, k);
  }

  lemma {:induction false} GoneThroughout(states: seq<State>, v: Variant, id: nat, j: nat, n: nat)
    requires j <= n < |states| && Gone(states[j], v, id)
    requires forall k :: j <= k < n && Gone(states[k], v, id) ==> Gone(states[k + 1], v, id)
    ensures Gone(states[n], v, id)
    decreases n
  {
    if j < n {
      GoneThroughout(states, v, id, j, n - 1);
    }
  }

  ghost function States(limits: RiskLimits, events: seq<Event>): (states: seq<State>)
    ensures |states| == |events| + 1 && forall k :: 0 <= k <= |events| ==> states[k] == After(limits, events[..k])
  {
    seq(|events| + 1, k requires 0 <= k <= |events| => After(limits, events[..k]))
  }

  lemma GoneAfter(limits: RiskLimits, events: seq<Event>, v: Variant, id: nat, j: nat, n: nat)
    requires |events| + 2 < U64_MAX && j <= n <= |events| && Gone(States(limits, events)[j], v, id)
    ensures Gone(States(limits, events)[n], v, id)
  {
    var states := States(limits, events);
    forall k | j <= k < n && Gone(states[k], v, id) ensures Gone(states[k + 1], v, id) {
      GoneNext(limits, events, v, id, k);
    }
    GoneThroughout(states, v, id, j, n);
  }

  /** Over every run: once a cancel of an order is accepted, the order never rests
      in its lane again, and no later update returns a fill for it there. */
  lemma CancelledNeverFills(limits: RiskLimits, events: seq<Event>, v: Variant, id: nat, j: nat, n: nat)
    requires |events| + 2 < U64_MAX && j < n < |events| && events[j] == CancelOrder(v, id)
    requires Step(After(limits, events[..j]), limits, events[j]).1 == Cancelled(true)
    ensures id !in After(limits, events[..n]).Lane(v)
    ensures var r := Step(After(limits, events[..n]), limits, events[n]).1;
            r.Fills? ==> forall f :: f in r.fills.Of(v) ==> f.orderId != id
  {
    var s := After(limits, events[..j]);
    LanesShareNoId(limits, events[..j]);
    CancelEffect(s, limits, v, id);
    AfterOne(limits, events, j);
    GoneAfter(limits, events, v, id, j + 1, n);
    NextIdBound(limits, events[..n]);
    GoneStays(After(limits, events[..n]), limits, events[n], v, id);
  }
}

// The execution actor (src/engine/execution_actor.rs): two paper books, one per
// A/B variant, drawing order ids from one sequence behind a risk gate
// (src/strategy/risk.rs).
module ExecutionActor {
  import opened Domain
  import opened PaperBook

  const DEFAULT_FILL_RATIO: real := 0.2

  function Other(v: Variant): Variant {
    if v.Control? then QuantV1 else Control
  }

  datatype RiskBlock = Killed | StaleBook | TooManyOutstandingQuotes | LatencyExceeded | InvalidOrder

  datatype RiskLimits = RiskLimits(maxOutstandingQuotes: nat, maxLatencyMs: nat, killed: bool)

  datatype QuoteIntent = QuoteIntent(side: TradeSide, price: nat, size: nat)

  datatype DualFills = DualFills(control: seq<PaperFill>, quant: seq<PaperFill>) {
    function Of(v: Variant): seq<PaperFill> {
      if v.Control? then control else quant
    }
  }

  /** `RiskGate::check`: the kill switch has precedence over other reasons. */
  function RiskCheck(limits: RiskLimits, latencyMs: nat, outstanding: nat, bookStale: bool): Option<RiskBlock> {
    if limits.killed then Some(Killed)
    else if bookStale then Some(StaleBook)
    else if outstanding >= limits.maxOutstandingQuotes then Some(TooManyOutstandingQuotes)
    else if latencyMs > limits.maxLatencyMs then Some(LatencyExceeded)
    else None
  }

  datatype Event =
    | Quote(variant: Variant, intent: QuoteIntent, bookStale: bool, latencyMs: nat)
    | CancelOrder(variant: Variant, id: nat)
    | BookUpdate(update: TopOfBookUpdate)

  datatype Reply =
    | Quoted(result: Result<seq<PaperFill>, RiskBlock>)
    | Cancelled(present: bool)
    | Fills(fills: DualFills)

  datatype State = State(control: Resting, quant: Resting, nextId: nat) {
    function Lane(v: Variant): Resting {
      if v.Control? then control else quant
    }

    function WithLane(v: Variant, lane: Resting): State {
      if v.Control? then this.(control := lane) else this.(quant := lane)
    }

    ghost predicate Valid() {
      WellFormed(control) && WellFormed(quant)
    }
  }

  lemma RemovalCount(lane: Resting, id: nat)
    ensures |lane - {id}| == |lane| - One(id in lane)
  {
    assert (lane - {id}).Keys == lane.Keys - {id};
  }

  function OrderOf(id: nat, intent: QuoteIntent): PaperOrder {
    PaperOrder(id, intent.side, intent.price, intent.size, 0)
  }

  /** `on_quote` on a state value. A placed quote rests and fills nothing. */
  function AfterQuote(s: State, limits: RiskLimits, v: Variant, intent: QuoteIntent, bookStale: bool, latencyMs: nat)
      : (State, Result<seq<PaperFill>, RiskBlock>)
  {
    var lane := s.Lane(v);
    var order := OrderOf(s.nextId, intent);
    match RiskCheck(limits, latencyMs, |lane|, bookStale)
    case Some(block) => (s, Err(block))
    case None =>
      if Validate(order).Some? || s.nextId in lane then (s, Err(InvalidOrder))
      else
        var placed := lane[s.nextId := RestingOrder(order, order.size, 0)];
        (s.WithLane(v, placed).(nextId := SatIncrement(s.nextId)), Ok([]))
  }

  /** One call on the actor, with its reply. */
  ghost function Step(s: State, limits: RiskLimits, e: Event): (State, Reply)
    requires s.Valid()
    ensures Step(s, limits, e).0.Valid()
  {
    match e
    case Quote(v, intent, bookStale, latencyMs) =>
      var (s', result) := AfterQuote(s, limits, v, intent, bookStale, latencyMs);
      (s', Quoted(result))
    case CancelOrder(v, id) =>
      (s.WithLane(v, s.Lane(v) - {id}), Cancelled(id in s.Lane(v)))
    case BookUpdate(u) =>
      var control := AfterUpdate(s.control, DEFAULT_FILL_RATIO, u);
      var quant := AfterUpdate(s.quant, DEFAULT_FILL_RATIO, u);
      (State(control.book, quant.book, s.nextId), Fills(DualFills(control.fills, quant.fills)))
  }

  /** `ExecutionActor`: the mutable actor. */
  class Actor {
    const limits: RiskLimits
    const controlBook: Book
    const quantBook: Book
    var nextOrderId: nat

    ghost predicate Valid()
      reads this, controlBook, quantBook
    {
      && controlBook != quantBook
      && controlBook.Valid() && controlBook.ratio == DEFAULT_FILL_RATIO
      && quantBook.Valid() && quantBook.ratio == DEFAULT_FILL_RATIO
    }

    ghost function Value(): State
      reads this, controlBook, quantBook
    {
      State(controlBook.resting, quantBook.resting, nextOrderId)
    }

    constructor (riskLimits: RiskLimits)
      ensures Valid() && fresh(controlBook) && fresh(quantBook)
      ensures limits == riskLimits && Value() == State(map[], map[], 1)
    {
      limits := riskLimits;
      controlBook := new Book(DEFAULT_FILL_RATIO);
      quantBook := new Book(DEFAULT_FILL_RATIO);
      nextOrderId := 1;
    }

    function BookOf(v: Variant): Book {
      if v.Control? then controlBook else quantBook
    }

    /** Applies the risk gate, then rests the quote in its variant's book. */
    method OnQuote(v: Variant, intent: QuoteIntent, bookStale: bool, latencyMs: nat)
        returns (result: Result<seq<PaperFill>, RiskBlock>)
      requires Valid()
      modifies this, controlBook, quantBook
      ensures Valid()
      ensures (Value(), Quoted(result)) == Step(old(Value()), limits, Quote(v, intent, bookStale, latencyMs))
      ensures result.Err? ==> Value() == old(Value())
      ensures result.Ok? ==> result.value == [] && nextOrderId == SatIncrement(old(nextOrderId))
      ensures result.Ok? ==> Value().Lane(Other(v)) == old(Value().Lane(Other(v)))
      ensures result.Ok? ==>
        var order := PaperOrder(old(nextOrderId), intent.side, intent.price, intent.size, 0);
        Value().Lane(v) == old(Value().Lane(v))[old(nextOrderId) := RestingOrder(order, intent.size, 0)]
    {
      var blocked := RiskCheck(limits, latencyMs, |BookOf(v).resting|, bookStale);
      if blocked.Some? {
        return Err(blocked.value);
      }
      var order := OrderOf(nextOrderId, intent);
      if Validate(order).Some? {
        return Err(InvalidOrder);
      }
      var placed := BookOf(v).Place(order);
      if placed.Err? {
        return Err(InvalidOrder);
      }
      nextOrderId := SatIncrement(nextOrderId);
      return Ok([]);
    }

    /** Forwards one market update to both books. */
    method OnBookUpdate(u: TopOfBookUpdate) returns (fills: DualFills)
      requires Valid()
      modifies this, controlBook, quantBook
      ensures Valid()
      ensures (Value(), Fills(fills)) == Step(old(Value()), limits, BookUpdate(u))
      ensures nextOrderId == old(nextOrderId)
      ensures Matched(controlBook.resting, fills.control) == AfterUpdate(old(controlBook.resting), 0.2, u)
      ensures Matched(quantBook.resting, fills.quant) == AfterUpdate(old(quantBook.resting), 0.2, u)
    {
      var control := controlBook.ApplyUpdate(u);
      var quant := quantBook.ApplyUpdate(u);
      fills := DualFills(control, quant);
    }

    method Cancel(v: Variant, id: nat) returns (present: bool)
      requires Valid()
      modifies this, controlBook, quantBook
      ensures Valid()
      ensures (Value(), Cancelled(present)) == Step(old(Value()), limits, CancelOrder(v, id))
      ensures present <==> id in old(Value().Lane(v))
      ensures v.Control? ==> controlBook.resting == old(controlBook.resting) - {id} && id !in controlBook.resting
      ensures v.Control? ==> quantBook.resting == old(quantBook.resting)
      ensures v.QuantV1? ==> quantBook.resting == old(quantBook.resting) - {id} && id !in quantBook.resting
      ensures v.QuantV1? ==> controlBook.resting == old(controlBook.resting)
      ensures nextOrderId == old(nextOrderId)
      ensures |Value().Lane(v)| == |old(Value().Lane(v))| - One(present)
    {
      RemovalCount(BookOf(v).resting, id);
      present := BookOf(v).Cancel(id);
    }

    method Outstanding(v: Variant) returns (n: nat)
      requires Valid()
      ensures n == |Value().Lane(v)|
    {
      n := |BookOf(v).resting|;
    }
  }
}

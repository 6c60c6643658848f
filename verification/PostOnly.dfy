// Post-only pricing (src/engine/pipeline.rs) and its composition with the
// matcher: a quote decided on a book can never be filled by that same book.
module PostOnly {
  import opened Domain
  import opened Arithmetic
  import opened OrderBook
  import PaperBook
  import PaperMatching
  import ExecutionActor

  type QuoteIntent = ExecutionActor.QuoteIntent

  const MAX_PRICE: nat := 1_000_000

  /** The part of a market snapshot the decision reads. */
  datatype Market = Market(bids: seq<Level>, asks: seq<Level>, bookStale: bool, stale: bool) {
    function BestBid(): Option<nat> {
      if bids == [] then None else Some(bids[0].price)
    }

    function BestAsk(): Option<nat> {
      if asks == [] then None else Some(asks[0].price)
    }
  }

  datatype SkipReason = SizeZero | StaleBook | MissingBid | MissingAsk | InvalidCandidate | StrategyRejected

  datatype Outcome = Quote(intent: QuoteIntent) | Skip(reason: SkipReason)

  function DivCeil(a: nat, b: nat): nat
    requires b > 0
  {
    if a % b == 0 then a / b else a / b + 1
  }

  /** `candidate_maker_price`: one tick above the bid, rounded up to the grid. */
  function Candidate(bestBid: nat, tick: nat): Option<nat> {
    if tick == 0 then None
    else if bestBid + tick > U64_MAX then None
    else
      var increments := DivCeil(bestBid + tick, tick);
      if increments * tick > U64_MAX then None
      else if increments * tick <= MAX_PRICE then Some(increments * tick)
      else None
  }

  /** `decide`. The strategy rule is a parameter: its answer may be anything. */
  function Decide(m: Market, tick: nat, size: nat, strategy: Option<QuoteIntent>): Outcome {
    if size == 0 then Skip(SizeZero)
    else if m.stale || m.bookStale then Skip(StaleBook)
    else if m.BestBid().None? then Skip(MissingBid)
    else if m.BestAsk().None? then Skip(MissingAsk)
    else
      match Candidate(m.BestBid().value, tick)
      case None => Skip(InvalidCandidate)
      case Some(candidate) =>
        if candidate >= m.BestAsk().value then Skip(InvalidCandidate)
        else
          match strategy
          case None => Skip(StrategyRejected)
          case Some(intent) => if intent.price == candidate then Quote(intent) else Skip(InvalidCandidate)
  }

  /** `p` is the least multiple of `tick` that is at least `floor`. */
  ghost predicate LeastMultiple(p: nat, floor: nat, tick: nat) {
    && tick > 0 && floor <= p
    && (exists k: nat :: k * tick == p)
    && forall k: nat :: floor <= k * tick ==> p <= k * tick
  }

  lemma DivCeilLeast(a: nat, b: nat)
    requires b > 0
    ensures LeastMultiple(DivCeil(a, b) * b, a, b)
    ensures DivCeil(a, b) * b < a + b
  {
    var q := DivCeil(a, b);
    assert a == a / b * b + a % b;
    assert a <= q * b < a + b;
    forall k: nat | a <= k * b ensures q * b <= k * b {
      if k < q {
        MulMonotone(k + 1, q, b);
      } else {
        MulMonotone(q, k, b);
      }
    }
  }

  lemma LeastMultipleUnique(p: nat, p': nat, floor: nat, tick: nat)
    requires LeastMultiple(p, floor, tick) && LeastMultiple(p', floor, tick)
    ensures p == p'
  {
    var k: nat :| k * tick == p;
    var k': nat :| k' * tick == p';
  }

  lemma CandidateIff(bestBid: nat, tick: nat, p: nat)
    ensures Candidate(bestBid, tick) == Some(p) <==> LeastMultiple(p, bestBid + tick, tick) && p <= MAX_PRICE
  {
    if tick > 0 {
      var floor := bestBid + tick;
      DivCeilLeast(floor, tick);
      if LeastMultiple(p, floor, tick) {
        LeastMultipleUnique(DivCeil(floor, tick) * tick, p, floor, tick);
      }
    }
  }

  /** Exactly when a quote is decided: the market is fresh and two-sided, and the
      strategy proposes the least tick multiple at or above one tick over the best
      bid, which is a valid price strictly below the best ask. */
  lemma QuoteIff(m: Market, tick: nat, size: nat, strategy: Option<QuoteIntent>, intent: QuoteIntent)
    ensures Decide(m, tick, size, strategy) == Quote(intent)
       <==> && size != 0 && !m.stale && !m.bookStale
            && m.BestBid().Some? && m.BestAsk().Some?
            && strategy == Some(intent)
            && LeastMultiple(intent.price, m.BestBid().value + tick, tick)
            && intent.price <= MAX_PRICE && intent.price < m.BestAsk().value
  {
    if m.BestBid().Some? {
      CandidateIff(m.BestBid().value, tick, intent.price);
    }
  }

  /** A decided quote improves the bid by at least one and less than two ticks. */
  lemma QuoteWithinTwoTicks(m: Market, tick: nat, size: nat, strategy: Option<QuoteIntent>)
    requires Decide(m, tick, size, strategy).Quote?
    ensures var p := Decide(m, tick, size, strategy).intent.price;
            m.BestBid().value + tick <= p < m.BestBid().value + 2 * tick && p < m.BestAsk().value
  {
    DivCeilLeast(m.BestBid().value + tick, tick);
  }

  /** `p` is the post-only price: the least price on the grid that improves the bid
      by a tick or more, if it is a valid price and stays below the ask. */
  ghost predicate MakerPrice(m: Market, tick: nat, p: nat)
    requires m.bids != [] && m.asks != []
  {
    LeastMultiple(p, m.bids[0].price + tick, tick) && p <= 1_000_000 && p < m.asks[0].price
  }

  lemma MakerPriceIff(m: Market, tick: nat, p: nat)
    requires m.bids != [] && m.asks != []
    ensures MakerPrice(m, tick, p) <==> Candidate(m.bids[0].price, tick) == Some(p) && p < m.asks[0].price
  {
    CandidateIff(m.bids[0].price, tick, p);
  }

  /** Every reason to skip, with its exact condition. They are looked for in this
      order: no size, a stale market or book, no bid, no ask, no maker price, no
      proposal, and a proposal at another price. */
  lemma SkipIff(m: Market, tick: nat, size: nat, strategy: Option<QuoteIntent>)
    ensures var outcome := Decide(m, tick, size, strategy);
            var open := size != 0 && !m.stale && !m.bookStale;
            var twoSided := open && m.bids != [] && m.asks != [];
            && (outcome == Skip(SizeZero) <==> size == 0)
            && (outcome == Skip(StaleBook) <==> size != 0 && (m.stale || m.bookStale))
            && (outcome == Skip(MissingBid) <==> open && m.bids == [])
            && (outcome == Skip(MissingAsk) <==> open && m.bids != [] && m.asks == [])
            && (outcome == Skip(StrategyRejected) <==>
                  twoSided && strategy == None && exists p :: MakerPrice(m, tick, p))
            && (outcome == Skip(InvalidCandidate) <==>
                  twoSided && forall p :: MakerPrice(m, tick, p) ==> strategy.Some? && strategy.value.price != p)
  {
    if m.bids != [] && m.asks != [] {
      forall p: nat
        ensures MakerPrice(m, tick, p) <==> Candidate(m.bids[0].price, tick) == Some(p) && p < m.asks[0].price
      {
        MakerPriceIff(m, tick, p);
      }
    }
  }

  function TotalQuantity(levels: seq<Level>): nat {
    if levels == [] then 0 else levels[0].quantity + TotalQuantity(levels[1..])
  }

  /** The update `process_book_update` builds from a snapshot: no attributed
      aggressor flow, so nothing for the touch queue. */
  function UpdateFrom(m: Market, atMs: int): PaperBook.TopOfBookUpdate {
    PaperBook.TopOfBookUpdate(atMs, m.BestBid(), TotalQuantity(m.bids), m.BestAsk(), TotalQuantity(m.asks), 0)
  }

  /** The update reports the first price of each side and the sum of its quantities,
      and no arriving size: an empty side counts nothing, and each level adds its own
      quantity. */
  lemma UpdateSums(m: Market, atMs: int, level: Level)
    ensures var u := UpdateFrom(m, atMs);
            && u.atMs == atMs && u.marketableSize == 0
            && u.bestBid == (if m.bids == [] then None else Some(m.bids[0].price))
            && u.bestAsk == (if m.asks == [] then None else Some(m.asks[0].price))
            && (m.bids == [] ==> u.bidSize == 0) && (m.asks == [] ==> u.askSize == 0)
            && UpdateFrom(m.(bids := [level] + m.bids), atMs).bidSize == level.quantity + u.bidSize
            && UpdateFrom(m.(bids := [level] + m.bids), atMs).askSize == u.askSize
            && UpdateFrom(m.(asks := [level] + m.asks), atMs).askSize == level.quantity + u.askSize
            && UpdateFrom(m.(asks := [level] + m.asks), atMs).bidSize == u.bidSize
  {
    assert ([level] + m.bids)[1..] == m.bids && ([level] + m.asks)[1..] == m.asks;
  }

  /** Composition with the actor: place a decided quote in either lane, whatever
      rests there already, then apply the update built from the same book. The
      quote is not filled: it still rests with all of its size, untouched. */
  lemma DecidedQuoteNeverCrosses(
      s: ExecutionActor.State, limits: ExecutionActor.RiskLimits, v: Variant,
      m: Market, tick: nat, size: nat, strategy: Option<QuoteIntent>, latencyMs: nat, atMs: int)
    requires s.Valid()
    requires Decide(m, tick, size, strategy).Quote?
    requires var intent := Decide(m, tick, size, strategy).intent;
             ExecutionActor.Step(s, limits, ExecutionActor.Quote(v, intent, m.stale, latencyMs)).1
             == ExecutionActor.Quoted(Ok([]))
    ensures var intent := Decide(m, tick, size, strategy).intent;
            var placed := ExecutionActor.Step(s, limits, ExecutionActor.Quote(v, intent, m.stale, latencyMs)).0;
            var (after, reply) := ExecutionActor.Step(placed, limits, ExecutionActor.BookUpdate(UpdateFrom(m, atMs)));
            && s.nextId in after.Lane(v)
            && after.Lane(v)[s.nextId]
                == PaperBook.RestingOrder(ExecutionActor.OrderOf(s.nextId, intent), intent.size, 0)
            && reply.Fills? && PaperMatching.SizeFilled(reply.fills.Of(v), s.nextId) == 0
  {
    var intent := Decide(m, tick, size, strategy).intent;
    var placed := ExecutionActor.Step(s, limits, ExecutionActor.Quote(v, intent, m.stale, latencyMs)).0;
    PaperMatching.UpdateAllots(placed.Lane(v), ExecutionActor.DEFAULT_FILL_RATIO, UpdateFrom(m, atMs), s.nextId);
  }
}

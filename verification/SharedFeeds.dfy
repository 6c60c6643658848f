// The per-asset feed accumulator (src/feeds/shared.rs): sorted recent ticks and
// an order-flow buffer, both pruned as ticks arrive in any order.
module SharedFeeds {
  import opened Domain

  const TICKS_RETENTION_MS: int := 3_900_000
  const FLOW_RETENTION_MS: int := 5_000

  datatype Venue = Binance | Coinbase | Deribit

  /** A venue observation. Prices and sizes that are not finite are None. */
  datatype VenueTick = VenueTick(
    venue: Venue,
    price: Option<real>,
    bestBid: Option<real>,
    bestAsk: Option<real>,
    tradeSize: Option<real>,
    tradeSideBuy: bool,
    tsExchangeMs: int,
    tsLocalMs: int)

  datatype ExternalTick = ExternalTick(price: real, tsMs: int)

  datatype Trade = Trade(atMs: int, size: real, buy: bool)

  function Timestamp(t: VenueTick): int {
    Max(0, if t.tsExchangeMs > 0 then t.tsExchangeMs else t.tsLocalMs)
  }

  predicate IsSpot(t: VenueTick) {
    !t.venue.Deribit? && t.price.Some? && t.price.value > 0.0
  }

  predicate IsTrade(t: VenueTick) {
    t.tradeSize.Some? && t.tradeSize.value > 0.0
  }

  function TickOf(t: VenueTick): ExternalTick
    requires IsSpot(t)
  {
    ExternalTick(t.price.value, Timestamp(t))
  }

  function TradeOf(t: VenueTick): Trade
    requires IsTrade(t)
  {
    Trade(Timestamp(t), t.tradeSize.value, t.tradeSideBuy)
  }

  predicate Quoted(price: Option<real>) {
    price.Some? && price.value > 0.0
  }

  /** The mid of a two-sided quote, or else the price. */
  function Microprice(t: VenueTick): Option<real> {
    if Quoted(t.bestBid) && Quoted(t.bestAsk) then Some((t.bestBid.value + t.bestAsk.value) / 2.0)
    else if Quoted(t.price) then t.price
    else None
  }

  /** The latest microprice of each venue; None until there is one. */
  datatype VenueMicroprices = VenueMicroprices(binance: Option<real>, coinbase: Option<real>, perp: Option<real>) {
    function Of(venue: Venue): Option<real> {
      match venue case Binance => binance case Coinbase => coinbase case Deribit => perp
    }
  }

  /** The oldest tick time kept once `t` has arrived. */
  function OldestTick(t: VenueTick): int {
    Max(0, ClampI64(Timestamp(t) - TICKS_RETENTION_MS))
  }

  function OldestTrade(t: VenueTick): int {
    ClampI64(Timestamp(t) - FLOW_RETENTION_MS)
  }

  // ----- Retaining and sorting -----

  function RetainTicks(s: seq<ExternalTick>, oldest: int): seq<ExternalTick> {
    if s == [] then []
    else RetainTicks(s[..|s| - 1], oldest) + if s[|s| - 1].tsMs >= oldest then [s[|s| - 1]] else []
  }

  function RetainTrades(s: seq<Trade>, oldest: int): seq<Trade> {
    if s == [] then []
    else RetainTrades(s[..|s| - 1], oldest) + if s[|s| - 1].atMs >= oldest then [s[|s| - 1]] else []
  }

  ghost predicate SortedTicks(s: seq<ExternalTick>) {
    forall i, k :: 0 <= i < k < |s| ==> s[i].tsMs <= s[k].tsMs
  }

  /** How often a tick occurs. */
  function Count(s: seq<ExternalTick>, x: ExternalTick): nat {
    if s == [] then 0 else Count(s[..|s| - 1], x) + if s[|s| - 1] == x then 1 else 0
  }

  ghost predicate SameTicks(a: seq<ExternalTick>, b: seq<ExternalTick>) {
    forall x :: Count(a, x) == Count(b, x)
  }

  lemma {:induction false} CountAppend(a: seq<ExternalTick>, b: seq<ExternalTick>, x: ExternalTick)
    ensures Count(a + b, x) == Count(a, x) + Count(b, x)
  {
    if b == [] {
      assert a + b == a;
    } else {
      assert (a + b)[..|a + b| - 1] == a + b[..|b| - 1];
      CountAppend(a, b[..|b| - 1], x);
    }
  }

  lemma {:induction false} CountRetained(s: seq<ExternalTick>, oldest: int, x: ExternalTick)
    ensures Count(RetainTicks(s, oldest), x) == if x.tsMs >= oldest then Count(s, x) else 0
  {
    if s != [] {
      var front, last := s[..|s| - 1], s[|s| - 1];
      CountRetained(front, oldest, x);
      CountOne(RetainTicks(front, oldest), last, x);
    }
  }

  lemma CountOne(s: seq<ExternalTick>, t: ExternalTick, x: ExternalTick)
    ensures Count(s + [t], x) == Count(s, x) + (if t == x then 1 else 0) && Count(s + [], x) == Count(s, x)
  {
    assert (s + [t])[..|s|] == s && s + [] == s;
  }

  lemma {:induction false} RetainSorted(s: seq<ExternalTick>, oldest: int)
    requires SortedTicks(s)
    ensures SortedTicks(RetainTicks(s, oldest))
    ensures forall k :: 0 <= k < |RetainTicks(s, oldest)| ==> RetainTicks(s, oldest)[k] in s
  {
    if s != [] {
      RetainSorted(s[..|s| - 1], oldest);
      assert forall x :: x in s[..|s| - 1] ==> x in s && x.tsMs <= s[|s| - 1].tsMs;
    }
  }

  /** The library sort by time; the order of equal times is left open. */
  method SortTicks(s: seq<ExternalTick>) returns (sorted: seq<ExternalTick>)
    ensures SortedTicks(sorted) && SameTicks(sorted, s)
  {
    sorted := [];
    var k := 0;
    while k < |s|
      invariant 0 <= k <= |s|
      invariant SortedTicks(sorted) && SameTicks(sorted, s[..k])
    {
      var at := SlotFor(sorted, s[k].tsMs);
      InsertedSame(sorted, s[..k], at, s[k]);
      InsertedSorted(sorted, at, s[k]);
      assert s[..k + 1] == s[..k] + [s[k]];
      sorted := sorted[..at] + [s[k]] + sorted[at..];
      k := k + 1;
    }
    assert s[..k] == s;
  }

  /** The position after the last tick that is not newer. */
  method SlotFor(sorted: seq<ExternalTick>, tsMs: int) returns (at: nat)
    ensures at <= |sorted| && forall i :: at <= i < |sorted| ==> sorted[i].tsMs > tsMs
    ensures at > 0 ==> sorted[at - 1].tsMs <= tsMs
  {
    at := |sorted|;
    while at > 0 && sorted[at - 1].tsMs > tsMs
      invariant 0 <= at <= |sorted|
      invariant forall i :: at <= i < |sorted| ==> sorted[i].tsMs > tsMs
    {
      at := at - 1;
    }
  }

  lemma InsertedSorted(sorted: seq<ExternalTick>, at: nat, x: ExternalTick)
    requires SortedTicks(sorted) && at <= |sorted| && (at > 0 ==> sorted[at - 1].tsMs <= x.tsMs)
    requires forall i :: at <= i < |sorted| ==> sorted[i].tsMs > x.tsMs
    ensures SortedTicks(sorted[..at] + [x] + sorted[at..])
  {}

  lemma InsertedSame(sorted: seq<ExternalTick>, front: seq<ExternalTick>, at: nat, x: ExternalTick)
    requires at <= |sorted| && SameTicks(sorted, front)
    ensures SameTicks(sorted[..at] + [x] + sorted[at..], front + [x])
  {
    forall y ensures Count(sorted[..at] + [x] + sorted[at..], y) == Count(front + [x], y) {
      CountAppend(sorted[..at] + [x], sorted[at..], y);
      CountAppend(sorted[..at], [x], y);
      CountAppend(front, [x], y);
      CountAppend(sorted[..at], sorted[at..], y);
      assert sorted[..at] + sorted[at..] == sorted;
    }
  }

  // ----- The buffers as functions of the history -----

  /** The two buffers: spot ticks and trades. */
  datatype Buffer = Spot | Flow

  predicate Enters(b: Buffer, t: VenueTick) {
    match b case Spot => IsSpot(t) case Flow => IsTrade(t)
  }

  function Oldest(b: Buffer, t: VenueTick): int {
    match b case Spot => OldestTick(t) case Flow => OldestTrade(t)
  }

  function Retain(s: seq<VenueTick>, oldest: int): (out: seq<VenueTick>)
    ensures forall t :: t in out ==> t in s
  {
    if s == [] then []
    else Retain(s[..|s| - 1], oldest) + if Timestamp(s[|s| - 1]) >= oldest then [s[|s| - 1]] else []
  }

  /** What a buffer keeps of a history, in arrival order. */
  function Kept(b: Buffer, history: seq<VenueTick>): (out: seq<VenueTick>)
    ensures forall t :: t in out ==> Enters(b, t)
  {
    if history == [] then []
    else
      var before, t := Kept(b, history[..|history| - 1]), history[|history| - 1];
      if Enters(b, t) then Retain(before + [t], Oldest(b, t)) else before
  }

  function TicksOf(s: seq<VenueTick>): (out: seq<ExternalTick>)
    requires forall t :: t in s ==> IsSpot(t)
    ensures |out| == |s| && forall i :: 0 <= i < |s| ==> out[i] == TickOf(s[i])
  {
    if s == [] then [] else TicksOf(s[..|s| - 1]) + [TickOf(s[|s| - 1])]
  }

  function TradesOf(s: seq<VenueTick>): (out: seq<Trade>)
    requires forall t :: t in s ==> IsTrade(t)
    ensures |out| == |s| && forall i :: 0 <= i < |s| ==> out[i] == TradeOf(s[i])
  {
    if s == [] then [] else TradesOf(s[..|s| - 1]) + [TradeOf(s[|s| - 1])]
  }

  lemma {:induction false} TicksRetained(s: seq<VenueTick>, oldest: int)
    requires forall t :: t in s ==> IsSpot(t)
    ensures TicksOf(Retain(s, oldest)) == RetainTicks(TicksOf(s), oldest)
  {
    if s != [] {
      var front, last := s[..|s| - 1], s[|s| - 1];
      TicksRetained(front, oldest);
      assert TicksOf(s)[..|s| - 1] == TicksOf(front);
      if Timestamp(last) >= oldest {
        assert TicksOf(Retain(s, oldest)) == TicksOf(Retain(front, oldest)) + [TicksOf(s)[|s| - 1]];
      } else {
        assert Retain(s, oldest) == Retain(front, oldest);
      }
    }
  }

  lemma {:induction false} TradesRetained(s: seq<VenueTick>, oldest: int)
    requires forall t :: t in s ==> IsTrade(t)
    ensures TradesOf(Retain(s, oldest)) == RetainTrades(TradesOf(s), oldest)
  {
    if s != [] {
      var front, last := s[..|s| - 1], s[|s| - 1];
      TradesRetained(front, oldest);
      assert TradesOf(s)[..|s| - 1] == TradesOf(front);
      if Timestamp(last) >= oldest {
        assert TradesOf(Retain(s, oldest)) == TradesOf(Retain(front, oldest)) + [TradesOf(s)[|s| - 1]];
      } else {
        assert Retain(s, oldest) == Retain(front, oldest);
      }
    }
  }

  function KeptTicks(history: seq<VenueTick>): seq<ExternalTick> {
    TicksOf(Kept(Spot, history))
  }

  function KeptTrades(history: seq<VenueTick>): seq<Trade> {
    TradesOf(Kept(Flow, history))
  }

  /** Every trade ever applied. */
  function AllTrades(history: seq<VenueTick>): seq<Trade> {
    if history == [] then []
    else
      var t := history[|history| - 1];
      AllTrades(history[..|history| - 1]) + if IsTrade(t) then [TradeOf(t)] else []
  }

  /** The last microprice a venue had. */
  function LastMicroprice(history: seq<VenueTick>, venue: Venue): Option<real> {
    if history == [] then None
    else
      var t := history[|history| - 1];
      if t.venue == venue && Microprice(t).Some? then Microprice(t)
      else LastMicroprice(history[..|history| - 1], venue)
  }

  // ----- Order flow -----

  predicate InWindow(t: Trade, at: int, windowMs: int, buy: bool) {
    0 <= ClampI64(at - t.atMs) <= windowMs && t.buy == buy
  }

  function SizeInWindow(t: Trade, at: int, windowMs: int, buy: bool): real {
    if InWindow(t, at, windowMs, buy) then t.size else 0.0
  }

  /** Volume of one side within a window that ends at `at`. */
  function Volume(s: seq<Trade>, at: int, windowMs: int, buy: bool): real {
    if s == [] then 0.0
    else Volume(s[..|s| - 1], at, windowMs, buy) + SizeInWindow(s[|s| - 1], at, windowMs, buy)
  }

  datatype OrderFlow = OrderFlow(
    buyVol1s: real, sellVol1s: real, ofi1s: real, ofi5s: real, imbalance: real, aggressiveBuyRatio: real)

  function FlowFrom(buy1: real, sell1: real, buy5: real, sell5: real): OrderFlow {
    var total := buy1 + sell1;
    OrderFlow(buy1, sell1, buy1 - sell1, buy5 - sell5,
              if total > 0.0 then (buy1 - sell1) / total else 0.0,
              if total > 0.0 then buy1 / total else 0.0)
  }

  function FlowOf(s: seq<Trade>, at: int): OrderFlow {
    FlowFrom(Volume(s, at, 1_000, true), Volume(s, at, 1_000, false),
             Volume(s, at, 5_000, true), Volume(s, at, 5_000, false))
  }

  // ----- What order flow means -----

  function SumOfSizes(s: seq<Trade>): real {
    if s == [] then 0.0 else SumOfSizes(s[..|s| - 1]) + s[|s| - 1].size
  }

  /** The trades of one side at most `maxAgeMs` old, and not in the future. */
  function Recent(s: seq<Trade>, at: int, maxAgeMs: int, buy: bool): seq<Trade> {
    if s == [] then []
    else
      var t := s[|s| - 1];
      Recent(s[..|s| - 1], at, maxAgeMs, buy) + if 0 <= at - t.atMs <= maxAgeMs && t.buy == buy then [t] else []
  }

  ghost predicate ProperTrades(s: seq<Trade>) {
    forall i :: 0 <= i < |s| ==> 0 <= s[i].atMs && s[i].size > 0.0
  }

  lemma {:induction false} VolumeIsSum(s: seq<Trade>, at: int, windowMs: int, buy: bool)
    requires ProperTrades(s) && at <= I64_MAX && windowMs >= 0
    ensures Volume(s, at, windowMs, buy) == SumOfSizes(Recent(s, at, windowMs, buy)) >= 0.0
  {
    if s != [] {
      var front, t := s[..|s| - 1], s[|s| - 1];
      VolumeIsSum(front, at, windowMs, buy);
      AgeInWindow(t, at, windowMs, buy);
      SumOne(Recent(front, at, windowMs, buy), t);
    }
  }

  lemma AgeInWindow(t: Trade, at: int, windowMs: int, buy: bool)
    requires 0 <= t.atMs && at <= I64_MAX && windowMs >= 0
    ensures InWindow(t, at, windowMs, buy) <==> 0 <= at - t.atMs <= windowMs && t.buy == buy
  {}

  lemma SumOne(s: seq<Trade>, t: Trade)
    ensures SumOfSizes(s + [t]) == SumOfSizes(s) + t.size && SumOfSizes(s + []) == SumOfSizes(s)
  {
    assert (s + [t])[..|s|] == s && s + [] == s;
  }

  /** The aggregates in words: volumes are sums of sizes aged up to 1 and 5 seconds,
      each flow imbalance is buys minus sells, and the two ratios relate the
      one-second figures to their total, within their bounds. */
  ghost predicate FlowSays(r: OrderFlow, s: seq<Trade>, at: int) {
    && r.buyVol1s == SumOfSizes(Recent(s, at, 1_000, true))
    && r.sellVol1s == SumOfSizes(Recent(s, at, 1_000, false))
    && r.ofi1s == r.buyVol1s - r.sellVol1s
    && r.ofi5s == SumOfSizes(Recent(s, at, 5_000, true)) - SumOfSizes(Recent(s, at, 5_000, false))
    && RatiosSay(r)
  }

  ghost predicate RatiosSay(r: OrderFlow) {
    var total := r.buyVol1s + r.sellVol1s;
    && (total == 0.0 ==> r.imbalance == 0.0 && r.aggressiveBuyRatio == 0.0)
    && r.imbalance * total == r.ofi1s && r.aggressiveBuyRatio * total == r.buyVol1s
    && -1.0 <= r.imbalance <= 1.0 && 0.0 <= r.aggressiveBuyRatio <= 1.0
  }

  lemma FlowMeans(s: seq<Trade>, at: int)
    requires ProperTrades(s) && at <= I64_MAX
    ensures FlowSays(FlowOf(s, at), s, at)
  {
    VolumeIsSum(s, at, 1_000, true);
    VolumeIsSum(s, at, 1_000, false);
    VolumeIsSum(s, at, 5_000, true);
    VolumeIsSum(s, at, 5_000, false);
    RatiosFollow(Volume(s, at, 1_000, true), Volume(s, at, 1_000, false),
                 Volume(s, at, 5_000, true), Volume(s, at, 5_000, false));
  }

  lemma RatiosFollow(buy1: real, sell1: real, buy5: real, sell5: real)
    requires buy1 >= 0.0 && sell1 >= 0.0
    ensures RatiosSay(FlowFrom(buy1, sell1, buy5, sell5))
  {
    var total := buy1 + sell1;
    if total > 0.0 {
      Ratio(buy1 - sell1, total);
      Ratio(buy1, total);
    }
  }

  lemma Ratio(part: real, total: real)
    requires total > 0.0 && -total <= part <= total
    ensures part / total * total == part && -1.0 <= part / total <= 1.0
    ensures part >= 0.0 ==> part / total >= 0.0
  {}

  lemma {:induction false} TradesProper(s: seq<VenueTick>)
    requires forall t :: t in s ==> IsTrade(t)
    ensures ProperTrades(TradesOf(s))
  {
    forall i | 0 <= i < |s| ensures 0 <= TradesOf(s)[i].atMs && TradesOf(s)[i].size > 0.0 {
      assert s[i] in s;
    }
  }

  // ----- The accumulator -----

  /** `AssetFeedState`, with the history of applied ticks as ghost state. */
  class Feed {
    var recentTicks: seq<ExternalTick>
    var flow: seq<Trade>
    var venues: VenueMicroprices
    ghost var history: seq<VenueTick>

    ghost predicate Valid()
      reads this
    {
      && SortedTicks(recentTicks) && SameTicks(recentTicks, KeptTicks(history))
      && flow == KeptTrades(history)
      && forall venue :: venues.Of(venue) == LastMicroprice(history, venue)
    }

    constructor ()
      ensures Valid() && history == []
    {
      recentTicks, flow, history := [], [], [];
      venues := VenueMicroprices(None, None, None);
    }

    method Apply(t: VenueTick)
      requires Valid()
      modifies this
      ensures Valid() && history == old(history) + [t]
    {
      KeptTicksStep(history, t);
      KeptTradesStep(history, t);
      LastMicropriceStep(history, t);
      if IsSpot(t) {
        PushTick(t);
      }
      if IsTrade(t) {
        flow := RetainTrades(flow + [TradeOf(t)], OldestTrade(t));
      }
      if Microprice(t).Some? {
        SetMicroprice(t.venue, Microprice(t));
      }
      history := history + [t];
    }

    /** Pushes a spot tick, sorts, and prunes what is too old for it. */
    method PushTick(t: VenueTick)
      requires IsSpot(t) && SameTicks(recentTicks, KeptTicks(history))
      modifies this`recentTicks
      ensures SortedTicks(recentTicks)
      ensures SameTicks(recentTicks, RetainTicks(KeptTicks(history) + [TickOf(t)], OldestTick(t)))
    {
      var sorted := SortTicks(recentTicks + [TickOf(t)]);
      RetainSorted(sorted, OldestTick(t));
      RetainedSame(recentTicks, KeptTicks(history), sorted, TickOf(t), OldestTick(t));
      recentTicks := RetainTicks(sorted, OldestTick(t));
    }

    method SetMicroprice(venue: Venue, microprice: Option<real>)
      modifies this`venues
      ensures forall v :: venues.Of(v) == if v == venue then microprice else old(venues).Of(v)
    {
      match venue {
        case Binance => venues := venues.(binance := microprice);
        case Coinbase => venues := venues.(coinbase := microprice);
        case Deribit => venues := venues.(perp := microprice);
      }
    }

    /** The aggregates at a caller's time, in one pass over the buffer. */
    method OrderFlowAt(at: int) returns (r: OrderFlow)
      requires Valid()
      ensures r == FlowOf(flow, at)
      ensures at <= I64_MAX ==> FlowSays(r, flow, at)
    {
      var buy1, sell1, buy5, sell5 := 0.0, 0.0, 0.0, 0.0;
      var k := 0;
      while k < |flow|
        invariant 0 <= k <= |flow|
        invariant buy1 == Volume(flow[..k], at, 1_000, true) && sell1 == Volume(flow[..k], at, 1_000, false)
        invariant buy5 == Volume(flow[..k], at, 5_000, true) && sell5 == Volume(flow[..k], at, 5_000, false)
      {
        assert flow[..k + 1][..k] == flow[..k];
        var t := flow[k];
        var age := ClampI64(at - t.atMs);
        if 0 <= age <= 1_000 {
          if t.buy { buy1 := buy1 + t.size; } else { sell1 := sell1 + t.size; }
        }
        if 0 <= age <= 5_000 {
          if t.buy { buy5 := buy5 + t.size; } else { sell5 := sell5 + t.size; }
        }
        k := k + 1;
      }
      assert flow[..k] == flow;
      r := FlowFrom(buy1, sell1, buy5, sell5);
      if at <= I64_MAX {
        TradesProper(Kept(Flow, history));
        FlowMeans(flow, at);
      }
    }
  }

  lemma KeptTicksStep(history: seq<VenueTick>, t: VenueTick)
    ensures KeptTicks(history + [t])
         == if IsSpot(t) then RetainTicks(KeptTicks(history) + [TickOf(t)], OldestTick(t)) else KeptTicks(history)
  {
    assert (history + [t])[..|history|] == history;
    if IsSpot(t) {
      var longer := Kept(Spot, history) + [t];
      TicksRetained(longer, OldestTick(t));
      assert TicksOf(longer) == KeptTicks(history) + [TickOf(t)];
    }
  }

  lemma KeptTradesStep(history: seq<VenueTick>, t: VenueTick)
    ensures KeptTrades(history + [t])
         == if IsTrade(t) then RetainTrades(KeptTrades(history) + [TradeOf(t)], OldestTrade(t)) else KeptTrades(history)
  {
    assert (history + [t])[..|history|] == history;
    if IsTrade(t) {
      var longer := Kept(Flow, history) + [t];
      TradesRetained(longer, OldestTrade(t));
      assert TradesOf(longer) == KeptTrades(history) + [TradeOf(t)];
    }
  }

  lemma LastMicropriceStep(history: seq<VenueTick>, t: VenueTick)
    ensures forall venue :: LastMicroprice(history + [t], venue)
                            == if t.venue == venue && Microprice(t).Some? then Microprice(t)
                               else LastMicroprice(history, venue)
  {
    assert (history + [t])[..|history|] == history;
  }

  lemma RetainedSame(recent: seq<ExternalTick>, kept: seq<ExternalTick>, sorted: seq<ExternalTick>,
                     x: ExternalTick, oldest: int)
    requires SameTicks(recent, kept) && SameTicks(sorted, recent + [x])
    ensures SameTicks(RetainTicks(sorted, oldest), RetainTicks(kept + [x], oldest))
  {
    forall y ensures Count(RetainTicks(sorted, oldest), y) == Count(RetainTicks(kept + [x], oldest), y) {
      CountRetained(sorted, oldest, y);
      CountRetained(kept + [x], oldest, y);
      CountAppend(recent, [x], y);
      CountAppend(kept, [x], y);
    }
  }

  // ----- Exactly which ticks are kept -----

  /** The tick applied at `i` is not more than the retention older than any tick
      that entered the buffer after it. */
  ghost predicate Survives(b: Buffer, history: seq<VenueTick>, i: nat)
    requires i < |history|
  {
    forall j :: i <= j < |history| && Enters(b, history[j]) ==> Timestamp(history[i]) >= Oldest(b, history[j])
  }

  ghost function SurvivorAt(b: Buffer, history: seq<VenueTick>, i: nat): seq<VenueTick>
    requires i < |history|
  {
    if Enters(b, history[i]) && Survives(b, history, i) then [history[i]] else []
  }

  /** The survivors among the first `k` ticks, in arrival order. */
  ghost function Survivors(b: Buffer, history: seq<VenueTick>, k: nat): seq<VenueTick>
    requires k <= |history|
  {
    if k == 0 then [] else Survivors(b, history, k - 1) + SurvivorAt(b, history, k - 1)
  }

  lemma {:induction false} RetainAppend(s: seq<VenueTick>, s': seq<VenueTick>, oldest: int)
    ensures Retain(s + s', oldest) == Retain(s, oldest) + Retain(s', oldest)
  {
    if s' == [] {
      assert s + s' == s;
    } else {
      assert (s + s')[..|s + s'| - 1] == s + s'[..|s'| - 1];
      RetainAppend(s, s'[..|s'| - 1], oldest);
    }
  }

  lemma RetainOne(t: VenueTick, oldest: int)
    ensures Retain([t], oldest) == if Timestamp(t) >= oldest then [t] else []
  {
    assert [t][..0] == [];
  }

  lemma SurvivesLonger(b: Buffer, history: seq<VenueTick>, t: VenueTick, i: nat)
    requires i < |history|
    ensures Survives(b, history + [t], i)
       <==> Survives(b, history, i) && (Enters(b, t) ==> Timestamp(history[i]) >= Oldest(b, t))
  {
    var longer := history + [t];
    assert longer[|history|] == t;
    if Survives(b, longer, i) {
      forall j | i <= j < |history| && Enters(b, history[j]) ensures Timestamp(history[i]) >= Oldest(b, history[j]) {
        assert longer[j] == history[j];
      }
    }
  }

  lemma SurvivorAtStep(b: Buffer, history: seq<VenueTick>, t: VenueTick, i: nat)
    requires i < |history|
    ensures SurvivorAt(b, history + [t], i)
         == if Enters(b, t) then Retain(SurvivorAt(b, history, i), Oldest(b, t)) else SurvivorAt(b, history, i)
  {
    SurvivesLonger(b, history, t, i);
    RetainOne(history[i], Oldest(b, t));
  }

  /** One more tick prunes the survivors as `apply` prunes the buffer. */
  lemma {:induction false} SurvivorsStep(b: Buffer, history: seq<VenueTick>, t: VenueTick, k: nat)
    requires k <= |history|
    ensures Survivors(b, history + [t], k)
         == if Enters(b, t) then Retain(Survivors(b, history, k), Oldest(b, t)) else Survivors(b, history, k)
  {
    if k > 0 {
      SurvivorsStep(b, history, t, k - 1);
      SurvivorAtStep(b, history, t, k - 1);
      SurvivorsJoin(b, history, k);
      SurvivorsJoin(b, history + [t], k);
      if Enters(b, t) {
        RetainAppend(Survivors(b, history, k - 1), SurvivorAt(b, history, k - 1), Oldest(b, t));
      }
    }
  }

  lemma SurvivorsJoin(b: Buffer, history: seq<VenueTick>, k: nat)
    requires 0 < k <= |history|
    ensures Survivors(b, history, k) == Survivors(b, history, k - 1) + SurvivorAt(b, history, k - 1)
  {}

  /** After any ticks in any order, each buffer keeps exactly its survivors. */
  lemma {:induction false} KeptAreSurvivors(b: Buffer, history: seq<VenueTick>)
    ensures Kept(b, history) == Survivors(b, history, |history|)
  {
    if history != [] {
      var last := |history| - 1;
      var before, t := history[..last], history[last];
      KeptAreSurvivors(b, before);
      assert before + [t] == history;
      SurvivorsStep(b, before, t, last);
      SurvivorsJoin(b, history, |history|);
      LastSurvives(b, history);
      if Enters(b, t) {
        RetainAppend(Survivors(b, before, last), [t], Oldest(b, t));
      }
    }
  }

  /** The last tick to enter is kept. */
  lemma LastSurvives(b: Buffer, history: seq<VenueTick>)
    requires history != []
    ensures var t := history[|history| - 1];
            SurvivorAt(b, history, |history| - 1) == if Enters(b, t) then Retain([t], Oldest(b, t)) else []
  {
    var t := history[|history| - 1];
    RetainOne(t, Oldest(b, t));
  }

  // ----- What the pruned flow leaves out -----

  /** Volume of the applied trades that the buffer no longer holds. */
  ghost function LostVolume(history: seq<VenueTick>, k: nat, at: int, windowMs: int, buy: bool): real
    requires k <= |history|
  {
    if k == 0 then 0.0
    else
      LostVolume(history, k - 1, at, windowMs, buy)
      + if Lost(history, k - 1) then SizeInWindow(TradeOf(history[k - 1]), at, windowMs, buy) else 0.0
  }

  ghost predicate Lost(history: seq<VenueTick>, i: nat)
    requires i < |history|
  {
    IsTrade(history[i]) && !Survives(Flow, history, i)
  }

  lemma VolumeOne(s: seq<Trade>, t: Trade, at: int, windowMs: int, buy: bool)
    ensures Volume(s + [t], at, windowMs, buy) == Volume(s, at, windowMs, buy) + SizeInWindow(t, at, windowMs, buy)
  {
    assert (s + [t])[..|s|] == s;
  }

  lemma TradesOne(s: seq<VenueTick>, t: VenueTick)
    requires IsTrade(t) && forall x :: x in s ==> IsTrade(x)
    ensures TradesOf(s + [t]) == TradesOf(s) + [TradeOf(t)]
  {
    assert (s + [t])[..|s|] == s;
  }

  lemma {:induction false} SurvivorsEnter(b: Buffer, history: seq<VenueTick>, k: nat)
    requires k <= |history|
    ensures forall t :: t in Survivors(b, history, k) ==> Enters(b, t)
  {
    if k > 0 {
      SurvivorsEnter(b, history, k - 1);
    }
  }

  /** The full history's volume is that of the survivors and of what was lost. */
  lemma {:induction false} VolumeSplits(history: seq<VenueTick>, k: nat, at: int, windowMs: int, buy: bool)
    requires k <= |history| && forall t :: t in Survivors(Flow, history, k) ==> IsTrade(t)
    ensures Volume(AllTrades(history[..k]), at, windowMs, buy)
         == Volume(TradesOf(Survivors(Flow, history, k)), at, windowMs, buy) + LostVolume(history, k, at, windowMs, buy)
  {
    if k > 0 {
      SurvivorsEnter(Flow, history, k - 1);
      VolumeSplits(history, k - 1, at, windowMs, buy);
      AppliedVolumeStep(history, k, at, windowMs, buy);
      KeptVolumeStep(history, k, at, windowMs, buy);
    }
  }

  lemma AppliedVolumeStep(history: seq<VenueTick>, k: nat, at: int, windowMs: int, buy: bool)
    requires 0 < k <= |history|
    ensures Volume(AllTrades(history[..k]), at, windowMs, buy)
         == Volume(AllTrades(history[..k - 1]), at, windowMs, buy)
            + if IsTrade(history[k - 1]) then SizeInWindow(TradeOf(history[k - 1]), at, windowMs, buy) else 0.0
  {
    assert history[..k][..k - 1] == history[..k - 1];
    var before := AllTrades(history[..k - 1]);
    if IsTrade(history[k - 1]) {
      VolumeOne(before, TradeOf(history[k - 1]), at, windowMs, buy);
    } else {
      assert before + [] == before;
    }
  }

  lemma KeptVolumeStep(history: seq<VenueTick>, k: nat, at: int, windowMs: int, buy: bool)
    requires 0 < k <= |history|
    requires forall t :: t in Survivors(Flow, history, k - 1) ==> IsTrade(t)
    requires forall t :: t in Survivors(Flow, history, k) ==> IsTrade(t)
    ensures Volume(TradesOf(Survivors(Flow, history, k)), at, windowMs, buy)
         == Volume(TradesOf(Survivors(Flow, history, k - 1)), at, windowMs, buy)
            + if IsTrade(history[k - 1]) && !Lost(history, k - 1)
              then SizeInWindow(TradeOf(history[k - 1]), at, windowMs, buy) else 0.0
  {
    var before := Survivors(Flow, history, k - 1);
    SurvivorsJoin(Flow, history, k);
    if IsTrade(history[k - 1]) && !Lost(history, k - 1) {
      TradesOne(before, history[k - 1]);
      VolumeOne(TradesOf(before), TradeOf(history[k - 1]), at, windowMs, buy);
    } else {
      assert before + [] == before;
    }
  }

  lemma KeptVolume(history: seq<VenueTick>, at: int, windowMs: int, buy: bool)
    ensures Volume(AllTrades(history), at, windowMs, buy)
         == Volume(KeptTrades(history), at, windowMs, buy) + LostVolume(history, |history|, at, windowMs, buy)
  {
    KeptAreSurvivors(Flow, history);
    VolumeSplits(history, |history|, at, windowMs, buy);
    assert history[..|history|] == history;
  }

  /** Some trade in the window was pruned: a trade applied after it is more than the
      retention newer. */
  ghost predicate LostInWindow(history: seq<VenueTick>, at: int, windowMs: int, buy: bool) {
    exists i :: 0 <= i < |history| && Lost(history, i) && InWindow(TradeOf(history[i]), at, windowMs, buy)
  }

  lemma {:induction false} NothingLostIff(history: seq<VenueTick>, k: nat, at: int, windowMs: int, buy: bool)
    requires k <= |history|
    ensures LostVolume(history, k, at, windowMs, buy) >= 0.0
    ensures LostVolume(history, k, at, windowMs, buy) == 0.0
       <==> forall i :: 0 <= i < k ==> !(Lost(history, i) && InWindow(TradeOf(history[i]), at, windowMs, buy))
  {
    if k > 0 {
      NothingLostIff(history, k - 1, at, windowMs, buy);
    }
  }

  /** Exactly when the pruned buffer answers a query like the full history, at any
      query time: no trade in the one-second window was pruned, and as much buying
      as selling in the five-second window was. */
  lemma WindowedFlowIff(history: seq<VenueTick>, at: int)
    ensures FlowOf(KeptTrades(history), at) == FlowOf(AllTrades(history), at)
       <==> && !LostInWindow(history, at, 1_000, true) && !LostInWindow(history, at, 1_000, false)
            && LostVolume(history, |history|, at, 5_000, true) == LostVolume(history, |history|, at, 5_000, false)
  {
    KeptVolume(history, at, 1_000, true);
    KeptVolume(history, at, 1_000, false);
    KeptVolume(history, at, 5_000, true);
    KeptVolume(history, at, 5_000, false);
    NothingLostIff(history, |history|, at, 1_000, true);
    NothingLostIff(history, |history|, at, 1_000, false);
  }

  lemma LostBeforeWindow(history: seq<VenueTick>, at: int, windowMs: int, buy: bool)
    requires 0 <= at <= I64_MAX && windowMs <= FLOW_RETENTION_MS
    requires forall i :: 0 <= i < |history| && IsTrade(history[i]) ==> Timestamp(history[i]) <= at
    ensures LostVolume(history, |history|, at, windowMs, buy) == 0.0 && !LostInWindow(history, at, windowMs, buy)
  {
    NothingLostIff(history, |history|, at, windowMs, buy);
    forall i | 0 <= i < |history| && Lost(history, i) ensures !InWindow(TradeOf(history[i]), at, windowMs, buy) {
      var j :| i <= j < |history| && IsTrade(history[j]) && Timestamp(history[i]) < OldestTrade(history[j]);
      assert Timestamp(history[j]) <= at;
    }
  }

  /** Windowed equals full history: after any ticks in any order, the aggregates on
      the pruned buffer are those over every trade ever applied, whenever the query
      time is no earlier than any applied trade. */
  lemma WindowedFlowIsFullFlow(history: seq<VenueTick>, at: int)
    requires 0 <= at <= I64_MAX
    requires forall i :: 0 <= i < |history| && IsTrade(history[i]) ==> Timestamp(history[i]) <= at
    ensures FlowOf(KeptTrades(history), at) == FlowOf(AllTrades(history), at)
  {
    WindowedFlowIff(history, at);
    LostBeforeWindow(history, at, 1_000, true);
    LostBeforeWindow(history, at, 1_000, false);
    LostBeforeWindow(history, at, 5_000, true);
    LostBeforeWindow(history, at, 5_000, false);
  }
}

// What the feed accumulator keeps, in terms of the ticks alone: their venues,
// prices, sizes and times, and the retention of 65 minutes and 5 seconds.
module FeedTerms {
  import opened Domain
  import opened SharedFeeds

  /** A tick is timed by the exchange if it says so, otherwise locally, and never
      before the epoch. */
  lemma TickTime(t: VenueTick)
    ensures Timestamp(t) >= 0
    ensures t.tsExchangeMs > 0 ==> Timestamp(t) == t.tsExchangeMs
    ensures t.tsExchangeMs <= 0 && t.tsLocalMs >= 0 ==> Timestamp(t) == t.tsLocalMs
    ensures t.tsExchangeMs <= 0 && t.tsLocalMs < 0 ==> Timestamp(t) == 0
  {}

  /** Times within the range of 64-bit integers. */
  predicate TimesInRange(history: seq<VenueTick>) {
    forall i :: 0 <= i < |history| ==> history[i].tsExchangeMs <= I64_MAX && history[i].tsLocalMs <= I64_MAX
  }

  predicate HasSpotPrice(t: VenueTick) {
    (t.venue == Binance || t.venue == Coinbase) && t.price.Some? && t.price.value > 0.0
  }

  predicate HasTrade(t: VenueTick) {
    t.tradeSize.Some? && t.tradeSize.value > 0.0
  }

  /** Tick `i` is kept among the recent ticks exactly if it has a spot price and no
      spot price that came after it is more than 65 minutes newer. */
  lemma SpotKeptIff(history: seq<VenueTick>, i: nat)
    requires TimesInRange(history) && i < |history|
    ensures SurvivorAt(Spot, history, i) == [history[i]]
       <==> && HasSpotPrice(history[i])
            && forall j :: i <= j < |history| && HasSpotPrice(history[j]) ==>
                 Timestamp(history[i]) >= Timestamp(history[j]) - 65 * 60 * 1_000
  {}

  /** Tick `i` is kept in the order-flow buffer exactly if it has a trade and no
      trade that came after it is more than 5 seconds newer. */
  lemma TradeKeptIff(history: seq<VenueTick>, i: nat)
    requires TimesInRange(history) && i < |history|
    ensures SurvivorAt(Flow, history, i) == [history[i]]
       <==> && HasTrade(history[i])
            && forall j :: i <= j < |history| && HasTrade(history[j]) ==>
                 Timestamp(history[i]) >= Timestamp(history[j]) - 5_000
  {}

  /** What a kept tick stands for: its price and time, or its trade. */
  lemma KeptValues(t: VenueTick)
    ensures IsSpot(t) <==> HasSpotPrice(t)
    ensures IsTrade(t) <==> HasTrade(t)
    ensures IsSpot(t) ==> TickOf(t) == ExternalTick(t.price.value, Timestamp(t))
    ensures IsTrade(t) ==> TradeOf(t) == Trade(Timestamp(t), t.tradeSize.value, t.tradeSideBuy)
  {}

  /** The microprice: halfway between two positive quotes, or else a positive price. */
  lemma MicropriceMeans(t: VenueTick)
    ensures var twoSided := t.bestBid.Some? && t.bestBid.value > 0.0 && t.bestAsk.Some? && t.bestAsk.value > 0.0;
            && (twoSided ==>
                  Microprice(t).Some? && Microprice(t).value * 2.0 == t.bestBid.value + t.bestAsk.value)
            && (!twoSided && t.price.Some? && t.price.value > 0.0 ==> Microprice(t) == t.price)
            && (!twoSided && !(t.price.Some? && t.price.value > 0.0) ==> Microprice(t) == None)
  {}
}

// The local YES-side order book (src/polymarket/book.rs): level vectors edited
// and sorted in place, refining a price-to-quantity map per side.
module OrderBook {
  import opened Domain

  /** A price in micro-units with its base-unit quantity. */
  datatype Level = Level(price: nat, quantity: nat)

  datatype BookSide = Bid | Ask

  type Depth = map<nat, nat>

  // ----- The abstract side of a book: last writer wins -----

  /** One absolute level update; quantity zero removes the level. */
  function Put(m: Depth, price: nat, quantity: nat): Depth {
    if quantity == 0 then m - {price} else m[price := quantity]
  }

  function PutAll(m: Depth, levels: seq<Level>): Depth {
    if levels == [] then m
    else
      var last := levels[|levels| - 1];
      Put(PutAll(m, levels[..|levels| - 1]), last.price, last.quantity)
  }

  // ----- The listing of a side -----

  /** The sort key order: bids descending, asks ascending. */
  predicate Ahead(a: nat, b: nat, descending: bool) {
    if descending then a > b else a < b
  }

  /** Strictly sorted and zero-free. */
  ghost predicate Listed(levels: seq<Level>, descending: bool) {
    && (forall i :: 0 <= i < |levels| ==> levels[i].quantity != 0)
    && forall i, j :: 0 <= i < j < |levels| ==> Ahead(levels[i].price, levels[j].price, descending)
  }

  /** `levels` lists exactly the map `m`. */
  ghost predicate Lists(levels: seq<Level>, m: Depth, descending: bool) {
    && Listed(levels, descending)
    && (forall i :: 0 <= i < |levels| ==> levels[i].price in m && m[levels[i].price] == levels[i].quantity)
    && forall p :: p in m ==> exists i :: 0 <= i < |levels| && levels[i].price == p
  }

  lemma ListingEmpty(a: seq<Level>, m: Depth, descending: bool)
    requires Lists(a, m, descending)
    ensures a == [] <==> m == map[]
  {
    if a != [] {
      assert a[0].price in m;
    }
    if m != map[] {
      var p :| p in m;
      var i :| 0 <= i < |a| && a[i].price == p;
    }
  }

  lemma ListingTail(a: seq<Level>, m: Depth, descending: bool)
    requires Lists(a, m, descending) && a != []
    ensures Lists(a[1..], m - {a[0].price}, descending)
  {
    var rest := m - {a[0].price};
    forall i | 0 <= i < |a[1..]| ensures a[1..][i].price in rest && rest[a[1..][i].price] == a[1..][i].quantity {
      assert Ahead(a[0].price, a[i + 1].price, descending);
    }
    forall p | p in rest ensures exists i :: 0 <= i < |a[1..]| && a[1..][i].price == p {
      var i :| 0 <= i < |a| && a[i].price == p;
      assert a[1..][i - 1].price == p;
    }
  }

  /** The best level of a side is its first. */
  lemma FirstIsBest(a: seq<Level>, m: Depth, descending: bool)
    requires Lists(a, m, descending)
    ensures a == [] <==> m == map[]
    ensures a != [] ==> a[0].price in m && forall p :: p in m && p != a[0].price ==> Ahead(a[0].price, p, descending)
  {
    ListingEmpty(a, m, descending);
    if a != [] {
      forall p | p in m && p != a[0].price ensures Ahead(a[0].price, p, descending) {
        var i :| 0 <= i < |a| && a[i].price == p;
      }
    }
  }

  /** Equal maps have equal level vectors. */
  lemma {:induction false} ListingUnique(a: seq<Level>, b: seq<Level>, m: Depth, descending: bool)
    requires Lists(a, m, descending) && Lists(b, m, descending)
    ensures a == b
    decreases |a|
  {
    SameBest(a, b, m, descending);
    if a != [] {
      ListingTail(a, m, descending);
      ListingTail(b, m, descending);
      ListingUnique(a[1..], b[1..], m - {a[0].price}, descending);
      SameHeadAndTail(a, b);
    }
  }

  lemma SameBest(a: seq<Level>, b: seq<Level>, m: Depth, descending: bool)
    requires Lists(a, m, descending) && Lists(b, m, descending)
    ensures if a == [] then b == [] else b != [] && a[0] == b[0]
  {
    FirstIsBest(a, m, descending);
    FirstIsBest(b, m, descending);
  }

  lemma SameHeadAndTail(a: seq<Level>, b: seq<Level>)
    requires a != [] && b != [] && a[0] == b[0] && a[1..] == b[1..]
    ensures a == b
  {
    assert a == [a[0]] + a[1..] && b == [b[0]] + b[1..];
  }

  // ----- Editing a level vector -----

  /** Distinct prices and no zero quantity: what the vector satisfies between the
      edit and the sort. */
  ghost predicate Distinct(levels: seq<Level>) {
    && (forall i :: 0 <= i < |levels| ==> levels[i].quantity != 0)
    && forall i, j :: 0 <= i < j < |levels| ==> levels[i].price != levels[j].price
  }

  ghost predicate Holds(levels: seq<Level>, m: Depth) {
    && Distinct(levels)
    && (forall i :: 0 <= i < |levels| ==> levels[i].price in m && m[levels[i].price] == levels[i].quantity)
    && forall p :: p in m ==> exists i :: 0 <= i < |levels| && levels[i].price == p
  }

  /** The position of a price, or the length of the vector if it is absent. */
  method FindPrice(levels: seq<Level>, price: nat) returns (k: nat)
    ensures k <= |levels|
    ensures k < |levels| ==> levels[k].price == price
    ensures forall i :: 0 <= i < k ==> levels[i].price != price
  {
    k := 0;
    while k < |levels| && levels[k].price != price
      invariant k <= |levels|
      invariant forall i :: 0 <= i < k ==> levels[i].price != price
    {
      k := k + 1;
    }
  }

  /** The first position whose price does not go ahead of the given one. */
  method FindPlace(sorted: seq<Level>, price: nat, descending: bool) returns (at: nat)
    ensures at <= |sorted| && forall i :: 0 <= i < at ==> Ahead(sorted[i].price, price, descending)
    ensures at < |sorted| ==> !Ahead(sorted[at].price, price, descending)
  {
    at := 0;
    while at < |sorted| && Ahead(sorted[at].price, price, descending)
      invariant 0 <= at <= |sorted|
      invariant forall i :: 0 <= i < at ==> Ahead(sorted[i].price, price, descending)
    {
      at := at + 1;
    }
  }

  /** The library sort by price. Prices are distinct, so its being unstable does
      not matter. */
  method SortLevels(levels: seq<Level>, ghost m: Depth, descending: bool) returns (sorted: seq<Level>)
    requires Holds(levels, m)
    ensures Lists(sorted, m, descending)
  {
    sorted := [];
    var k := 0;
    ghost var done: Depth := map[];
    while k < |levels|
      invariant 0 <= k <= |levels|
      invariant Lists(sorted, done, descending)
      invariant DoneUpTo(levels, m, done, k)
    {
      DoneStep(levels, m, done, k);
      var level := levels[k];
      var at := FindPlace(sorted, level.price, descending);
      InsertLevel(sorted, done, level, at, descending);
      sorted := sorted[..at] + [level] + sorted[at..];
      done := done[level.price := level.quantity];
      k := k + 1;
    }
    AllDone(levels, m, done);
  }

  /** `done` is what `m` says of the first `k` levels. */
  ghost predicate DoneUpTo(levels: seq<Level>, m: Depth, done: Depth, k: nat)
    requires k <= |levels|
  {
    && (forall p :: p in done ==> p in m && done[p] == m[p] && exists i :: 0 <= i < k && levels[i].price == p)
    && forall i :: 0 <= i < k ==> levels[i].price in done
  }

  lemma DoneStep(levels: seq<Level>, m: Depth, done: Depth, k: nat)
    requires Holds(levels, m) && k < |levels| && DoneUpTo(levels, m, done, k)
    ensures levels[k].price !in done && levels[k].quantity != 0
    ensures DoneUpTo(levels, m, done[levels[k].price := levels[k].quantity], k + 1)
  {}

  lemma AllDone(levels: seq<Level>, m: Depth, done: Depth)
    requires Holds(levels, m) && DoneUpTo(levels, m, done, |levels|)
    ensures done == m
  {
    forall p | p in m ensures p in done {
      var i :| 0 <= i < |levels| && levels[i].price == p;
    }
  }

  lemma InsertLevel(sorted: seq<Level>, m: Depth, level: Level, at: nat, descending: bool)
    requires Lists(sorted, m, descending) && at <= |sorted| && level.price !in m && level.quantity != 0
    requires forall i :: 0 <= i < at ==> Ahead(sorted[i].price, level.price, descending)
    requires at < |sorted| ==> !Ahead(sorted[at].price, level.price, descending)
    ensures Lists(sorted[..at] + [level] + sorted[at..], m[level.price := level.quantity], descending)
  {
    forall i | at <= i < |sorted| ensures Ahead(level.price, sorted[i].price, descending) {
      assert sorted[at].price in m && sorted[i].price in m;
    }
    InsertListed(sorted, level, at, descending);
    InsertCovers(sorted, m, level, at);
  }

  lemma InsertCovers(sorted: seq<Level>, m: Depth, level: Level, at: nat)
    requires at <= |sorted| && level.price !in m
    requires forall i :: 0 <= i < |sorted| ==> sorted[i].price in m && m[sorted[i].price] == sorted[i].quantity
    requires forall p :: p in m ==> exists i :: 0 <= i < |sorted| && sorted[i].price == p
    ensures var out, m' := sorted[..at] + [level] + sorted[at..], m[level.price := level.quantity];
            && (forall i :: 0 <= i < |out| ==> out[i].price in m' && m'[out[i].price] == out[i].quantity)
            && forall p :: p in m' ==> exists i :: 0 <= i < |out| && out[i].price == p
  {
    var out, m' := sorted[..at] + [level] + sorted[at..], m[level.price := level.quantity];
    forall i | 0 <= i < |out| ensures out[i].price in m' && m'[out[i].price] == out[i].quantity {
      assert i != at ==> out[i] == sorted[if i < at then i else i - 1];
    }
    forall p | p in m' ensures exists i :: 0 <= i < |out| && out[i].price == p {
      if p == level.price {
        assert out[at].price == p;
      } else {
        var i :| 0 <= i < |sorted| && sorted[i].price == p;
        assert out[if i < at then i else i + 1].price == p;
      }
    }
  }

  lemma InsertListed(sorted: seq<Level>, level: Level, at: nat, descending: bool)
    requires Listed(sorted, descending) && at <= |sorted| && level.quantity != 0
    requires forall i :: 0 <= i < at ==> Ahead(sorted[i].price, level.price, descending)
    requires forall i :: at <= i < |sorted| ==> Ahead(level.price, sorted[i].price, descending)
    ensures Listed(sorted[..at] + [level] + sorted[at..], descending)
  {
    var out := sorted[..at] + [level] + sorted[at..];
    forall i, j | 0 <= i < j < |out| ensures Ahead(out[i].price, out[j].price, descending) {
      assert i != at ==> out[i] == sorted[if i < at then i else i - 1];
      assert j != at ==> out[j] == sorted[if j < at then j else j - 1];
    }
  }

  /** `set_level`: find, edit, sort. */
  method SetLevel(levels: seq<Level>, ghost m: Depth, price: nat, quantity: nat, descending: bool)
      returns (out: seq<Level>)
    requires Lists(levels, m, descending)
    ensures Lists(out, Put(m, price, quantity), descending)
  {
    var k := FindPrice(levels, price);
    var edited := levels;
    if k < |levels| {
      if quantity == 0 {
        edited := Removed(levels, k);
        RemovedHolds(levels, m, k, descending);
      } else {
        edited := levels[k := levels[k].(quantity := quantity)];
        ReplacedHolds(levels, m, k, quantity, descending);
      }
    } else {
      forall p | p in m ensures p != price {
        var i :| 0 <= i < |levels| && levels[i].price == p;
      }
      if quantity != 0 {
        edited := levels + [Level(price, quantity)];
        PushedHolds(levels, m, price, quantity, descending);
      } else {
        assert m - {price} == m;
        ListedHolds(levels, m, descending);
      }
    }
    out := SortLevels(edited, Put(m, price, quantity), descending);
  }

  lemma ListedHolds(levels: seq<Level>, m: Depth, descending: bool)
    requires Lists(levels, m, descending)
    ensures Holds(levels, m)
  {}

  /** The levels without the one at `k`. */
  function Removed(levels: seq<Level>, k: nat): (out: seq<Level>)
    requires k < |levels|
    ensures |out| == |levels| - 1
    ensures forall i :: 0 <= i < |out| ==> out[i] == levels[if i < k then i else i + 1]
  {
    levels[..k] + levels[k + 1..]
  }

  lemma RemovedDistinct(levels: seq<Level>, k: nat)
    requires Distinct(levels) && k < |levels|
    ensures Distinct(Removed(levels, k))
    ensures forall i :: 0 <= i < |Removed(levels, k)| ==> Removed(levels, k)[i].price != levels[k].price
  {}

  lemma RemovedHolds(levels: seq<Level>, m: Depth, k: nat, descending: bool)
    requires Lists(levels, m, descending) && k < |levels|
    ensures Holds(Removed(levels, k), m - {levels[k].price})
  {
    ListedHolds(levels, m, descending);
    RemovedDistinct(levels, k);
    forall p | p in m && p != levels[k].price
      ensures exists i :: 0 <= i < |Removed(levels, k)| && Removed(levels, k)[i].price == p
    {
      RemovedFinds(levels, k, p);
    }
  }

  lemma RemovedFinds(levels: seq<Level>, k: nat, p: nat)
    requires k < |levels| && p != levels[k].price && exists i :: 0 <= i < |levels| && levels[i].price == p
    ensures exists i :: 0 <= i < |Removed(levels, k)| && Removed(levels, k)[i].price == p
  {
    var i :| 0 <= i < |levels| && levels[i].price == p;
    var at := if i < k then i else i - 1;
    assert Removed(levels, k)[at] == levels[i];
  }

  lemma ReplacedHolds(levels: seq<Level>, m: Depth, k: nat, quantity: nat, descending: bool)
    requires Lists(levels, m, descending) && k < |levels| && quantity != 0
    ensures Holds(levels[k := levels[k].(quantity := quantity)], m[levels[k].price := quantity])
  {
    var out := levels[k := levels[k].(quantity := quantity)];
    forall p | p in m ensures exists i :: 0 <= i < |out| && out[i].price == p {
      var i :| 0 <= i < |levels| && levels[i].price == p;
      assert out[i].price == p;
    }
    assert out[k].price == levels[k].price;
  }

  lemma PushedHolds(levels: seq<Level>, m: Depth, price: nat, quantity: nat, descending: bool)
    requires Lists(levels, m, descending) && price !in m && quantity != 0
    ensures Holds(levels + [Level(price, quantity)], m[price := quantity])
  {
    var out, m' := levels + [Level(price, quantity)], m[price := quantity];
    forall p | p in m' ensures exists i :: 0 <= i < |out| && out[i].price == p {
      if p == price {
        assert out[|levels|].price == p;
      } else {
        var i :| 0 <= i < |levels| && levels[i].price == p;
        assert out[i].price == p;
      }
    }
  }

  /** `normalize_levels`: one `set_level` per supplied level. */
  method NormalizeLevels(levels: seq<Level>, descending: bool) returns (out: seq<Level>)
    ensures Lists(out, PutAll(map[], levels), descending)
  {
    out := [];
    var k := 0;
    while k < |levels|
      invariant 0 <= k <= |levels|
      invariant Lists(out, PutAll(map[], levels[..k]), descending)
    {
      assert levels[..k + 1][..k] == levels[..k];
      out := SetLevel(out, PutAll(map[], levels[..k]), levels[k].price, levels[k].quantity, descending);
      k := k + 1;
    }
    assert levels[..k] == levels;
  }

  lemma {:induction false} ListingExists(m: Depth, descending: bool)
    requires forall p :: p in m ==> m[p] != 0
    ensures exists levels :: Lists(levels, m, descending)
  {
    if m == map[] {
      assert Lists([], m, descending);
    } else {
      var p :| p in m;
      var rest := m - {p};
      ListingExists(rest, descending);
      var sorted: seq<Level> :| Lists(sorted, rest, descending);
      var at := |sorted|;
      while at > 0 && Ahead(p, sorted[at - 1].price, descending)
        invariant 0 <= at <= |sorted|
        invariant forall i :: at <= i < |sorted| ==> Ahead(p, sorted[i].price, descending)
      {
        at := at - 1;
      }
      forall i | 0 <= i < at ensures Ahead(sorted[i].price, p, descending) {
        assert sorted[at - 1].price in rest;
      }
      InsertLevel(sorted, rest, Level(p, m[p]), at, descending);
      assert rest[p := m[p]] == m;
    }
  }

  ghost predicate ZeroFree(m: Depth) {
    forall p :: p in m ==> m[p] != 0
  }

  /** The one level vector that lists a map. */
  ghost function Listing(m: Depth, descending: bool): (levels: seq<Level>)
    requires ZeroFree(m)
    ensures Lists(levels, m, descending)
  {
    ListingExists(m, descending);
    var levels: seq<Level> :| Lists(levels, m, descending);
    levels
  }

  /** A vector that lists a map is the listing of that map. */
  lemma VectorIsListing(levels: seq<Level>, m: Depth, descending: bool)
    requires Lists(levels, m, descending)
    ensures ZeroFree(m) && levels == Listing(m, descending)
  {
    forall p | p in m ensures m[p] != 0 {
      var i :| 0 <= i < |levels| && levels[i].price == p;
    }
    ListingUnique(levels, Listing(m, descending), m, descending);
  }

  // ----- The book -----

  /** The abstract book. */
  datatype BookValue = BookValue(bids: Depth, asks: Depth, stale: bool) {
    ghost predicate Valid() {
      ZeroFree(bids) && ZeroFree(asks)
    }
  }

  function Delta(b: BookValue, side: BookSide, price: nat, quantity: nat): BookValue {
    match side
    case Bid => b.(bids := Put(b.bids, price, quantity))
    case Ask => b.(asks := Put(b.asks, price, quantity))
  }

  function Snapshot(bids: seq<Level>, asks: seq<Level>): BookValue {
    BookValue(PutAll(map[], bids), PutAll(map[], asks), false)
  }

  /** `OrderBook`: two level vectors and the stale flag. */
  class Book {
    var bids: seq<Level>
    var asks: seq<Level>
    var stale: bool
    ghost var value: BookValue

    ghost predicate Valid()
      reads this
    {
      && Lists(bids, value.bids, true)
      && Lists(asks, value.asks, false)
      && stale == value.stale
    }

    constructor ()
      ensures Valid() && value == BookValue(map[], map[], false)
    {
      bids, asks, stale := [], [], false;
      value := BookValue(map[], map[], false);
    }

    /** Replaces both sides and marks the book fresh. */
    method ApplySnapshot(newBids: seq<Level>, newAsks: seq<Level>)
      modifies this
      ensures Valid() && value == Snapshot(newBids, newAsks)
    {
      bids := NormalizeLevels(newBids, true);
      asks := NormalizeLevels(newAsks, false);
      stale := false;
      value := Snapshot(newBids, newAsks);
    }

    /** One absolute level update; the stale flag stays as it is. */
    method ApplyDelta(side: BookSide, price: nat, quantity: nat)
      requires Valid()
      modifies this
      ensures Valid() && value == Delta(old(value), side, price, quantity)
    {
      match side {
        case Bid => bids := SetLevel(bids, value.bids, price, quantity, true);
        case Ask => asks := SetLevel(asks, value.asks, price, quantity, false);
      }
      value := Delta(value, side, price, quantity);
    }

    method MarkStale()
      requires Valid()
      modifies this
      ensures Valid() && value == old(value).(stale := true)
    {
      stale := true;
      value := value.(stale := true);
    }

    /** The highest bid price, if any. */
    method BestBid() returns (best: Option<nat>)
      requires Valid()
      ensures best.None? <==> value.bids == map[]
      ensures best.Some? ==> best.value in value.bids && forall p :: p in value.bids ==> p <= best.value
    {
      FirstIsBest(bids, value.bids, true);
      best := if bids == [] then None else Some(bids[0].price);
    }

    /** The lowest ask price, if any. */
    method BestAsk() returns (best: Option<nat>)
      requires Valid()
      ensures best.None? <==> value.asks == map[]
      ensures best.Some? ==> best.value in value.asks && forall p :: p in value.asks ==> best.value <= p
    {
      FirstIsBest(asks, value.asks, false);
      best := if asks == [] then None else Some(asks[0].price);
    }
  }

  // ----- Runs of snapshots and deltas -----

  datatype BookCall =
    | ApplySnapshot(bids: seq<Level>, asks: seq<Level>)
    | ApplyDelta(side: BookSide, price: nat, quantity: nat)
    | MarkStale

  function AfterCall(b: BookValue, c: BookCall): BookValue {
    match c
    case ApplySnapshot(bids, asks) => Snapshot(bids, asks)
    case ApplyDelta(side, price, quantity) => Delta(b, side, price, quantity)
    case MarkStale => b.(stale := true)
  }

  function AfterCalls(b: BookValue, calls: seq<BookCall>): BookValue {
    if calls == [] then b else AfterCall(AfterCalls(b, calls[..|calls| - 1]), calls[|calls| - 1])
  }

  lemma {:induction false} PutAllZeroFree(m: Depth, levels: seq<Level>)
    requires ZeroFree(m)
    ensures ZeroFree(PutAll(m, levels))
  {
    if levels != [] {
      PutAllZeroFree(m, levels[..|levels| - 1]);
    }
  }

  /** Every reachable book is zero-free, so each side has its unique listing. */
  lemma {:induction false} ReachableValid(calls: seq<BookCall>)
    ensures AfterCalls(BookValue(map[], map[], false), calls).Valid()
  {
    if calls != [] {
      ReachableValid(calls[..|calls| - 1]);
      var c := calls[|calls| - 1];
      if c.ApplySnapshot? {
        PutAllZeroFree(map[], c.bids);
        PutAllZeroFree(map[], c.asks);
      }
    }
  }

  /** The book was marked stale after the last snapshot. */
  ghost predicate MarkedSinceSnapshot(calls: seq<BookCall>) {
    exists i :: 0 <= i < |calls| && calls[i].MarkStale? && forall j :: i < j < |calls| ==> !calls[j].ApplySnapshot?
  }

  /** Only a snapshot clears the stale flag; deltas leave it alone. */
  lemma {:induction false} StaleIff(calls: seq<BookCall>)
    ensures AfterCalls(BookValue(map[], map[], false), calls).stale <==> MarkedSinceSnapshot(calls)
  {
    if calls != [] {
      var front, last := calls[..|calls| - 1], |calls| - 1;
      StaleIff(front);
      if calls[last].MarkStale? {
        assert MarkedSinceSnapshot(calls);
      } else if MarkedSinceSnapshot(front) {
        var i :| 0 <= i < |front| && front[i].MarkStale? && forall j :: i < j < |front| ==> !front[j].ApplySnapshot?;
        assert calls[i] == front[i];
      }
    }
  }

  lemma {:induction false} PutAllAppend(m: Depth, a: seq<Level>, b: seq<Level>)
    ensures PutAll(m, a + b) == PutAll(PutAll(m, a), b)
  {
    if b == [] {
      assert a + b == a;
    } else {
      assert (a + b)[..|a + b| - 1] == a + b[..|b| - 1];
      PutAllAppend(m, a, b[..|b| - 1]);
    }
  }

  /** The deltas of one side, as a level list. */
  function SideDeltas(side: BookSide, levels: seq<Level>): (calls: seq<BookCall>)
    ensures |calls| == |levels|
  {
    seq(|levels|, k requires 0 <= k < |levels| => ApplyDelta(side, levels[k].price, levels[k].quantity))
  }

  lemma {:induction false} DeltasOnSide(b: BookValue, side: BookSide, levels: seq<Level>)
    ensures AfterCalls(b, SideDeltas(side, levels))
         == match side
            case Bid => b.(bids := PutAll(b.bids, levels))
            case Ask => b.(asks := PutAll(b.asks, levels))
  {
    if levels != [] {
      var shorter := levels[..|levels| - 1];
      assert SideDeltas(side, levels)[..|levels| - 1] == SideDeltas(side, shorter);
      DeltasOnSide(b, side, shorter);
    }
  }

  /** A snapshot followed by deltas on a side is the snapshot of the longer list. */
  lemma SnapshotThenDeltas(bids: seq<Level>, asks: seq<Level>, deltas: seq<Level>)
    ensures AfterCalls(Snapshot(bids, asks), SideDeltas(Bid, deltas)) == Snapshot(bids + deltas, asks)
    ensures AfterCalls(Snapshot(bids, asks), SideDeltas(Ask, deltas)) == Snapshot(bids, asks + deltas)
  {
    DeltasOnSide(Snapshot(bids, asks), Bid, deltas);
    DeltasOnSide(Snapshot(bids, asks), Ask, deltas);
    PutAllAppend(map[], bids, deltas);
    PutAllAppend(map[], asks, deltas);
  }

  /** Deltas at distinct prices commute; at one price the later one wins. */
  lemma DeltasCommute(b: BookValue, side: BookSide, p: nat, q: nat, p': nat, q': nat)
    ensures p != p' ==> Delta(Delta(b, side, p, q), side, p', q') == Delta(Delta(b, side, p', q'), side, p, q)
    ensures p == p' ==> Delta(Delta(b, side, p, q), side, p', q') == Delta(b, side, p', q')
  {
    var m := if side.Bid? then b.bids else b.asks;
    if p != p' {
      assert Put(Put(m, p, q), p', q') == Put(Put(m, p', q'), p, q);
    } else {
      assert Put(Put(m, p, q), p', q') == Put(m, p', q');
    }
  }
}

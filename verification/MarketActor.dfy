// The authoritative market actor (src/engine/market_actor.rs): one local book
// kept in step with the venue by sequenced snapshots and deltas.
module MarketActor {
  import opened Domain
  import opened OrderBook

  datatype BookSnapshot = BookSnapshot(
    token: string,
    sequence: Option<nat>,
    bids: seq<Level>,
    asks: seq<Level>,
    bookHash: Option<nat>)

  datatype BookDelta = BookDelta(
    token: string,
    sequence: Option<nat>,
    side: BookSide,
    price: nat,
    quantity: Option<nat>,
    bookHash: Option<nat>)

  /** Messages of the market stream. The five kinds that never touch the book
      (last trade, tick size, best bid/ask, new market, resolution) are Other. */
  datatype Message = SnapshotMessage(snapshot: BookSnapshot) | DeltaMessage(delta: BookDelta) | Other

  /** The change-detection hash of the top five levels, left uninterpreted. */
  type BookHash = (seq<Level>, seq<Level>) -> nat

  function Top(levels: seq<Level>): seq<Level> {
    if |levels| <= 5 then levels else levels[..5]
  }

  /** The hash covers a side's first five levels, or all it has. */
  lemma TopIsFirstFive(levels: seq<Level>)
    ensures Top(levels) <= levels && |Top(levels)| == Min(5, |levels|)
  {}

  ghost function HashOf(hash: BookHash, b: BookValue): nat
    requires b.Valid()
  {
    hash(Top(Listing(b.bids, true)), Top(Listing(b.asks, false)))
  }

  ghost function Checked(hash: BookHash, b: BookValue, expected: Option<nat>): BookValue
    requires b.Valid()
  {
    if expected.Some? && HashOf(hash, b) != expected.value then b.(stale := true) else b
  }

  datatype State = State(book: BookValue, next: Option<nat>)

  ghost const INITIAL := State(BookValue(map[], map[], true), None)

  ghost function AfterSnapshot(hash: BookHash, yes: string, s: State, m: BookSnapshot): (s': State)
    requires s.book.Valid()
    ensures s'.book.Valid()
  {
    if m.token != yes then s
    else
      PutAllZeroFree(map[], m.bids);
      PutAllZeroFree(map[], m.asks);
      State(Checked(hash, Snapshot(m.bids, m.asks), m.bookHash),
            if m.sequence.Some? then Some(SatIncrement(m.sequence.value)) else None)
  }

  /** Whether the sequence of a delta breaks the chain. */
  predicate Gap(next: Option<nat>, sequence: Option<nat>) {
    next.Some? && sequence != next
  }

  ghost function AfterDelta(hash: BookHash, yes: string, s: State, m: BookDelta): (s': State)
    requires s.book.Valid()
    ensures s'.book.Valid()
  {
    if m.token != yes then s
    else
      var judged := if Gap(s.next, m.sequence) then s.book.(stale := true) else s.book;
      var edited := if m.quantity.Some? then Delta(judged, m.side, m.price, m.quantity.value) else judged;
      State(Checked(hash, edited, m.bookHash),
            if m.sequence.Some? then Some(SatIncrement(m.sequence.value)) else s.next)
  }

  ghost function AfterMessage(hash: BookHash, yes: string, s: State, m: Message): (s': State)
    requires s.book.Valid()
    ensures s'.book.Valid()
  {
    match m
    case SnapshotMessage(snapshot) => AfterSnapshot(hash, yes, s, snapshot)
    case DeltaMessage(delta) => AfterDelta(hash, yes, s, delta)
    case Other => s
  }

  ghost function After(hash: BookHash, yes: string, messages: seq<Message>): (s: State)
    ensures s.book.Valid()
  {
    if messages == [] then INITIAL
    else AfterMessage(hash, yes, After(hash, yes, messages[..|messages| - 1]), messages[|messages| - 1])
  }

  /** What a consumer sees: the book and its trust state together. */
  datatype MarketSnapshot = MarketSnapshot(bids: seq<Level>, asks: seq<Level>, stale: bool)

  ghost function View(s: State): MarketSnapshot
    requires s.book.Valid()
  {
    MarketSnapshot(Listing(s.book.bids, true), Listing(s.book.asks, false), s.book.stale)
  }

  /** `MarketActor`: owner of the book, with an optional snapshot observer. */
  class Actor {
    const yesToken: string
    const hash: BookHash
    const book: Book
    const observing: bool
    var nextSequence: Option<nat>
    var observed: MarketSnapshot

    ghost predicate Valid()
      reads this, book
    {
      book.Valid() && book.value.Valid() && (observing ==> observed == View(Value()))
    }

    ghost function Value(): State
      reads this, book
    {
      State(book.value, nextSequence)
    }

    constructor (token: string, bookHash: BookHash, observe: bool)
      ensures Valid() && fresh(book) && yesToken == token && hash == bookHash && observing == observe
      ensures Value() == INITIAL
    {
      yesToken, hash, observing := token, bookHash, observe;
      book := new Book();
      nextSequence := None;
      observed := MarketSnapshot([], [], true);
      new;
      book.MarkStale();
      observed := LatestSnapshot();
    }

    /** The book and the stale flag as one value. */
    method LatestSnapshot() returns (view: MarketSnapshot)
      requires book.Valid()
      ensures book.value.Valid() && view == View(Value())
      ensures view.bids == book.bids && view.asks == book.asks && view.stale == book.stale
    {
      VectorIsListing(book.bids, book.value.bids, true);
      VectorIsListing(book.asks, book.value.asks, false);
      view := MarketSnapshot(book.bids, book.asks, book.stale);
    }

    /** Marks the book stale when its hash is not the expected one. */
    method CheckHash(expected: Option<nat>)
      requires book.Valid() && book.value.Valid()
      modifies book
      ensures book.Valid() && book.value == Checked(hash, old(book.value), expected)
    {
      VectorIsListing(book.bids, book.value.bids, true);
      VectorIsListing(book.asks, book.value.asks, false);
      if expected.Some? && hash(Top(book.bids), Top(book.asks)) != expected.value {
        book.MarkStale();
      }
    }

    method ApplySnapshot(m: BookSnapshot)
      requires book.Valid() && book.value.Valid()
      modifies this, book
      ensures book.Valid() && Value() == AfterSnapshot(hash, yesToken, old(Value()), m)
    {
      if m.token != yesToken {
        return;
      }
      book.ApplySnapshot(m.bids, m.asks);
      nextSequence := match m.sequence case Some(n) => Some(SatIncrement(n)) case None => None;
      PutAllZeroFree(map[], m.bids);
      PutAllZeroFree(map[], m.asks);
      CheckHash(m.bookHash);
    }

    method ApplyDelta(m: BookDelta)
      requires book.Valid() && book.value.Valid()
      modifies this, book
      ensures book.Valid() && Value() == AfterDelta(hash, yesToken, old(Value()), m)
    {
      if m.token != yesToken {
        return;
      }
      match (nextSequence, m.sequence) {
        case (Some(expected), Some(actual)) =>
          if expected != actual {
            book.MarkStale();
          }
        case (Some(_), None) => book.MarkStale();
        case _ =>
      }
      if m.quantity.Some? {
        book.ApplyDelta(m.side, m.price, m.quantity.value);
      }
      CheckHash(m.bookHash);
      if m.sequence.Some? {
        nextSequence := Some(SatIncrement(m.sequence.value));
      }
    }

    /** Applies one message, then refreshes the observer if there is one. */
    method ApplyMessage(m: Message)
      requires Valid()
      modifies this, book
      ensures Valid()
      ensures Value() == AfterMessage(hash, yesToken, old(Value()), m)
    {
      match m {
        case SnapshotMessage(snapshot) => ApplySnapshot(snapshot);
        case DeltaMessage(delta) => ApplyDelta(delta);
        case Other =>
      }
      if observing {
        observed := LatestSnapshot();
      }
    }
  }
}

// What a market stream must carry for a fresh book to be trusted: unnumbered
// streams (as the live adapter sends them), deltas without a size, and hashes.
module ResyncLimits {
  import opened Domain
  import opened OrderBook
  import opened MarketActor
  import opened Resync

  // ----- Unnumbered streams -----

  /** A YES delta without a number; other messages at will, but no YES snapshot. */
  predicate Unnumbered(yes: string, m: Message) {
    !YesSnapshot(yes, m) && (YesDelta(yes, m) ==> m.delta.sequence == None)
  }

  /** A book with the sized YES deltas of a stream put on it, in order. */
  function Edited(yes: string, b: BookValue, ms: seq<Message>): (r: BookValue)
    ensures r.stale == b.stale && (b.Valid() ==> r.Valid())
  {
    if ms == [] then b
    else
      var front, m := Edited(yes, b, ms[..|ms| - 1]), ms[|ms| - 1];
      if YesDelta(yes, m) && m.delta.quantity.Some? then
        Delta(front, m.delta.side, m.delta.price, m.delta.quantity.value)
      else front
  }

  /** The book a snapshot brings. */
  ghost function SnapshotBook(m: BookSnapshot): (b: BookValue)
    ensures b == Snapshot(m.bids, m.asks) && b.Valid()
  {
    PutAllZeroFree(map[], m.bids);
    PutAllZeroFree(map[], m.asks);
    Snapshot(m.bids, m.asks)
  }

  /** Every hash a YES delta carries is that of the book it leads to. */
  ghost predicate HashesAgree(hash: BookHash, yes: string, b: BookValue, ms: seq<Message>)
    requires b.Valid()
  {
    ms != [] ==>
      var m := ms[|ms| - 1];
      && HashesAgree(hash, yes, b, ms[..|ms| - 1])
      && (YesDelta(yes, m) && m.delta.bookHash.Some? ==> HashOf(hash, Edited(yes, b, ms)) == m.delta.bookHash.value)
  }

  /** No hash of a snapshot and the deltas after it contradicts the edited book. */
  ghost predicate Unchallenged(hash: BookHash, yes: string, snapshot: BookSnapshot, ms: seq<Message>) {
    var b := SnapshotBook(snapshot);
    && (snapshot.bookHash.Some? ==> HashOf(hash, b) == snapshot.bookHash.value)
    && HashesAgree(hash, yes, b, ms)
  }

  lemma {:induction false} HashlessAgree(hash: BookHash, yes: string, b: BookValue, ms: seq<Message>)
    requires b.Valid() && forall m :: m in ms && YesDelta(yes, m) ==> m.delta.bookHash == None
    ensures HashesAgree(hash, yes, b, ms)
  {
    if ms != [] {
      HashlessAgree(hash, yes, b, ms[..|ms| - 1]);
      assert ms[|ms| - 1] in ms;
    }
  }

  /** After an unnumbered snapshot, with or without a hash, and any unnumbered
      deltas, with or without hashes, the book is the snapshot edited by what
      arrived, and only a contradicting hash makes it stale: nothing is ever found
      missing. Without hashes on the deltas, as the adapter sends them, a snapshot
      with its own hash stays fresh. */
  lemma UnnumberedFreshIff(hash: BookHash, yes: string, before: seq<Message>, snapshot: BookSnapshot, ms: seq<Message>)
    requires snapshot.token == yes && snapshot.sequence == None
    requires forall m :: m in ms ==> Unnumbered(yes, m)
    ensures After(hash, yes, before + [SnapshotMessage(snapshot)] + ms)
         == State(StreamBook(hash, yes, snapshot, ms), None)
    ensures (forall m :: m in ms && YesDelta(yes, m) ==> m.delta.bookHash == None) ==>
              (Unchallenged(hash, yes, snapshot, ms)
               <==> (snapshot.bookHash.Some? ==> HashOf(hash, SnapshotBook(snapshot)) == snapshot.bookHash.value))
  {
    UnnumberedState(hash, yes, before, snapshot, ms);
    if forall m :: m in ms && YesDelta(yes, m) ==> m.delta.bookHash == None {
      HashlessAgree(hash, yes, SnapshotBook(snapshot), ms);
    }
  }

  /** One more message without a gap: the book is edited, and only a hash that
      contradicts it makes it stale. */
  lemma EditStep(hash: BookHash, yes: string, snapshot: BookSnapshot, ms: seq<Message>, s: State)
    requires ms != [] && !YesSnapshot(yes, ms[|ms| - 1])
    requires YesDelta(yes, ms[|ms| - 1]) ==> !Gap(s.next, ms[|ms| - 1].delta.sequence)
    requires s.book == StreamBook(hash, yes, snapshot, ms[..|ms| - 1])
    ensures AfterMessage(hash, yes, s, ms[|ms| - 1]).book == StreamBook(hash, yes, snapshot, ms)
  {}

  /** The actor's book after a snapshot and a stream without gaps. */
  ghost function StreamBook(hash: BookHash, yes: string, snapshot: BookSnapshot, ms: seq<Message>): (b: BookValue)
    ensures b.Valid()
  {
    Edited(yes, SnapshotBook(snapshot), ms).(stale := !Unchallenged(hash, yes, snapshot, ms))
  }

  lemma {:induction false} UnnumberedState(
      hash: BookHash, yes: string, before: seq<Message>, snapshot: BookSnapshot, ms: seq<Message>)
    requires snapshot.token == yes && snapshot.sequence == None
    requires forall m :: m in ms ==> Unnumbered(yes, m)
    ensures After(hash, yes, before + [SnapshotMessage(snapshot)] + ms)
         == State(StreamBook(hash, yes, snapshot, ms), None)
  {
    var start := before + [SnapshotMessage(snapshot)];
    if ms == [] {
      assert start + ms == start && start[..|start| - 1] == before;
    } else {
      var front, last := ms[..|ms| - 1], ms[|ms| - 1];
      UnnumberedState(hash, yes, before, snapshot, front);
      assert (start + ms)[..|start + ms| - 1] == start + front;
      assert last in ms;
      EditStep(hash, yes, snapshot, ms, After(hash, yes, start + front));
    }
  }

  function Side(b: BookValue, side: BookSide): Depth {
    match side case Bid => b.bids case Ask => b.asks
  }

  /** The quantity at a price, zero if there is none. */
  function Quantity(m: Depth, price: nat): nat {
    if price in m then m[price] else 0
  }

  /** The quantity the last sized YES delta at a price writes, or else `base`. */
  function LastWritten(yes: string, ms: seq<Message>, side: BookSide, price: nat, base: nat): nat {
    if ms == [] then base
    else
      var m := ms[|ms| - 1];
      if WritesAt(yes, m, side, price) then m.delta.quantity.value
      else LastWritten(yes, ms[..|ms| - 1], side, price, base)
  }

  lemma {:induction false} EditedQuantity(yes: string, b: BookValue, ms: seq<Message>, side: BookSide, price: nat)
    ensures Quantity(Side(Edited(yes, b, ms), side), price)
            == LastWritten(yes, ms, side, price, Quantity(Side(b, side), price))
  {
    if ms != [] {
      EditedQuantity(yes, b, ms[..|ms| - 1], side, price);
    }
  }

  lemma SameQuantities(a: BookValue, b: BookValue)
    requires a.Valid() && b.Valid() && a.stale == b.stale
    ensures a == b <==> forall side, price: nat :: Quantity(Side(a, side), price) == Quantity(Side(b, side), price)
  {
    if forall side, price: nat :: Quantity(Side(a, side), price) == Quantity(Side(b, side), price) {
      SameDepth(Side(a, Bid), Side(b, Bid));
      SameDepth(Side(a, Ask), Side(b, Ask));
    }
  }

  lemma SameDepth(m: Depth, m': Depth)
    requires ZeroFree(m) && ZeroFree(m') && forall price: nat :: Quantity(m, price) == Quantity(m', price)
    ensures m == m'
  {
    forall p ensures p in m <==> p in m' {
      assert Quantity(m, p) == Quantity(m', p);
    }
    forall p | p in m ensures m[p] == m'[p] {
      assert Quantity(m, p) == Quantity(m', p);
    }
  }

  /** The levels of the actor's book, whether or not it is stale. */
  function Levels(s: State): BookValue {
    s.book.(stale := false)
  }

  /** Exactly when the book of an unnumbered stream is the venue's: `sent` is what
      the venue sent since the snapshot, `delivered` what arrived of it, in whatever
      number, order and repetition. The two must agree on the last quantity written
      at every price. The actor knows of it only through hashes. */
  lemma DeliveredIsSentIff(hash: BookHash, yes: string, before: seq<Message>, snapshot: BookSnapshot,
                           delivered: seq<Message>, sent: seq<Message>)
    requires snapshot.token == yes && snapshot.sequence == None
    requires forall m :: m in delivered ==> Unnumbered(yes, m)
    ensures var start := SnapshotBook(snapshot);
            var s := After(hash, yes, before + [SnapshotMessage(snapshot)] + delivered);
            && (!s.book.stale <==> Unchallenged(hash, yes, snapshot, delivered))
            && (Levels(s) == Edited(yes, start, sent)
                <==> forall side, price: nat ::
                       LastWritten(yes, delivered, side, price, Quantity(Side(start, side), price))
                       == LastWritten(yes, sent, side, price, Quantity(Side(start, side), price)))
  {
    UnnumberedFreshIff(hash, yes, before, snapshot, delivered);
    EditedSameIff(yes, SnapshotBook(snapshot), delivered, sent);
  }

  /** Two streams put on one book give the same book exactly if they agree on the
      last quantity written at every price. */
  lemma EditedSameIff(yes: string, start: BookValue, a: seq<Message>, b: seq<Message>)
    requires start.Valid()
    ensures Edited(yes, start, a) == Edited(yes, start, b)
       <==> forall side, price: nat ::
              LastWritten(yes, a, side, price, Quantity(Side(start, side), price))
              == LastWritten(yes, b, side, price, Quantity(Side(start, side), price))
  {
    SameQuantities(Edited(yes, start, a), Edited(yes, start, b));
    forall side, price: nat
      ensures Quantity(Side(Edited(yes, start, a), side), price)
           == LastWritten(yes, a, side, price, Quantity(Side(start, side), price))
      ensures Quantity(Side(Edited(yes, start, b), side), price)
           == LastWritten(yes, b, side, price, Quantity(Side(start, side), price))
    {
      EditedQuantity(yes, start, a, side, price);
      EditedQuantity(yes, start, b, side, price);
    }
  }

  /** Some sized YES delta of the stream writes this price. */
  predicate Rewrites(yes: string, ms: seq<Message>, side: BookSide, price: nat) {
    ms != [] && (WritesAt(yes, ms[|ms| - 1], side, price) || Rewrites(yes, ms[..|ms| - 1], side, price))
  }

  predicate WritesAt(yes: string, m: Message, side: BookSide, price: nat) {
    YesDelta(yes, m) && m.delta.quantity.Some? && m.delta.side == side && m.delta.price == price
  }

  lemma {:induction false} LastWrittenBase(yes: string, ms: seq<Message>, side: BookSide, price: nat, base: nat,
                                           base': nat)
    ensures LastWritten(yes, ms, side, price, base) == LastWritten(yes, ms, side, price, base')
       <==> base == base' || Rewrites(yes, ms, side, price)
  {
    if ms != [] {
      LastWrittenBase(yes, ms[..|ms| - 1], side, price, base, base');
    }
  }

  lemma {:induction false} LastWrittenJoin(yes: string, a: seq<Message>, b: seq<Message>, side: BookSide,
                                           price: nat, base: nat)
    ensures LastWritten(yes, a + b, side, price, base)
            == LastWritten(yes, b, side, price, LastWritten(yes, a, side, price, base))
  {
    if b == [] {
      assert a + b == a;
    } else {
      assert (a + b)[..|a + b| - 1] == a + b[..|b| - 1];
      LastWrittenJoin(yes, a, b[..|b| - 1], side, price, base);
    }
  }

  /** A lost delta of an unnumbered stream, wherever in the stream it is lost: the
      book is the venue's exactly if the delta changed nothing or a later one that
      arrives rewrites its price, and the loss goes unseen exactly if no hash that
      arrives contradicts the book, so always if the deltas carry none. */
  lemma UnsequencedLossGoesUnseen(hash: BookHash, yes: string, before: seq<Message>, snapshot: BookSnapshot,
                                  earlier: seq<Message>, lost: BookDelta, later: seq<Message>)
    requires snapshot.token == yes && snapshot.sequence == None
    requires forall m :: m in earlier + later ==> Unnumbered(yes, m)
    requires lost.token == yes && lost.quantity.Some?
    ensures var start := SnapshotBook(snapshot);
            var s := After(hash, yes, before + [SnapshotMessage(snapshot)] + (earlier + later));
            && (!s.book.stale <==> Unchallenged(hash, yes, snapshot, earlier + later))
            && (Levels(s) == Edited(yes, start, earlier + [DeltaMessage(lost)] + later)
                <==> || Quantity(Side(Edited(yes, start, earlier), lost.side), lost.price) == lost.quantity.value
                     || Rewrites(yes, later, lost.side, lost.price))
  {
    UnnumberedFreshIff(hash, yes, before, snapshot, earlier + later);
    LossIff(yes, SnapshotBook(snapshot), earlier, lost, later);
  }

  lemma LossIff(yes: string, start: BookValue, earlier: seq<Message>, lost: BookDelta, later: seq<Message>)
    requires start.Valid() && lost.token == yes && lost.quantity.Some?
    ensures Edited(yes, start, earlier + later) == Edited(yes, start, earlier + [DeltaMessage(lost)] + later)
       <==> || Quantity(Side(Edited(yes, start, earlier), lost.side), lost.price) == lost.quantity.value
            || Rewrites(yes, later, lost.side, lost.price)
  {
    var sent := earlier + [DeltaMessage(lost)] + later;
    EditedSameIff(yes, start, earlier + later, sent);
    forall side, price: nat
      ensures LastWritten(yes, earlier + later, side, price, Quantity(Side(start, side), price))
              == LastWritten(yes, sent, side, price, Quantity(Side(start, side), price))
         <==> || !(side == lost.side && price == lost.price)
              || Quantity(Side(Edited(yes, start, earlier), side), price) == lost.quantity.value
              || Rewrites(yes, later, side, price)
    {
      LossAt(yes, start, earlier, lost, later, side, price);
    }
  }

  lemma LossAt(yes: string, start: BookValue, earlier: seq<Message>, lost: BookDelta, later: seq<Message>,
               side: BookSide, price: nat)
    requires lost.token == yes && lost.quantity.Some?
    ensures LastWritten(yes, earlier + later, side, price, Quantity(Side(start, side), price))
            == LastWritten(yes, earlier + [DeltaMessage(lost)] + later, side, price, Quantity(Side(start, side), price))
       <==> || !(side == lost.side && price == lost.price)
            || Quantity(Side(Edited(yes, start, earlier), side), price) == lost.quantity.value
            || Rewrites(yes, later, side, price)
  {
    var base := Quantity(Side(start, side), price);
    var withLost := earlier + [DeltaMessage(lost)];
    var a, b := LastWritten(yes, earlier, side, price, base), LastWritten(yes, withLost, side, price, base);
    assert withLost[..|withLost| - 1] == earlier;
    assert b == if side == lost.side && price == lost.price then lost.quantity.value else a;
    EditedQuantity(yes, start, earlier, side, price);
    LastWrittenJoin(yes, earlier, later, side, price, base);
    LastWrittenJoin(yes, withLost, later, side, price, base);
    LastWrittenBase(yes, later, side, price, a, b);
  }

  // ----- Deltas without a size -----

  /** Deltas numbered without a gap from `n` on; a delta may lack its size. */
  predicate Contiguous(yes: string, n: nat, ms: seq<Message>) {
    ms != [] ==>
      var front, m := ms[..|ms| - 1], ms[|ms| - 1];
      && Contiguous(yes, n, front)
      && !YesSnapshot(yes, m)
      && (YesDelta(yes, m) ==> m.delta.sequence == Some(n + DeltaCount(yes, front) + 1))
  }

  lemma {:induction false} ContiguousState(
      hash: BookHash, yes: string, before: seq<Message>, snapshot: BookSnapshot, n: nat, ms: seq<Message>)
    requires snapshot.token == yes && snapshot.sequence == Some(n)
    requires Contiguous(yes, n, ms) && n + |ms| + 1 < U64_MAX
    ensures DeltaCount(yes, ms) <= |ms|
    ensures After(hash, yes, before + [SnapshotMessage(snapshot)] + ms)
         == State(StreamBook(hash, yes, snapshot, ms), Some(n + DeltaCount(yes, ms) + 1))
  {
    var start := before + [SnapshotMessage(snapshot)];
    if ms == [] {
      assert start + ms == start && start[..|start| - 1] == before;
    } else {
      ContiguousState(hash, yes, before, snapshot, n, ms[..|ms| - 1]);
      assert (start + ms)[..|start + ms| - 1] == start + ms[..|ms| - 1];
      EditStep(hash, yes, snapshot, ms, After(hash, yes, start + ms[..|ms| - 1]));
    }
  }

  /** A delta without a size on a numbered stream that arrives complete and in
      order: the book is the venue's exactly if the delta changed nothing or a later
      one rewrites its price, and only a hash can tell. */
  lemma OmittedSizeSoundIff(hash: BookHash, yes: string, before: seq<Message>, snapshot: BookSnapshot, n: nat,
                            earlier: seq<Message>, omitted: BookDelta, quantity: nat, later: seq<Message>)
    requires snapshot.token == yes && snapshot.sequence == Some(n)
    requires omitted.token == yes && omitted.quantity == None
    requires Contiguous(yes, n, earlier + [DeltaMessage(omitted)] + later) && n + |earlier| + |later| + 2 < U64_MAX
    ensures var start, got := SnapshotBook(snapshot), earlier + [DeltaMessage(omitted)] + later;
            var s := After(hash, yes, before + [SnapshotMessage(snapshot)] + got);
            && (!s.book.stale <==> Unchallenged(hash, yes, snapshot, got))
            && (Levels(s) == Edited(yes, start, earlier + [DeltaMessage(omitted.(quantity := Some(quantity)))] + later)
                <==> || Quantity(Side(Edited(yes, start, earlier), omitted.side), omitted.price) == quantity
                     || Rewrites(yes, later, omitted.side, omitted.price))
  {
    var start, whole := SnapshotBook(snapshot), omitted.(quantity := Some(quantity));
    ContiguousState(hash, yes, before, snapshot, n, earlier + [DeltaMessage(omitted)] + later);
    WithoutSize(yes, start, earlier, omitted, later);
    LossIff(yes, start, earlier, whole, later);
  }

  lemma WithoutSize(yes: string, b: BookValue, earlier: seq<Message>, omitted: BookDelta, later: seq<Message>)
    requires omitted.quantity == None
    ensures Edited(yes, b, earlier + [DeltaMessage(omitted)] + later) == Edited(yes, b, earlier + later)
  {
    var longer := earlier + [DeltaMessage(omitted)];
    EditedJoin(yes, b, longer, later);
    EditedJoin(yes, b, earlier, later);
    assert longer[..|longer| - 1] == earlier;
  }

  lemma {:induction false} EditedJoin(yes: string, b: BookValue, a: seq<Message>, c: seq<Message>)
    ensures Edited(yes, b, a + c) == Edited(yes, Edited(yes, b, a), c)
  {
    if c == [] {
      assert a + c == a;
    } else {
      assert (a + c)[..|a + c| - 1] == a + c[..|c| - 1];
      EditedJoin(yes, b, a, c[..|c| - 1]);
    }
  }

  // ----- Formats -----

  /** What the messages of a feed carry. */
  datatype Format = Format(
    snapshotNumbered: bool,
    deltaNumbered: bool,
    sized: bool,
    snapshotHashed: bool,
    deltaHashed: bool)

  /** A message with the version of the venue's book that it brings. */
  datatype Sent = Sent(message: Message, version: nat)

  function Field<T>(present: bool, value: T): Option<T> {
    if present then Some(value) else None
  }

  /** A YES message as a venue of this format sends it. */
  ghost predicate FromVenue(f: Format, hash: BookHash, yes: string, venue: History, x: Sent)
    requires ProperHistory(venue)
  {
    && x.version < U64_MAX
    && (YesSnapshot(yes, x.message) ==> SnapshotFrom(f, hash, venue, x.message.snapshot, x.version))
    && (YesDelta(yes, x.message) ==> exists q :: DeltaFrom(f, hash, venue, x.message.delta, x.version, q))
  }

  ghost predicate SnapshotFrom(f: Format, hash: BookHash, venue: History, m: BookSnapshot, n: nat)
    requires ProperHistory(venue)
  {
    && venue(n) == Snapshot(m.bids, m.asks)
    && m.sequence == Field(f.snapshotNumbered, n)
    && m.bookHash == Field(f.snapshotHashed, HashOf(hash, venue(n)))
  }

  ghost predicate DeltaFrom(f: Format, hash: BookHash, venue: History, m: BookDelta, n: nat, q: nat)
    requires ProperHistory(venue)
  {
    && n >= 1 && venue(n) == Delta(venue(n - 1), m.side, m.price, q)
    && m.quantity == Field(f.sized, q)
    && m.sequence == Field(f.deltaNumbered, n)
    && m.bookHash == Field(f.deltaHashed, HashOf(hash, venue(n)))
  }

  function Messages(xs: seq<Sent>): (ms: seq<Message>)
    ensures |ms| == |xs| && forall i :: 0 <= i < |xs| ==> ms[i] == xs[i].message
  {
    seq(|xs|, i requires 0 <= i < |xs| => xs[i].message)
  }

  predicate IsYes(yes: string, m: Message) {
    YesSnapshot(yes, m) || YesDelta(yes, m)
  }

  function VersionAfter(yes: string, x: Sent, last: nat): nat {
    if IsYes(yes, x.message) then x.version else last
  }

  /** The version the last YES message brought. */
  function LastVersion(yes: string, xs: seq<Sent>): nat {
    if xs == [] then 0
    else
      var x := xs[|xs| - 1];
      VersionAfter(yes, x, LastVersion(yes, xs[..|xs| - 1]))
  }

  ghost predicate Delivered(f: Format, hash: BookHash, yes: string, venue: History, xs: seq<Sent>) {
    ProperHistory(venue) && forall x :: x in xs ==> FromVenue(f, hash, yes, venue, x)
  }

  /** The venue's book, if the actor is fresh after these deliveries. */
  ghost predicate RightIfFresh(hash: BookHash, yes: string, venue: History, xs: seq<Sent>) {
    var s := After(hash, yes, Messages(xs));
    !s.book.stale ==> s.book == venue(LastVersion(yes, xs))
  }

  /** For every venue of this format and every loss, repetition and reordering of
      its messages, a fresh book is the venue's book of the last message. */
  ghost predicate Sound(f: Format, hash: BookHash) {
    forall yes, venue, xs :: Delivered(f, hash, yes, venue, xs) ==> RightIfFresh(hash, yes, venue, xs)
  }

  lemma RunStep(hash: BookHash, yes: string, xs: seq<Sent>)
    requires xs != []
    ensures After(hash, yes, Messages(xs))
            == AfterMessage(hash, yes, After(hash, yes, Messages(xs[..|xs| - 1])), xs[|xs| - 1].message)
  {
    assert Messages(xs)[..|xs| - 1] == Messages(xs[..|xs| - 1]);
  }

  // ----- Message by message -----

  /** No other book has the hash of this one. */
  ghost predicate ToldApart(hash: BookHash, v: BookValue)
    requires v.Valid()
  {
    forall b: BookValue :: b.Valid() && b.stale == v.stale && HashOf(hash, b) == HashOf(hash, v) ==> b == v
  }

  /** A YES message as some venue sends it, with any of its fields left out. */
  ghost predicate Honest(hash: BookHash, yes: string, venue: History, x: Sent)
    requires ProperHistory(venue)
  {
    exists f :: FromVenue(f, hash, yes, venue, x)
  }

  /** A YES delta, if it is one, carries a hash that tells its book apart. */
  ghost predicate Checkable(hash: BookHash, yes: string, venue: History, x: Sent)
    requires ProperHistory(venue)
  {
    YesDelta(yes, x.message) ==> x.message.delta.bookHash.Some? && ToldApart(hash, venue(x.version))
  }

  /** A YES snapshot is numbered; a YES delta that is numbered too has its size or
      such a hash. An unnumbered delta is no danger then: it makes the book stale. */
  ghost predicate Chained(hash: BookHash, yes: string, venue: History, x: Sent)
    requires ProperHistory(venue)
  {
    var m := x.message;
    && (YesSnapshot(yes, m) ==> m.snapshot.sequence.Some?)
    && (YesDelta(yes, m) && m.delta.sequence.Some? ==> m.delta.quantity.Some? || Checkable(hash, yes, venue, x))
  }

  /** A fresh book expects the number after `n`. */
  predicate Expects(s: State, n: nat) {
    !s.book.stale ==> s.next == Some(n + 1)
  }

  /** One guarded message keeps a fresh book right. */
  lemma GuardedStep(hash: BookHash, yes: string, venue: History, s: State, x: Sent, last: nat)
    requires ProperHistory(venue) && Honest(hash, yes, venue, x) && s.book.Valid()
    requires !s.book.stale ==> s.book == venue(last)
    requires Checkable(hash, yes, venue, x) || (Chained(hash, yes, venue, x) && Expects(s, last))
    ensures var s' := AfterMessage(hash, yes, s, x.message);
            !s'.book.stale ==> s'.book == venue(VersionAfter(yes, x, last))
  {
    var f :| FromVenue(f, hash, yes, venue, x);
  }

  lemma ChainedStep(hash: BookHash, yes: string, venue: History, s: State, x: Sent, last: nat)
    requires ProperHistory(venue) && Honest(hash, yes, venue, x) && s.book.Valid()
    requires Chained(hash, yes, venue, x) && Expects(s, last)
    ensures Expects(AfterMessage(hash, yes, s, x.message), VersionAfter(yes, x, last))
  {
    var f :| FromVenue(f, hash, yes, venue, x);
  }

  /** A fresh book is the venue's if every YES delta carries a hash that tells its
      book apart, whatever is numbered; or if all YES snapshots are numbered and
      each numbered YES delta has its size or such a hash. */
  lemma {:induction false} GuardedSound(hash: BookHash, yes: string, venue: History, xs: seq<Sent>)
    requires ProperHistory(venue) && forall x :: x in xs ==> Honest(hash, yes, venue, x)
    requires || (forall x :: x in xs ==> Checkable(hash, yes, venue, x))
             || (forall x :: x in xs ==> Chained(hash, yes, venue, x))
    ensures RightIfFresh(hash, yes, venue, xs)
    ensures (forall x :: x in xs ==> Chained(hash, yes, venue, x)) ==>
              Expects(After(hash, yes, Messages(xs)), LastVersion(yes, xs))
  {
    if xs != [] {
      var front, x := xs[..|xs| - 1], xs[|xs| - 1];
      GuardedSound(hash, yes, venue, front);
      RunStep(hash, yes, xs);
      assert x in xs;
      var s := After(hash, yes, Messages(front));
      GuardedStep(hash, yes, venue, s, x, LastVersion(yes, front));
      if forall y :: y in xs ==> Chained(hash, yes, venue, y) {
        ChainedStep(hash, yes, venue, s, x, LastVersion(yes, front));
      }
    }
  }

  // ----- The sound formats -----

  /** Snapshots are numbered, and deltas that are numbered have their sizes. */
  predicate SoundFormat(f: Format) {
    f.snapshotNumbered && (f.deltaNumbered ==> f.sized)
  }

  lemma SoundFormatHolds(f: Format, hash: BookHash, yes: string, venue: History, xs: seq<Sent>)
    requires SoundFormat(f) && Delivered(f, hash, yes, venue, xs)
    ensures RightIfFresh(hash, yes, venue, xs)
  {
    forall x | x in xs ensures Honest(hash, yes, venue, x) && Chained(hash, yes, venue, x) {
      assert FromVenue(f, hash, yes, venue, x);
    }
    GuardedSound(hash, yes, venue, xs);
  }

  // ----- Any other format fails, whatever the hash -----

  lemma {:induction false} ListedLists(a: seq<Level>, descending: bool)
    requires Listed(a, descending)
    ensures Lists(a, PutAll(map[], a), descending)
  {
    if a != [] {
      var front, last, m := a[..|a| - 1], a[|a| - 1], PutAll(map[], a[..|a| - 1]);
      ListedLists(front, descending);
      forall p | p in m ensures p != last.price {
        var i :| 0 <= i < |front| && front[i].price == p;
        assert a[i] == front[i] && Ahead(a[i].price, last.price, descending);
      }
      InsertLevel(front, m, last, |front|, descending);
      assert front[..|front|] + [last] + front[|front|..] == a;
    }
  }

  /** Seven bids; the two lowest, below the hashed five, have the given sizes. */
  function DeepBids(sixth: nat, seventh: nat): seq<Level> {
    [Level(7, 1), Level(6, 1), Level(5, 1), Level(4, 1), Level(3, 1), Level(2, sixth), Level(1, seventh)]
  }

  function DeepBook(sixth: nat, seventh: nat): BookValue {
    Snapshot(DeepBids(sixth, seventh), [])
  }

  function DeepHash(hash: BookHash): nat {
    hash(DeepBids(1, 1)[..5], [])
  }

  lemma DeepBookHash(hash: BookHash, sixth: nat, seventh: nat)
    requires sixth > 0 && seventh > 0
    ensures DeepBook(sixth, seventh).Valid()
    ensures HashOf(hash, DeepBook(sixth, seventh)) == DeepHash(hash)
    ensures DeepBook(sixth, seventh).bids != map[] && Quantity(DeepBook(sixth, seventh).bids, 1) == seventh
  {
    var bids, b := DeepBids(sixth, seventh), DeepBook(sixth, seventh);
    ListedLists(bids, true);
    ListedLists([], false);
    VectorIsListing(bids, b.bids, true);
    VectorIsListing([], b.asks, false);
    assert bids[..5] == DeepBids(1, 1)[..5];
    assert bids[6].price in b.bids;
  }

  lemma DeepBookEdits(sixth: nat, seventh: nat, other: nat)
    requires sixth > 0 && seventh > 0 && other > 0
    ensures Delta(DeepBook(sixth, seventh), Bid, 1, other) == DeepBook(sixth, other)
    ensures Delta(DeepBook(sixth, seventh), Bid, 2, other) == DeepBook(other, seventh)
  {
    var five := DeepBids(1, 1)[..5];
    DeepBookParts(sixth, seventh);
    DeepBookParts(sixth, other);
    DeepBookParts(other, seventh);
    var m: Depth := PutAll(map[], five);
    assert m[2 := sixth][1 := seventh][1 := other] == m[2 := sixth][1 := other];
    assert m[2 := sixth][1 := seventh][2 := other] == m[2 := other][1 := seventh];
  }

  lemma DeepBookParts(sixth: nat, seventh: nat)
    requires sixth > 0 && seventh > 0
    ensures DeepBook(sixth, seventh).bids == PutAll(map[], DeepBids(1, 1)[..5])[2 := sixth][1 := seventh]
    ensures DeepBook(sixth, seventh).asks == map[]
  {
    var bids, five := DeepBids(sixth, seventh), DeepBids(1, 1)[..5];
    var six := five + [Level(2, sixth)];
    assert bids[..6] == six && six[..5] == five;
    assert PutAll(map[], six) == Put(PutAll(map[], five), 2, sixth);
    assert PutAll(map[], bids) == Put(PutAll(map[], six), 1, seventh);
  }

  /** A venue whose first two updates are below the hashed levels. */
  ghost function DeepVenue(): (venue: History)
    ensures venue(0) == DeepBook(1, 1) && venue(1) == DeepBook(1, 2)
    ensures forall n: nat :: n >= 2 ==> venue(n) == DeepBook(2, 2)
  {
    (n: nat) => if n == 0 then DeepBook(1, 1) else if n == 1 then DeepBook(1, 2) else DeepBook(2, 2)
  }

  ghost function FirstSnapshot(f: Format, h: nat): Sent {
    var m := BookSnapshot("yes", Field(f.snapshotNumbered, 0), DeepBids(1, 1), [], Field(f.snapshotHashed, h));
    Sent(SnapshotMessage(m), 0)
  }

  /** The delta that brings version 1 or 2. */
  ghost function DeepDelta(f: Format, h: nat, n: nat): Sent {
    var m := BookDelta("yes", Field(f.deltaNumbered, n), Bid, n, Field(f.sized, 2), Field(f.deltaHashed, h));
    Sent(DeltaMessage(m), n)
  }

  lemma DeepVenueProper(hash: BookHash)
    ensures ProperHistory(DeepVenue())
    ensures forall n: nat :: HashOf(hash, DeepVenue()(n)) == DeepHash(hash)
  {
    var venue := DeepVenue();
    forall n: nat ensures venue(n).Valid() && !venue(n).stale && HashOf(hash, venue(n)) == DeepHash(hash) {
      DeepBookHash(hash, if n < 2 then 1 else 2, if n < 1 then 1 else 2);
    }
  }

  lemma FirstSnapshotSent(f: Format, hash: BookHash)
    requires ProperHistory(DeepVenue())
    ensures FromVenue(f, hash, "yes", DeepVenue(), FirstSnapshot(f, DeepHash(hash)))
  {
    DeepVenueProper(hash);
  }

  lemma DeepDeltaSent(f: Format, hash: BookHash, n: nat)
    requires ProperHistory(DeepVenue()) && (n == 1 || n == 2)
    ensures FromVenue(f, hash, "yes", DeepVenue(), DeepDelta(f, DeepHash(hash), n))
  {
    DeepVenueProper(hash);
    DeepBookEdits(1, 1, 2);
    DeepBookEdits(1, 2, 2);
    assert DeltaFrom(f, hash, DeepVenue(), DeepDelta(f, DeepHash(hash), n).message.delta, n, 2);
  }

  /** Sized, the first update is lost and the second taken, since the unnumbered
      snapshot leaves no number to expect; unsized, the first arrives without its
      size. Either way the hash sees no difference. */
  lemma OtherFormatsFail(f: Format, hash: BookHash)
    requires !SoundFormat(f)
    ensures !Sound(f, hash)
  {
    var h, n := DeepHash(hash), if f.sized then 2 else 1;
    var xs := [FirstSnapshot(f, h), DeepDelta(f, h, n)];
    DeepVenueProper(hash);
    FirstSnapshotSent(f, hash);
    DeepDeltaSent(f, hash, n);
    DeepRun(f, hash, n);
    DeepRunWrong(hash, if f.sized then 2 else 1, n);
    Refuted(f, hash, "yes", DeepVenue(), xs);
  }

  lemma Refuted(f: Format, hash: BookHash, yes: string, venue: History, xs: seq<Sent>)
    requires Delivered(f, hash, yes, venue, xs) && |xs| == 2 && IsYes(yes, xs[1].message)
    requires var s := After(hash, yes, Messages(xs)); !s.book.stale && s.book != venue(xs[1].version)
    ensures !Sound(f, hash)
  {
    assert LastVersion(yes, xs) == xs[1].version;
    assert !RightIfFresh(hash, yes, venue, xs);
  }

  lemma DeepRunWrong(hash: BookHash, sixth: nat, n: nat)
    requires n == 1 || n == 2
    requires sixth > 0
    ensures DeepBook(sixth, 1) != DeepVenue()(n)
  {
    DeepBookHash(hash, sixth, 1);
    DeepBookHash(hash, 1, 2);
    DeepBookHash(hash, 2, 2);
  }

  lemma DeepRun(f: Format, hash: BookHash, n: nat)
    requires !SoundFormat(f)
    requires n == if f.sized then 2 else 1
    ensures var h := DeepHash(hash);
            var s := After(hash, "yes", Messages([FirstSnapshot(f, h), DeepDelta(f, h, n)]));
            s.book == DeepBook(if f.sized then 2 else 1, 1)
  {
    var first, delta := FirstSnapshot(f, DeepHash(hash)), DeepDelta(f, DeepHash(hash), n);
    RunStep(hash, "yes", [first, delta]);
    RunStep(hash, "yes", [first]);
    assert [first, delta][..1] == [first] && [first][..0] == [];
    DeepBookHash(hash, 1, 1);
    DeepBookHash(hash, 2, 1);
    DeepBookEdits(1, 1, 2);
  }

  /** Exactly which formats make a fresh book trustworthy, over all venues and
      deliveries: numbered snapshots, with deltas that are numbered and sized, or
      not numbered at all, when a delta only ever makes the book stale. A hash does
      not help, however good it is, since it covers five levels a side. */
  lemma FormatSoundIff(f: Format, hash: BookHash)
    ensures Sound(f, hash) <==> f.snapshotNumbered && (f.deltaNumbered ==> f.sized)
  {
    if SoundFormat(f) {
      forall yes, venue, xs | Delivered(f, hash, yes, venue, xs) ensures RightIfFresh(hash, yes, venue, xs) {
        SoundFormatHolds(f, hash, yes, venue, xs);
      }
    } else {
      OtherFormatsFail(f, hash);
    }
  }

  // ----- Hashes that tell books apart -----

  ghost predicate CollisionFree(hash: BookHash) {
    forall a, b, c, d :: hash(a, b) == hash(c, d) ==> a == c && b == d
  }

  lemma SameListing(m: Depth, m': Depth, levels: seq<Level>, descending: bool)
    requires Lists(levels, m, descending) && Lists(levels, m', descending)
    ensures m == m'
  {
    forall p | p in m ensures p in m' && m'[p] == m[p] {
      var i :| 0 <= i < |levels| && levels[i].price == p;
    }
    forall p | p in m' ensures p in m {
      var i :| 0 <= i < |levels| && levels[i].price == p;
    }
  }

  /** A hash without collisions tells a book of at most four levels a side apart
      from every other book. */
  lemma ShallowToldApart(hash: BookHash, v: BookValue)
    requires CollisionFree(hash) && v.Valid()
    requires |Listing(v.bids, true)| <= 4 && |Listing(v.asks, false)| <= 4
    ensures ToldApart(hash, v)
  {
    forall b: BookValue | b.Valid() && b.stale == v.stale && HashOf(hash, b) == HashOf(hash, v) ensures b == v {
      assert Top(Listing(b.bids, true)) == Listing(v.bids, true);
      assert Top(Listing(b.asks, false)) == Listing(v.asks, false);
      SameListing(b.bids, v.bids, Listing(v.bids, true), true);
      SameListing(b.asks, v.asks, Listing(v.asks, false), false);
    }
  }
}

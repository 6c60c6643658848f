// Why a book that is not stale can be trusted: the resync protocol of the
// market actor against a venue whose messages may be lost, repeated or
// reordered on the way.
module Resync {
  import opened Domain
  import opened OrderBook
  import opened MarketActor

  /** The venue's book after each of its updates; the stale flag is unused. */
  type History = nat -> BookValue

  ghost predicate ProperHistory(venue: History) {
    forall n :: venue(n).Valid() && !venue(n).stale
  }

  predicate YesSnapshot(yes: string, m: Message) {
    m.SnapshotMessage? && m.snapshot.token == yes
  }

  predicate YesDelta(yes: string, m: Message) {
    m.DeltaMessage? && m.delta.token == yes
  }

  /** A YES message as the venue sent it: snapshot n is the book at n, delta n
      turns the book at n - 1 into the book at n. Nothing is asked of other
      messages, nor of the hashes. */
  ghost predicate Genuine(venue: History, yes: string, m: Message) {
    && (YesSnapshot(yes, m) ==>
          && m.snapshot.sequence.Some? && m.snapshot.sequence.value < U64_MAX
          && venue(m.snapshot.sequence.value) == Snapshot(m.snapshot.bids, m.snapshot.asks))
    && (YesDelta(yes, m) ==>
          && m.delta.sequence.Some? && 1 <= m.delta.sequence.value < U64_MAX && m.delta.quantity.Some?
          && venue(m.delta.sequence.value)
             == Delta(venue(m.delta.sequence.value - 1), m.delta.side, m.delta.price, m.delta.quantity.value))
  }

  /** The state is trusted and equals the venue's book at `n`. */
  ghost predicate At(venue: History, s: State, n: nat) {
    s.book == venue(n) && s.next == Some(n + 1)
  }

  /** Soundness: whatever was lost, repeated or reordered on the way, a book that
      is not stale is the venue's book at `next_sequence - 1`. */
  lemma {:induction false} FreshBookIsVenueBook(hash: BookHash, yes: string, venue: History, messages: seq<Message>)
    requires ProperHistory(venue)
    requires forall m :: m in messages ==> Genuine(venue, yes, m)
    ensures var s := After(hash, yes, messages);
            !s.book.stale ==> s.next.Some? && s.next.value >= 1 && At(venue, s, s.next.value - 1)
  {
    if messages != [] {
      var before, m := messages[..|messages| - 1], messages[|messages| - 1];
      assert m in messages;
      FreshBookIsVenueBook(hash, yes, venue, before);
    }
  }

  /** Once stale, always stale until a YES snapshot. */
  lemma StaleUntilSnapshot(hash: BookHash, yes: string, s: State, m: Message)
    requires s.book.Valid() && s.book.stale && !YesSnapshot(yes, m)
    ensures AfterMessage(hash, yes, s, m).book.stale
  {}

  /** Messages for the other token and lifecycle messages change nothing. */
  lemma ForeignStutters(hash: BookHash, yes: string, s: State, m: Message)
    requires s.book.Valid() && !YesSnapshot(yes, m) && !YesDelta(yes, m)
    ensures AfterMessage(hash, yes, s, m) == s
  {}

  // ----- Exactly when the book is fresh -----

  function DeltaCount(yes: string, messages: seq<Message>): nat {
    if messages == [] then 0
    else DeltaCount(yes, messages[..|messages| - 1]) + if YesDelta(yes, messages[|messages| - 1]) then 1 else 0
  }

  ghost predicate HashHolds(hash: BookHash, venue: History, n: nat, expected: Option<nat>)
    requires ProperHistory(venue)
  {
    expected.Some? ==> HashOf(hash, venue(n)) == expected.value
  }

  /** The venue sequence number a message carries. */
  function SequenceOf(m: Message): nat {
    match m
    case SnapshotMessage(snapshot) => if snapshot.sequence.Some? then snapshot.sequence.value else 0
    case DeltaMessage(delta) => if delta.sequence.Some? then delta.sequence.value else 0
    case Other => 0
  }

  /** After message `i`, a snapshot, message `j` continues the chain: it is no
      snapshot, and if it is a delta it has the next number and the right hash. */
  ghost predicate Continues(hash: BookHash, venue: History, yes: string, messages: seq<Message>, i: nat, j: nat)
    requires ProperHistory(venue) && i < j < |messages|
  {
    && !YesSnapshot(yes, messages[j])
    && (YesDelta(yes, messages[j]) ==>
          var n := SequenceOf(messages[i]) + DeltaCount(yes, messages[i + 1..j]) + 1;
          messages[j].delta.sequence == Some(n) && HashHolds(hash, venue, n, messages[j].delta.bookHash))
  }

  /** The last YES snapshot is message `i`, and an unbroken chain follows it. */
  ghost predicate Chain(hash: BookHash, venue: History, yes: string, messages: seq<Message>, i: nat)
    requires ProperHistory(venue) && forall m :: m in messages ==> Genuine(venue, yes, m)
  {
    && i < |messages| && YesSnapshot(yes, messages[i])
    && HashHolds(hash, venue, SequenceOf(messages[i]), messages[i].snapshot.bookHash)
    && forall j :: i < j < |messages| ==> Continues(hash, venue, yes, messages, i, j)
  }

  lemma ChainShorter(hash: BookHash, venue: History, yes: string, messages: seq<Message>, i: nat)
    requires ProperHistory(venue) && forall m :: m in messages ==> Genuine(venue, yes, m)
    requires messages != [] && i < |messages| - 1
    ensures var before := messages[..|messages| - 1];
            Chain(hash, venue, yes, messages, i)
            <==> Chain(hash, venue, yes, before, i)
                 && Continues(hash, venue, yes, messages, i, |messages| - 1)
  {
    var before := messages[..|messages| - 1];
    forall j | i < j < |before|
      ensures Continues(hash, venue, yes, messages, i, j) == Continues(hash, venue, yes, before, i, j)
    {
      assert messages[i + 1..j] == before[i + 1..j];
    }
  }

  /** In a chain the book is the venue's at the chain's end. */
  ghost function ChainEnd(yes: string, messages: seq<Message>, i: nat): nat
    requires i < |messages|
  {
    SequenceOf(messages[i]) + DeltaCount(yes, messages[i + 1..])
  }

  /** Exactly when the book is fresh: the last YES snapshot arrived intact and
      every YES delta since then arrived once, in order and with the right hash.
      So nothing but a loss, a repeat, a reordering or a hash mismatch makes a
      genuine stream stale. */
  lemma {:induction false} FreshIffChain(hash: BookHash, yes: string, venue: History, messages: seq<Message>)
    requires ProperHistory(venue)
    requires forall m :: m in messages ==> Genuine(venue, yes, m)
    ensures var s := After(hash, yes, messages);
            && (!s.book.stale <==> exists i: nat :: Chain(hash, venue, yes, messages, i))
            && forall i: nat :: Chain(hash, venue, yes, messages, i) ==> At(venue, s, ChainEnd(yes, messages, i))
  {
    if messages != [] {
      var before, m := messages[..|messages| - 1], messages[|messages| - 1];
      assert m in messages;
      FreshIffChain(hash, yes, venue, before);
      var s, s' := After(hash, yes, before), After(hash, yes, messages);
      if YesSnapshot(yes, m) {
        SnapshotChain(hash, yes, venue, messages);
      } else {
        forall i: nat | i < |before| ensures Chain(hash, venue, yes, messages, i)
                                        <==> Chain(hash, venue, yes, before, i) && !s'.book.stale
        {
          LaterChain(hash, yes, venue, messages, i);
        }
        assert !Chain(hash, venue, yes, messages, |before|);
        forall i: nat | Chain(hash, venue, yes, messages, i) ensures At(venue, s', ChainEnd(yes, messages, i)) {
          LaterChain(hash, yes, venue, messages, i);
        }
        if !s'.book.stale {
          assert !s.book.stale;
          var i: nat :| Chain(hash, venue, yes, before, i);
          assert Chain(hash, venue, yes, messages, i);
        }
      }
    }
  }

  lemma SnapshotChain(hash: BookHash, yes: string, venue: History, messages: seq<Message>)
    requires ProperHistory(venue)
    requires forall m :: m in messages ==> Genuine(venue, yes, m)
    requires messages != [] && YesSnapshot(yes, messages[|messages| - 1])
    ensures var s := After(hash, yes, messages);
            && (!s.book.stale <==> Chain(hash, venue, yes, messages, |messages| - 1))
            && (!s.book.stale ==> At(venue, s, ChainEnd(yes, messages, |messages| - 1)))
            && forall i: nat :: i < |messages| - 1 ==> !Chain(hash, venue, yes, messages, i)
  {
    var last := |messages| - 1;
    assert messages[last] in messages && messages[last + 1..] == [];
    forall i: nat | i < last ensures !Chain(hash, venue, yes, messages, i) {
      assert !Continues(hash, venue, yes, messages, i, last);
    }
  }

  lemma LaterChain(hash: BookHash, yes: string, venue: History, messages: seq<Message>, i: nat)
    requires ProperHistory(venue)
    requires forall m :: m in messages ==> Genuine(venue, yes, m)
    requires messages != [] && !YesSnapshot(yes, messages[|messages| - 1]) && i < |messages| - 1
    requires var before := messages[..|messages| - 1];
             Chain(hash, venue, yes, before, i) ==> At(venue, After(hash, yes, before), ChainEnd(yes, before, i))
    ensures var before, s' := messages[..|messages| - 1], After(hash, yes, messages);
            && (Chain(hash, venue, yes, messages, i) <==> Chain(hash, venue, yes, before, i) && !s'.book.stale)
            && (Chain(hash, venue, yes, messages, i) ==> At(venue, s', ChainEnd(yes, messages, i)))
  {
    var last := |messages| - 1;
    var before := messages[..last];
    ChainShorter(hash, venue, yes, messages, i);
    assert messages[last] in messages;
    if Chain(hash, venue, yes, before, i) {
      ChainEndGrows(yes, messages, i);
      LinkAccepted(hash, yes, venue, After(hash, yes, before), messages[last], ChainEnd(yes, before, i));
    }
  }

  lemma ChainEndGrows(yes: string, messages: seq<Message>, i: nat)
    requires i < |messages| - 1
    ensures var last := |messages| - 1;
            && ChainEnd(yes, messages[..last], i) == SequenceOf(messages[i]) + DeltaCount(yes, messages[i + 1..last])
            && ChainEnd(yes, messages, i)
               == ChainEnd(yes, messages[..last], i) + if YesDelta(yes, messages[last]) then 1 else 0
  {
    var last, tail := |messages| - 1, messages[i + 1..];
    assert tail[..|tail| - 1] == messages[..last][i + 1..] == messages[i + 1..last];
    assert messages[..last][i] == messages[i];
  }

  /** On a book that is the venue's at `n`, a message other than a snapshot keeps
      the book fresh exactly when it links on. */
  lemma LinkAccepted(hash: BookHash, yes: string, venue: History, s: State, m: Message, n: nat)
    requires ProperHistory(venue) && Genuine(venue, yes, m) && At(venue, s, n) && !YesSnapshot(yes, m)
    ensures var s' := AfterMessage(hash, yes, s, m);
            && (!s'.book.stale
                <==> (YesDelta(yes, m)
                    ==> m.delta.sequence == Some(n + 1) && HashHolds(hash, venue, n + 1, m.delta.bookHash)))
            && (!s'.book.stale ==> At(venue, s', n + if YesDelta(yes, m) then 1 else 0))
  {}

  // ----- After a gap -----

  /** A delta that does not carry the expected number makes the book stale, and is
      applied all the same: its level is set and its number, if it has one, is the
      base of the next. */
  lemma GapIsApplied(hash: BookHash, yes: string, s: State, m: BookDelta)
    requires s.book.Valid() && m.token == yes && s.next.Some? && m.sequence != s.next
    requires m.sequence.Some? ==> m.sequence.value < U64_MAX
    ensures var s' := AfterMessage(hash, yes, s, DeltaMessage(m));
            && s'.book.stale
            && s'.next == (if m.sequence.Some? then Some(m.sequence.value + 1) else s.next)
            && (m.quantity == None ==> s'.book.bids == s.book.bids && s'.book.asks == s.book.asks)
            && (m.quantity.Some? ==>
                  var (edited, edited', same, same') := match m.side
                    case Bid => (s.book.bids, s'.book.bids, s.book.asks, s'.book.asks)
                    case Ask => (s.book.asks, s'.book.asks, s.book.bids, s'.book.bids);
                  && same' == same
                  && (m.price in edited' <==> m.quantity.value > 0)
                  && (m.price in edited' ==> edited'[m.price] == m.quantity.value)
                  && (forall p :: p != m.price ==> (p in edited' <==> p in edited))
                  && forall p :: p != m.price && p in edited ==> p in edited' && edited'[p] == edited[p])
  {}
}

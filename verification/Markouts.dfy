// The markout tracker (src/engine/pipeline.rs): quotes wait for the first
// observation at or after each of five horizons.
module Markouts {
  import opened Domain

  const HORIZONS_MS: seq<int> := [1_000, 5_000, 10_000, 30_000, 60_000]

  /** The fields a completed row copies from its quote. */
  datatype Label = Label(
    conditionId: string,
    variant: Variant,
    jevTs: int,
    side: TradeSide,
    price: nat,
    size: nat,
    tags: string,
    quoted: bool)

  datatype MarkoutQuote = MarkoutQuote(row: Label, quotedAtMs: int)

  /** A tracked quote and the mids of the horizons reached so far. */
  datatype Pending = Pending(quote: MarkoutQuote, mids: seq<Option<nat>>)

  datatype CompletedMarkout = CompletedMarkout(row: Label, mids: seq<nat>, completedAtMs: int)

  datatype Observation = Observation(atMs: int, mid: Option<nat>)

  /** When horizon `i` of a quote is due; the sum saturates. */
  function Target(q: MarkoutQuote, i: nat): int
    requires i < 5
  {
    ClampI64(q.quotedAtMs + HORIZONS_MS[i])
  }

  // ----- The reference: first observation at or after each horizon -----

  /** The mid of the first usable observation at or after a time. */
  function FirstMid(obs: seq<Observation>, target: int): Option<nat> {
    if obs == [] then None
    else
      var last := obs[|obs| - 1];
      var earlier := FirstMid(obs[..|obs| - 1], target);
      if earlier.Some? then earlier
      else if last.mid.Some? && last.atMs >= target then last.mid
      else None
  }

  function FirstMids(q: MarkoutQuote, obs: seq<Observation>): (mids: seq<Option<nat>>)
    ensures |mids| == 5 && forall i :: 0 <= i < 5 ==> mids[i] == FirstMid(obs, Target(q, i))
  {
    seq(5, i requires 0 <= i < 5 => FirstMid(obs, Target(q, i)))
  }

  predicate Due(q: MarkoutQuote, obs: seq<Observation>) {
    FirstMid(obs, Target(q, 4)).Some?
  }

  lemma {:induction false} EarlierHorizonsFirst(obs: seq<Observation>, target: int, later: int)
    requires target <= later && FirstMid(obs, later).Some?
    ensures FirstMid(obs, target).Some?
  {
    if obs != [] && FirstMid(obs[..|obs| - 1], later).Some? {
      EarlierHorizonsFirst(obs[..|obs| - 1], target, later);
    }
  }

  /** Filled horizons form a prefix. */
  lemma FilledPrefix(q: MarkoutQuote, obs: seq<Observation>, i: nat, j: nat)
    requires i <= j < 5 && FirstMids(q, obs)[j].Some?
    ensures FirstMids(q, obs)[i].Some?
  {
    EarlierHorizonsFirst(obs, Target(q, i), Target(q, j));
  }

  // ----- One observation, on values -----

  function Advance(p: Pending, atMs: int, mid: nat): Pending
    requires |p.mids| == 5
  {
    p.(mids := seq(5, i requires 0 <= i < 5 =>
      if p.mids[i].None? && atMs >= Target(p.quote, i) then Some(mid) else p.mids[i]))
  }

  predicate Complete(p: Pending) {
    forall i :: 0 <= i < |p.mids| ==> p.mids[i].Some?
  }

  function RowOf(p: Pending, atMs: int): CompletedMarkout
    requires Complete(p)
  {
    CompletedMarkout(p.quote.row, seq(|p.mids|, i requires 0 <= i < |p.mids| => p.mids[i].value), atMs)
  }

  predicate Shaped(pending: seq<Pending>) {
    forall k :: 0 <= k < |pending| ==> |pending[k].mids| == 5
  }

  /** The rows an observation completes, in insertion order. */
  function RowsOf(pending: seq<Pending>, atMs: int, mid: nat): seq<CompletedMarkout>
    requires Shaped(pending)
  {
    if pending == [] then []
    else
      var p := Advance(pending[|pending| - 1], atMs, mid);
      RowsOf(pending[..|pending| - 1], atMs, mid) + if Complete(p) then [RowOf(p, atMs)] else []
  }

  /** What stays pending, in insertion order. */
  function RestOf(pending: seq<Pending>, atMs: int, mid: nat): (rest: seq<Pending>)
    requires Shaped(pending)
    ensures Shaped(rest)
  {
    if pending == [] then []
    else
      var p := Advance(pending[|pending| - 1], atMs, mid);
      RestOf(pending[..|pending| - 1], atMs, mid) + if Complete(p) then [] else [p]
  }

  /** `MarkoutTracker`: the mutable tracker. */
  class Tracker {
    var pending: seq<Pending>

    ghost predicate Valid()
      reads this
    {
      Shaped(pending)
    }

    constructor ()
      ensures Valid() && pending == []
    {
      pending := [];
    }

    method AddQuote(q: MarkoutQuote)
      requires Valid()
      modifies this
      ensures Valid() && pending == old(pending) + [Pending(q, [None, None, None, None, None])]
    {
      pending := pending + [Pending(q, [None, None, None, None, None])];
    }

    /** Feeds one mid and returns the rows it completes. */
    method Observe(atMs: int, mid: Option<nat>) returns (completed: seq<CompletedMarkout>)
      requires Valid()
      modifies this
      ensures Valid()
      ensures mid.None? ==> completed == [] && pending == old(pending)
      ensures mid.Some? ==> completed == RowsOf(old(pending), atMs, mid.value)
      ensures mid.Some? ==> pending == RestOf(old(pending), atMs, mid.value)
    {
      completed := [];
      if mid.None? {
        return;
      }
      var drained := pending;
      var remaining: seq<Pending> := [];
      var k := 0;
      while k < |drained|
        invariant 0 <= k <= |drained|
        invariant Shaped(drained) && Shaped(remaining)
        invariant completed == RowsOf(drained[..k], atMs, mid.value)
        invariant remaining == RestOf(drained[..k], atMs, mid.value)
      {
        assert drained[..k + 1] == drained[..k] + [drained[k]];
        ObserveLast(drained[..k], drained[k], atMs, mid.value);
        var p := FillHorizons(drained[k], atMs, mid.value);
        var open := false;
        for i := 0 to 5
          invariant open <==> exists j :: 0 <= j < i && p.mids[j].None?
        {
          if p.mids[i].None? {
            open := true;
          }
        }
        if open {
          remaining := remaining + [p];
        } else {
          completed := completed + [RowOf(p, atMs)];
        }
        k := k + 1;
      }
      assert drained[..k] == drained;
      pending := remaining;
    }

    /** The horizon loop for one quote. */
    method FillHorizons(p: Pending, atMs: int, mid: nat) returns (filled: Pending)
      requires |p.mids| == 5
      ensures filled == Advance(p, atMs, mid)
    {
      var mids := p.mids;
      for i := 0 to 5
        invariant |mids| == 5
        invariant forall j :: 0 <= j < i ==> mids[j] == Advance(p, atMs, mid).mids[j]
        invariant forall j :: i <= j < 5 ==> mids[j] == p.mids[j]
      {
        if mids[i].None? && atMs >= Target(p.quote, i) {
          mids := mids[i := Some(mid)];
        }
      }
      filled := p.(mids := mids);
      assert filled.mids == Advance(p, atMs, mid).mids;
    }
  }

  // ----- Runs -----

  datatype Event = Add(quote: MarkoutQuote) | Observe(obs: Observation)

  function After(events: seq<Event>): (pending: seq<Pending>)
    ensures Shaped(pending)
  {
    if events == [] then []
    else
      var before, e := After(events[..|events| - 1]), events[|events| - 1];
      match e
      case Add(q) => before + [Pending(q, [None, None, None, None, None])]
      case Observe(o) => if o.mid.Some? then RestOf(before, o.atMs, o.mid.value) else before
  }

  /** The rows returned by the last call of a run. */
  function LastRows(events: seq<Event>): seq<CompletedMarkout> {
    if events == [] then []
    else
      var before, e := After(events[..|events| - 1]), events[|events| - 1];
      if e.Observe? && e.obs.mid.Some? then RowsOf(before, e.obs.atMs, e.obs.mid.value) else []
  }

  function AllRows(events: seq<Event>): seq<CompletedMarkout> {
    if events == [] then [] else AllRows(events[..|events| - 1]) + LastRows(events)
  }

  /** The observations after event `k`. */
  function Since(events: seq<Event>, k: nat): seq<Observation>
    requires k < |events|
  {
    if k == |events| - 1 then []
    else
      var e := events[|events| - 1];
      Since(events[..|events| - 1], k) + if e.Observe? then [e.obs] else []
  }

  /** A quote as it waits: not due yet, with the first mid at or after each
      horizon. Empty once it is due. */
  function Waiting(q: MarkoutQuote, obs: seq<Observation>): (w: seq<Pending>)
    ensures Shaped(w)
  {
    if Due(q, obs) then [] else [Pending(q, FirstMids(q, obs))]
  }

  /** The row of a quote whose 60 s horizon is first met by `o`. Empty before and
      after. */
  function Completing(q: MarkoutQuote, obs: seq<Observation>, o: Observation): seq<CompletedMarkout> {
    if Due(q, obs) || !Due(q, obs + [o]) then []
    else
      DueHasMids(q, obs + [o]);
      [CompletedMarkout(q.row, seq(5, i requires 0 <= i < 5 => FirstMids(q, obs + [o])[i].value), o.atMs)]
  }

  lemma DueHasMids(q: MarkoutQuote, obs: seq<Observation>)
    requires Due(q, obs)
    ensures forall i :: 0 <= i < 5 ==> FirstMids(q, obs)[i].Some?
  {
    forall i | 0 <= i < 5 ensures FirstMids(q, obs)[i].Some? {
      FilledPrefix(q, obs, i, 4);
    }
  }

  /** The quotes added by the first `k` events of a run that still wait at its end. */
  function ReferencePending(events: seq<Event>, k: nat): (w: seq<Pending>)
    requires k <= |events|
    ensures Shaped(w)
  {
    if k == 0 then []
    else
      ReferencePending(events, k - 1)
      + if events[k - 1].Add? then Waiting(events[k - 1].quote, Since(events, k - 1)) else []
  }

  /** The rows that one more observation completes for those quotes. */
  function ReferenceRows(events: seq<Event>, k: nat, o: Observation): seq<CompletedMarkout>
    requires k <= |events|
  {
    if k == 0 then []
    else
      ReferenceRows(events, k - 1, o)
      + if events[k - 1].Add? then Completing(events[k - 1].quote, Since(events, k - 1), o) else []
  }

  // ----- Refinement -----

  /** Advancing the first mids of the earlier observations gives those of all. */
  lemma AdvanceIsFirstMids(q: MarkoutQuote, obs: seq<Observation>, o: Observation)
    requires o.mid.Some?
    ensures Advance(Pending(q, FirstMids(q, obs)), o.atMs, o.mid.value) == Pending(q, FirstMids(q, obs + [o]))
    ensures Complete(Pending(q, FirstMids(q, obs + [o]))) <==> Due(q, obs + [o])
  {
    assert (obs + [o])[..|obs|] == obs;
    assert Advance(Pending(q, FirstMids(q, obs)), o.atMs, o.mid.value).mids == FirstMids(q, obs + [o]);
    if Due(q, obs + [o]) {
      DueHasMids(q, obs + [o]);
    }
  }

  lemma {:induction false} UnusableObservation(obs: seq<Observation>, o: Observation, target: int)
    requires o.mid.None?
    ensures FirstMid(obs + [o], target) == FirstMid(obs, target)
  {
    assert (obs + [o])[..|obs|] == obs;
  }

  lemma DueStays(q: MarkoutQuote, obs: seq<Observation>, o: Observation)
    requires Due(q, obs)
    ensures Due(q, obs + [o])
  {
    assert (obs + [o])[..|obs|] == obs;
  }

  lemma {:induction false} RestAppend(a: seq<Pending>, b: seq<Pending>, atMs: int, mid: nat)
    requires Shaped(a) && Shaped(b)
    ensures RestOf(a + b, atMs, mid) == RestOf(a, atMs, mid) + RestOf(b, atMs, mid)
  {
    if b == [] {
      assert a + b == a;
    } else {
      assert (a + b)[..|a + b| - 1] == a + b[..|b| - 1];
      RestAppend(a, b[..|b| - 1], atMs, mid);
    }
  }

  lemma {:induction false} RowsAppend(a: seq<Pending>, b: seq<Pending>, atMs: int, mid: nat)
    requires Shaped(a) && Shaped(b)
    ensures RowsOf(a + b, atMs, mid) == RowsOf(a, atMs, mid) + RowsOf(b, atMs, mid)
  {
    if b == [] {
      assert a + b == a;
    } else {
      var front, p := b[..|b| - 1], b[|b| - 1];
      RowsAppend(a, front, atMs, mid);
      assert a + b == (a + front) + [p];
      ObserveLast(a + front, p, atMs, mid);
    }
  }

  /** Observing two lists in a row is observing each. */
  lemma ObserveAppend(a: seq<Pending>, b: seq<Pending>, atMs: int, mid: nat)
    requires Shaped(a) && Shaped(b)
    ensures RestOf(a + b, atMs, mid) == RestOf(a, atMs, mid) + RestOf(b, atMs, mid)
    ensures RowsOf(a + b, atMs, mid) == RowsOf(a, atMs, mid) + RowsOf(b, atMs, mid)
  {
    RestAppend(a, b, atMs, mid);
    RowsAppend(a, b, atMs, mid);
  }

  lemma ObserveLast(s: seq<Pending>, p: Pending, atMs: int, mid: nat)
    requires Shaped(s) && |p.mids| == 5
    ensures var q := Advance(p, atMs, mid);
            && RestOf(s + [p], atMs, mid) == RestOf(s, atMs, mid) + (if Complete(q) then [] else [q])
            && RowsOf(s + [p], atMs, mid) == RowsOf(s, atMs, mid) + (if Complete(q) then [RowOf(q, atMs)] else [])
  {
    assert (s + [p])[..|s|] == s;
  }

  /** One waiting quote and one observation. */
  lemma ObserveOne(q: MarkoutQuote, obs: seq<Observation>, o: Observation)
    requires o.mid.Some?
    ensures RestOf(Waiting(q, obs), o.atMs, o.mid.value) == Waiting(q, obs + [o])
    ensures RowsOf(Waiting(q, obs), o.atMs, o.mid.value) == Completing(q, obs, o)
  {
    if Due(q, obs) {
      DueStays(q, obs, o);
    } else {
      AdvanceIsFirstMids(q, obs, o);
      assert Waiting(q, obs)[..0] == [];
      if Due(q, obs + [o]) {
        var p := Pending(q, FirstMids(q, obs + [o]));
        DueHasMids(q, obs + [o]);
        assert RowOf(p, o.atMs).mids == Completing(q, obs, o)[0].mids;
      }
    }
  }

  lemma SinceGrows(events: seq<Event>, e: Event, k: nat)
    requires k < |events|
    ensures Since(events + [e], k) == Since(events, k) + if e.Observe? then [e.obs] else []
  {
    assert (events + [e])[..|events|] == events;
  }

  /** How the reference changes with one more observation, over the quotes added
      by the first `k` events. */
  lemma {:induction false} ObserveStep(events: seq<Event>, o: Observation, k: nat)
    requires k <= |events| && o.mid.Some?
    ensures RestOf(ReferencePending(events, k), o.atMs, o.mid.value) == ReferencePending(events + [Observe(o)], k)
    ensures RowsOf(ReferencePending(events, k), o.atMs, o.mid.value) == ReferenceRows(events, k, o)
  {
    if k > 0 {
      ObserveStep(events, o, k - 1);
      var e := events[k - 1];
      if e.Add? {
        var obs := Since(events, k - 1);
        SinceGrows(events, Observe(o), k - 1);
        ObserveOne(e.quote, obs, o);
        ObserveAppend(ReferencePending(events, k - 1), Waiting(e.quote, obs), o.atMs, o.mid.value);
      } else {
        assert ReferencePending(events, k) == ReferencePending(events, k - 1) + [] == ReferencePending(events, k - 1);
      }
    }
  }

  /** Other events change nothing for the quotes already added. */
  lemma {:induction false} QuietStep(events: seq<Event>, e: Event, k: nat)
    requires k <= |events| && (e.Observe? ==> e.obs.mid.None?)
    ensures ReferencePending(events + [e], k) == ReferencePending(events, k)
  {
    if k > 0 {
      QuietStep(events, e, k - 1);
      if events[k - 1].Add? {
        QuietWaiting(events, e, k - 1);
      }
    }
  }

  lemma QuietWaiting(events: seq<Event>, e: Event, k: nat)
    requires k < |events| && events[k].Add? && (e.Observe? ==> e.obs.mid.None?)
    ensures Waiting(events[k].quote, Since(events + [e], k)) == Waiting(events[k].quote, Since(events, k))
  {
    SinceGrows(events, e, k);
    if e.Observe? {
      UnusableWaits(events[k].quote, Since(events, k), e.obs);
    } else {
      assert Since(events, k) + [] == Since(events, k);
    }
  }

  lemma UnusableWaits(q: MarkoutQuote, obs: seq<Observation>, o: Observation)
    requires o.mid.None?
    ensures Waiting(q, obs + [o]) == Waiting(q, obs)
  {
    forall i | 0 <= i < 5 ensures FirstMid(obs + [o], Target(q, i)) == FirstMid(obs, Target(q, i)) {
      UnusableObservation(obs, o, Target(q, i));
    }
    assert FirstMids(q, obs + [o]) == FirstMids(q, obs);
  }

  /** Refinement, over every run: the pending list is the reference's, and the
      rows of an observation are those of exactly the quotes for which it is the
      first one at or after the 60 s horizon, in insertion order, each with the
      first mid at or after every horizon. */
  lemma {:induction false} TrackerRefinesReference(events: seq<Event>)
    ensures After(events) == ReferencePending(events, |events|)
    ensures events != [] && events[|events| - 1].Observe? && events[|events| - 1].obs.mid.Some? ==>
              LastRows(events) == ReferenceRows(events[..|events| - 1], |events| - 1, events[|events| - 1].obs)
  {
    if events != [] {
      var before, e := events[..|events| - 1], events[|events| - 1];
      TrackerRefinesReference(before);
      assert before + [e] == events;
      if e.Observe? && e.obs.mid.Some? {
        RefinesObservation(before, e.obs);
      } else {
        RefinesQuiet(before, e);
      }
    }
  }

  lemma RefinesObservation(before: seq<Event>, o: Observation)
    requires o.mid.Some? && After(before) == ReferencePending(before, |before|)
    ensures var events := before + [Observe(o)];
            After(events) == ReferencePending(events, |events|)
                && LastRows(events) == ReferenceRows(before, |before|, o)
  {
    var events := before + [Observe(o)];
    assert events[..|before|] == before;
    ObserveStep(before, o, |before|);
    ReferenceSame(events, |before|);
  }

  lemma RefinesQuiet(before: seq<Event>, e: Event)
    requires (e.Observe? ==> e.obs.mid.None?) && After(before) == ReferencePending(before, |before|)
    ensures After(before + [e]) == ReferencePending(before + [e], |before| + 1)
  {
    var events := before + [e];
    assert events[..|before|] == before;
    QuietStep(before, e, |before|);
    if e.Add? {
      assert Since(events, |before|) == [];
      assert [None, None, None, None, None] == FirstMids(e.quote, []);
    } else {
      ReferenceSame(events, |before|);
    }
  }

  /** An event that adds no quote adds nothing to the reference list. */
  lemma ReferenceSame(events: seq<Event>, k: nat)
    requires k < |events| && !events[k].Add?
    ensures ReferencePending(events, k + 1) == ReferencePending(events, k)
  {
    assert ReferencePending(events, k) + [] == ReferencePending(events, k);
  }

  /** In every reachable state the filled horizons of a quote form a prefix, and
      the last one is open. */
  lemma {:induction false} PendingShape(events: seq<Event>, k: nat, p: Pending)
    requires k <= |events| && p in ReferencePending(events, k)
    ensures |p.mids| == 5 && p.mids[4].None?
    ensures forall i, j :: 0 <= i <= j < 5 && p.mids[j].Some? ==> p.mids[i].Some?
  {
    if p in ReferencePending(events, k - 1) {
      PendingShape(events, k - 1, p);
    } else {
      WaitingShape(events[k - 1].quote, Since(events, k - 1), p);
    }
  }

  lemma WaitingShape(q: MarkoutQuote, obs: seq<Observation>, p: Pending)
    requires p in Waiting(q, obs)
    ensures |p.mids| == 5 && p.mids[4].None?
    ensures forall i, j :: 0 <= i <= j < 5 && p.mids[j].Some? ==> p.mids[i].Some?
  {
    forall i, j | 0 <= i <= j < 5 && p.mids[j].Some? ensures p.mids[i].Some? {
      FilledPrefix(q, obs, i, j);
    }
  }

  // ----- Nothing lost, nothing twice -----

  /** How often a quote with the given row fields was added, waits, was completed. */
  function Added(events: seq<Event>, x: Label): nat {
    if events == [] then 0
    else
      var e := events[|events| - 1];
      Added(events[..|events| - 1], x) + One(e.Add? && e.quote.row == x)
  }

  function Waits(pending: seq<Pending>, x: Label): nat {
    if pending == [] then 0
    else Waits(pending[..|pending| - 1], x) + One(pending[|pending| - 1].quote.row == x)
  }

  function Completed(rows: seq<CompletedMarkout>, x: Label): nat {
    if rows == [] then 0
    else Completed(rows[..|rows| - 1], x) + One(rows[|rows| - 1].row == x)
  }

  lemma {:induction false} CompletedAppend(a: seq<CompletedMarkout>, b: seq<CompletedMarkout>, x: Label)
    ensures Completed(a + b, x) == Completed(a, x) + Completed(b, x)
  {
    if b == [] {
      assert a + b == a;
    } else {
      assert (a + b)[..|a + b| - 1] == a + b[..|b| - 1];
      CompletedAppend(a, b[..|b| - 1], x);
    }
  }

  lemma WaitsAppendOne(pending: seq<Pending>, p: Pending, x: Label)
    ensures Waits(pending + [p], x) == Waits(pending, x) + One(p.quote.row == x)
  {
    assert (pending + [p])[..|pending|] == pending;
  }

  lemma {:induction false} ObservationSplits(pending: seq<Pending>, atMs: int, mid: nat, x: Label)
    requires Shaped(pending)
    ensures Waits(pending, x) == Waits(RestOf(pending, atMs, mid), x) + Completed(RowsOf(pending, atMs, mid), x)
  {
    if pending != [] {
      var shorter, p := pending[..|pending| - 1], Advance(pending[|pending| - 1], atMs, mid);
      var rows, rest := RowsOf(shorter, atMs, mid), RestOf(shorter, atMs, mid);
      ObservationSplits(shorter, atMs, mid, x);
      if Complete(p) {
        assert (rows + [RowOf(p, atMs)])[..|rows|] == rows && rest + [] == rest;
      } else {
        WaitsAppendOne(rest, p, x);
        assert rows + [] == rows;
      }
    }
  }

  /** Over every run each added quote waits or was completed, exactly once. */
  lemma {:induction false} EachQuoteOnce(events: seq<Event>, x: Label)
    ensures Added(events, x) == Waits(After(events), x) + Completed(AllRows(events), x)
  {
    if events != [] {
      var before, e := events[..|events| - 1], events[|events| - 1];
      EachQuoteOnce(before, x);
      CompletedAppend(AllRows(before), LastRows(events), x);
      if e.Add? {
        WaitsAppendOne(After(before), Pending(e.quote, [None, None, None, None, None]), x);
      } else if e.obs.mid.Some? {
        ObservationSplits(After(before), e.obs.atMs, e.obs.mid.value, x);
      }
    }
  }
}

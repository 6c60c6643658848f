// When markout rows complete and which mids they hold, read off the calls of a
// run and the horizons of 1, 5, 10, 30 and 60 seconds.
module MarkoutTimes {
  import opened Domain
  import opened Markouts

  /** A horizon after a quote, but never past the largest 64-bit time. */
  function Later(quotedAtMs: int, horizonMs: nat): int {
    if quotedAtMs + horizonMs <= 9_223_372_036_854_775_807 then quotedAtMs + horizonMs else 9_223_372_036_854_775_807
  }

  /** An observation with a mid at or after a time. */
  predicate Usable(e: Event, time: int) {
    e.Observe? && e.obs.mid.Some? && e.obs.atMs >= time
  }

  /** Call `i` is the first usable observation for that time after call `k`. */
  ghost predicate FirstUsable(events: seq<Event>, k: nat, i: nat, time: int) {
    && k < i < |events| && Usable(events[i], time)
    && forall j :: k < j < i ==> !Usable(events[j], time)
  }

  /** `mid` is that of the first usable observation for a time after call `k`. */
  ghost predicate MidAt(events: seq<Event>, k: nat, time: int, mid: nat) {
    exists i: nat :: FirstUsable(events, k, i, time) && events[i].obs.mid == Some(mid)
  }

  /** The row of the quote added by call `k`, completed by the last call. */
  ghost predicate RowOfQuote(events: seq<Event>, k: nat, row: CompletedMarkout) {
    && k < |events| && events[k].Add?
    && var t := events[k].quote.quotedAtMs;
       && FirstUsable(events, k, |events| - 1, Later(t, 60_000))
       && row.row == events[k].quote.row && row.completedAtMs == events[|events| - 1].obs.atMs
       && |row.mids| == 5
       && MidAt(events, k, Later(t, 1_000), row.mids[0])
       && MidAt(events, k, Later(t, 5_000), row.mids[1])
       && MidAt(events, k, Later(t, 10_000), row.mids[2])
       && MidAt(events, k, Later(t, 30_000), row.mids[3])
       && MidAt(events, k, Later(t, 60_000), row.mids[4])
  }

  /** Quote times in the range of 64-bit integers. */
  predicate TimesInRange(events: seq<Event>) {
    forall k :: 0 <= k < |events| && events[k].Add? ==>
      I64_MIN <= events[k].quote.quotedAtMs <= I64_MAX
  }

  // ----- First mids, by position -----

  lemma {:induction false} FirstMidAt(events: seq<Event>, k: nat, time: int)
    requires k < |events|
    ensures match FirstMid(Since(events, k), time)
            case None => forall j :: k < j < |events| ==> !Usable(events[j], time)
            case Some(mid) => MidAt(events, k, time, mid)
  {
    var last := |events| - 1;
    if k < last {
      var front := events[..last];
      FirstMidAt(front, k, time);
      SinceGrows(front, events[last], k);
      assert front + [events[last]] == events;
      var earlier := FirstMid(Since(front, k), time);
      LastObservation(Since(front, k), events[last], time);
      if earlier.Some? {
        var i: nat :| FirstUsable(front, k, i, time) && front[i].obs.mid == earlier;
        assert FirstUsable(events, k, i, time) && events[i].obs.mid == earlier;
      } else if Usable(events[last], time) {
        forall j | k < j < last ensures !Usable(events[j], time) {
          assert front[j] == events[j];
        }
        assert FirstUsable(events, k, last, time);
      } else {
        forall j | k < j < |events| ensures !Usable(events[j], time) {
          assert j < last ==> front[j] == events[j];
        }
      }
    }
  }

  lemma LastObservation(obs: seq<Observation>, e: Event, time: int)
    ensures FirstMid(obs + (if e.Observe? then [e.obs] else []), time)
         == if FirstMid(obs, time).Some? then FirstMid(obs, time) else if Usable(e, time) then e.obs.mid else None
  {
    if e.Observe? {
      assert (obs + [e.obs])[..|obs|] == obs;
    } else {
      assert obs + [] == obs;
    }
  }

  lemma HorizonTimes(q: MarkoutQuote)
    requires I64_MIN <= q.quotedAtMs <= I64_MAX
    ensures Target(q, 0) == Later(q.quotedAtMs, 1_000) && Target(q, 1) == Later(q.quotedAtMs, 5_000)
    ensures Target(q, 2) == Later(q.quotedAtMs, 10_000) && Target(q, 3) == Later(q.quotedAtMs, 30_000)
    ensures Target(q, 4) == Later(q.quotedAtMs, 60_000)
  {}

  // ----- The rows of one observation -----

  /** What the reference completes for one quote is exactly its row. */
  lemma CompletingIsRow(before: seq<Event>, o: Observation, k: nat)
    requires k < |before| && before[k].Add? && o.mid.Some?
    requires I64_MIN <= before[k].quote.quotedAtMs <= I64_MAX
    ensures var events := before + [Observe(o)];
            var rows := Completing(before[k].quote, Since(before, k), o);
            if FirstUsable(events, k, |before|, Later(before[k].quote.quotedAtMs, 60_000))
            then |rows| == 1 && RowOfQuote(events, k, rows[0]) else rows == []
  {
    var events, q := before + [Observe(o)], before[k].quote;
    HorizonTimes(q);
    SinceGrows(before, Observe(o), k);
    DueIff(before, o, k);
    var rows := Completing(q, Since(before, k), o);
    if FirstUsable(events, k, |before|, Later(q.quotedAtMs, 60_000)) {
      DueHasMids(q, Since(events, k));
      FirstMidAt(events, k, Later(q.quotedAtMs, 1_000));
      FirstMidAt(events, k, Later(q.quotedAtMs, 5_000));
      FirstMidAt(events, k, Later(q.quotedAtMs, 10_000));
      FirstMidAt(events, k, Later(q.quotedAtMs, 30_000));
      FirstMidAt(events, k, Later(q.quotedAtMs, 60_000));
      assert events[k] == before[k] && events[|before|].obs == o;
    }
  }

  lemma DueIff(before: seq<Event>, o: Observation, k: nat)
    requires k < |before| && before[k].Add? && o.mid.Some?
    requires I64_MIN <= before[k].quote.quotedAtMs <= I64_MAX
    ensures var events, q := before + [Observe(o)], before[k].quote;
            FirstUsable(events, k, |before|, Later(q.quotedAtMs, 60_000))
            <==> !Due(q, Since(before, k)) && Due(q, Since(before, k) + [o])
  {
    var events, q := before + [Observe(o)], before[k].quote;
    var time := Later(q.quotedAtMs, 60_000);
    HorizonTimes(q);
    FirstMidAt(before, k, time);
    LastObservation(Since(before, k), Observe(o), time);
    forall j | k < j < |before| ensures events[j] == before[j] {}
  }

  lemma {:induction false} RowsAreOfQuotes(before: seq<Event>, o: Observation, n: nat, row: CompletedMarkout)
    requires n <= |before| && o.mid.Some? && TimesInRange(before) && row in ReferenceRows(before, n, o)
    ensures exists k :: RowOfQuote(before + [Observe(o)], k, row)
  {
    if row in ReferenceRows(before, n - 1, o) {
      RowsAreOfQuotes(before, o, n - 1, row);
    } else {
      CompletingIsRow(before, o, n - 1);
      assert RowOfQuote(before + [Observe(o)], n - 1, row);
    }
  }

  lemma {:induction false} QuoteGetsRow(before: seq<Event>, o: Observation, n: nat, k: nat)
    requires k < n <= |before| && o.mid.Some? && TimesInRange(before) && before[k].Add?
    requires FirstUsable(before + [Observe(o)], k, |before|, Later(before[k].quote.quotedAtMs, 60_000))
    ensures exists row :: row in ReferenceRows(before, n, o) && RowOfQuote(before + [Observe(o)], k, row)
  {
    if k == n - 1 {
      CompletingIsRow(before, o, k);
      var row := Completing(before[k].quote, Since(before, k), o)[0];
      assert row in ReferenceRows(before, n, o);
    } else {
      QuoteGetsRow(before, o, n - 1, k);
    }
  }

  /** Over every run: each row an observation completes is that of a quote for which
      it is the first usable observation 60 seconds or more after the quote, holding
      the first mids at or after 1, 5, 10, 30 and 60 seconds; and every such quote
      gets its row. */
  lemma RowsComplete(events: seq<Event>)
    requires events != [] && TimesInRange(events)
    requires var last := events[|events| - 1]; last.Observe? && last.obs.mid.Some?
    ensures forall row :: row in LastRows(events) ==> exists k :: RowOfQuote(events, k, row)
    ensures forall k :: 0 <= k < |events| && events[k].Add?
                        && FirstUsable(events, k, |events| - 1, Later(events[k].quote.quotedAtMs, 60_000)) ==>
              exists row :: row in LastRows(events) && RowOfQuote(events, k, row)
  {
    var before, last := events[..|events| - 1], events[|events| - 1];
    assert before + [last] == events;
    TrackerRefinesReference(events);
    forall row | row in LastRows(events) ensures exists k :: RowOfQuote(events, k, row) {
      RowsAreOfQuotes(before, last.obs, |before|, row);
    }
    forall k | 0 <= k < |events| && events[k].Add?
               && FirstUsable(events, k, |events| - 1, Later(events[k].quote.quotedAtMs, 60_000))
      ensures exists row :: row in LastRows(events) && RowOfQuote(events, k, row)
    {
      QuoteGetsRow(before, last.obs, |before|, k);
    }
  }
}

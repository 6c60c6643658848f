// The round-robin schedule of a corpus run (run_corpus in
// src/bin/historical_backtest.rs): conditions are taken from the buckets in
// turn, so that a run cut short by its budget has served all buckets alike.
module Interleave {
  import opened Domain

  /** The turn of a bucket in a round. */
  datatype Slot = Slot(round: nat, bucket: nat)

  predicate Earlier(x: Slot, y: Slot) {
    x.round < y.round || (x.round == y.round && x.bucket < y.bucket)
  }

  predicate IsTurn(buckets: seq<seq<string>>, s: Slot) {
    s.bucket < |buckets| && s.round < |buckets[s.bucket]|
  }

  ghost predicate InOrder(slots: seq<Slot>) {
    forall i, k :: 0 <= i < k < |slots| ==> Earlier(slots[i], slots[k])
  }

  /** The turns before `at`, each once, round by round and in bucket order. */
  ghost predicate ScheduleUpTo(buckets: seq<seq<string>>, slots: seq<Slot>, at: Slot) {
    && InOrder(slots)
    && forall s :: s in slots <==> IsTurn(buckets, s) && Earlier(s, at)
  }

  /** All turns, each once, round by round and in bucket order. */
  ghost predicate IsSchedule(buckets: seq<seq<string>>, slots: seq<Slot>) {
    && InOrder(slots)
    && forall s :: s in slots <==> IsTurn(buckets, s)
  }

  /** The condition a bucket contributes in a round, if it has one left. */
  function Item(buckets: seq<seq<string>>, s: Slot): Option<string> {
    if IsTurn(buckets, s) then Some(buckets[s.bucket][s.round]) else None
  }

  /** `conditions` are the items of the turns `slots`. */
  ghost predicate Picks(buckets: seq<seq<string>>, slots: seq<Slot>, conditions: seq<string>) {
    && |conditions| == |slots|
    && forall i :: 0 <= i < |slots| ==>
         IsTurn(buckets, slots[i]) && conditions[i] == buckets[slots[i].bucket][slots[i].round]
  }

  function Longest(buckets: seq<seq<string>>): (n: nat)
    ensures forall b :: 0 <= b < |buckets| ==> |buckets[b]| <= n
  {
    if buckets == [] then 0
    else
      var front := buckets[..|buckets| - 1];
      assert buckets == front + [buckets[|front|]];
      Max(Longest(front), |buckets[|front|]|)
  }

  /** The interleaving loop: rounds go on until one makes no progress. */
  method InterleaveBuckets(buckets: seq<seq<string>>) returns (conditions: seq<string>)
    ensures exists slots :: IsSchedule(buckets, slots) && Picks(buckets, slots, conditions)
  {
    conditions := [];
    ghost var slots: seq<Slot> := [];
    var round := 0;
    while true
      invariant ScheduleUpTo(buckets, slots, Slot(round, 0)) && Picks(buckets, slots, conditions)
      decreases Longest(buckets) - round
    {
      var progressed := false;
      var b := 0;
      while b < |buckets|
        invariant 0 <= b <= |buckets|
        invariant ScheduleUpTo(buckets, slots, Slot(round, b)) && Picks(buckets, slots, conditions)
        invariant !progressed ==> forall a :: 0 <= a < b ==> |buckets[a]| <= round
        invariant progressed ==> round < Longest(buckets)
      {
        NextBucket(buckets, slots, round, b);
        var item := Item(buckets, Slot(round, b));
        if item.Some? {
          conditions := conditions + [item.value];
          slots := slots + [Slot(round, b)];
          progressed := true;
        }
        b := b + 1;
      }
      if !progressed {
        NoTurnsLeft(buckets, slots, round);
        break;
      }
      NextRound(buckets, slots, round);
      round := round + 1;
    }
  }

  lemma NextBucket(buckets: seq<seq<string>>, slots: seq<Slot>, round: nat, b: nat)
    requires ScheduleUpTo(buckets, slots, Slot(round, b))
    ensures var s := Slot(round, b);
            ScheduleUpTo(buckets, if IsTurn(buckets, s) then slots + [s] else slots, Slot(round, b + 1))
  {
    var at, after := Slot(round, b), Slot(round, b + 1);
    forall s ensures Earlier(s, after) <==> Earlier(s, at) || s == at {}
    if IsTurn(buckets, at) {
      forall i | 0 <= i < |slots| ensures Earlier(slots[i], at) {
        assert slots[i] in slots;
      }
    }
  }

  lemma NextRound(buckets: seq<seq<string>>, slots: seq<Slot>, round: nat)
    requires ScheduleUpTo(buckets, slots, Slot(round, |buckets|))
    ensures ScheduleUpTo(buckets, slots, Slot(round + 1, 0))
  {
    forall s | IsTurn(buckets, s) ensures Earlier(s, Slot(round, |buckets|)) <==> Earlier(s, Slot(round + 1, 0)) {}
  }

  lemma NoTurnsLeft(buckets: seq<seq<string>>, slots: seq<Slot>, round: nat)
    requires ScheduleUpTo(buckets, slots, Slot(round, |buckets|))
    requires forall b :: 0 <= b < |buckets| ==> |buckets[b]| <= round
    ensures IsSchedule(buckets, slots)
  {
    forall s | IsTurn(buckets, s) ensures Earlier(s, Slot(round, |buckets|)) {}
  }

  /** There is one schedule only. */
  lemma ScheduleUnique(buckets: seq<seq<string>>, a: seq<Slot>, b: seq<Slot>)
    requires IsSchedule(buckets, a) && IsSchedule(buckets, b)
    ensures a == b
  {
    SamePrefix(buckets, a, b, |a|);
    SamePrefix(buckets, b, a, |b|);
  }

  lemma {:induction false} SamePrefix(buckets: seq<seq<string>>, a: seq<Slot>, b: seq<Slot>, n: nat)
    requires IsSchedule(buckets, a) && IsSchedule(buckets, b) && n <= |a|
    ensures n <= |b| && a[..n] == b[..n]
  {
    if n > 0 {
      SamePrefix(buckets, a, b, n - 1);
      var s := a[n - 1];
      assert s in a && s in b;
      var k :| 0 <= k < |b| && b[k] == s;
      NotRepeated(a, b, n - 1, k);
      var t := b[n - 1];
      assert t in b && t in a;
      var i :| 0 <= i < |a| && a[i] == t;
      NotRepeated(b, a, n - 1, i);
      assert a[..n] == a[..n - 1] + [s] && b[..n] == b[..n - 1] + [t];
    }
  }

  lemma NotRepeated(a: seq<Slot>, b: seq<Slot>, n: nat, k: nat)
    requires InOrder(a) && n < |a| && n <= |b| && a[..n] == b[..n] && k < |b| && b[k] == a[n]
    ensures k >= n
  {}

  // ----- Fairness of every prefix -----

  function Served(slots: seq<Slot>, bucket: nat): nat {
    if slots == [] then 0
    else Served(slots[..|slots| - 1], bucket) + if slots[|slots| - 1].bucket == bucket then 1 else 0
  }

  /** A prefix of the schedule holds every turn earlier than one of its own. */
  lemma PrefixClosed(buckets: seq<seq<string>>, slots: seq<Slot>, n: nat, s: Slot, t: Slot)
    requires IsSchedule(buckets, slots) && n <= |slots|
    requires s in slots[..n] && IsTurn(buckets, t) && Earlier(t, s)
    ensures t in slots[..n]
  {
    var k :| 0 <= k < n && slots[k] == s;
    assert t in slots;
    var i :| 0 <= i < |slots| && slots[i] == t;
    assert i < k;
    assert slots[..n][i] == t;
  }

  /** After any prefix a bucket has had exactly its first `Served` turns. */
  lemma {:induction false} ServedAreFirst(buckets: seq<seq<string>>, slots: seq<Slot>, n: nat, bucket: nat)
    requires IsSchedule(buckets, slots) && n <= |slots| && bucket < |buckets|
    ensures Served(slots[..n], bucket) <= |buckets[bucket]|
    ensures forall r: nat :: Slot(r, bucket) in slots[..n] <==> r < Served(slots[..n], bucket)
    decreases n
  {
    if n > 0 {
      ServedAreFirst(buckets, slots, n - 1, bucket);
      var last, served := slots[n - 1], Served(slots[..n - 1], bucket);
      assert slots[..n][..n - 1] == slots[..n - 1];
      assert slots[..n] == slots[..n - 1] + [last];
      if last.bucket == bucket {
        NextTurn(buckets, slots, n, bucket, served);
      }
    }
  }

  lemma NextTurn(buckets: seq<seq<string>>, slots: seq<Slot>, n: nat, bucket: nat, served: nat)
    requires IsSchedule(buckets, slots) && 0 < n <= |slots| && slots[n - 1].bucket == bucket
    requires forall r: nat :: Slot(r, bucket) in slots[..n - 1] <==> r < served
    ensures IsTurn(buckets, slots[n - 1]) && slots[n - 1].round == served
  {
    var last := slots[n - 1];
    assert last in slots && slots[..n] == slots[..n - 1] + [last];
    assert last !in slots[..n - 1];
    if last.round > served {
      PrefixClosed(buckets, slots, n, last, Slot(served, last.bucket));
    }
  }

  /** Fairness: wherever the run stops, no bucket is more than one turn ahead of a
      bucket that still has conditions left, and none is ahead of an earlier one. */
  lemma PrefixIsFair(buckets: seq<seq<string>>, slots: seq<Slot>, n: nat, a: nat, b: nat)
    requires IsSchedule(buckets, slots) && n <= |slots| && a < |buckets| && b < |buckets|
    ensures var prefix := slots[..n];
            && Served(prefix, a) >= Min(|buckets[a]|, Served(prefix, b) - 1)
            && (a < b ==> Served(prefix, a) >= Min(|buckets[a]|, Served(prefix, b)))
  {
    var prefix := slots[..n];
    ServedAreFirst(buckets, slots, n, a);
    ServedAreFirst(buckets, slots, n, b);
    var mine, theirs := Served(prefix, a), Served(prefix, b);
    if mine < |buckets[a]| && theirs > 0 {
      var s := Slot(theirs - 1, b);
      assert s in prefix && Slot(mine, a) !in prefix;
      if Earlier(Slot(mine, a), s) {
        PrefixClosed(buckets, slots, n, s, Slot(mine, a));
      }
    }
  }
}

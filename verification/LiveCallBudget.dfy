// The lock-free live-call budget (src/bin/precompute_jev.rs): workers reserve
// calls by a load and a compare-exchange on one shared counter.
module LiveCallBudget {
  import opened Domain
  import opened Arithmetic

  // Every interleaving of the workers' atomic steps is a run of the transition
  // system below. Loads are relaxed: a worker may read any value the counter has
  // had, as long as it never goes back behind a value it has read before. A
  // compare-exchange succeeds only on the counter's current value; when it fails
  // it reads some other value, again not behind what the worker has read.

  datatype Program =
    | Loading                     // about to load the counter
    | Swapping(current: nat)      // about to compare-exchange current with current + 1
    | Done(reserved: bool)

  /** `seen` is the newest counter value the worker has read, `failures` counts
      its failed compare-exchanges, `steps` its atomic steps. */
  datatype Worker = Worker(program: Program, seen: nat, failures: nat, steps: nat)

  datatype State = State(counter: nat, workers: seq<Worker>)

  const FRESH := Worker(Loading, 0, 0, 0)

  ghost predicate Init(s: State) {
    s.counter == 0 && forall i :: 0 <= i < |s.workers| ==> s.workers[i] == FRESH
  }

  /** The load, and the check against the budget. */
  ghost predicate LoadStep(budget: nat, c: nat, w: Worker, c': nat, w': Worker) {
    && w.program.Loading?
    && c' == c
    && w.seen <= w'.seen <= c
    && w'.program == (if w'.seen >= budget then Done(false) else Swapping(w'.seen))
    && w'.failures == w.failures && w'.steps == w.steps + 1
  }

  /** The compare-exchange succeeds. */
  ghost predicate SwapStep(c: nat, w: Worker, c': nat, w': Worker) {
    && w.program == Swapping(c)
    && c' == c + 1
    && w' == Worker(Done(true), c + 1, w.failures, w.steps + 1)
  }

  /** The compare-exchange fails, and the loop starts again. */
  ghost predicate FailStep(c: nat, w: Worker, c': nat, w': Worker) {
    && w.program.Swapping? && w.program.current != c
    && c' == c
    && w.seen <= w'.seen <= c && w'.seen != w.program.current
    && w'.program == Loading
    && w'.failures == w.failures + 1 && w'.steps == w.steps + 1
  }

  ghost predicate WorkerStep(budget: nat, c: nat, w: Worker, c': nat, w': Worker) {
    LoadStep(budget, c, w, c', w') || SwapStep(c, w, c', w') || FailStep(c, w, c', w')
  }

  /** Some worker takes one atomic step. */
  ghost predicate Next(budget: nat, s: State, s': State) {
    && |s'.workers| == |s.workers|
    && exists i :: 0 <= i < |s.workers| && StepOf(budget, s, s', i)
  }

  ghost predicate StepOf(budget: nat, s: State, s': State, i: nat)
    requires i < |s.workers| == |s'.workers|
  {
    && WorkerStep(budget, s.counter, s.workers[i], s'.counter, s'.workers[i])
    && forall j :: 0 <= j < |s.workers| && j != i ==> s'.workers[j] == s.workers[j]
  }

  ghost predicate IsRun(budget: nat, run: seq<State>) {
    && run != [] && Init(run[0])
    && forall k :: 0 <= k < |run| - 1 ==> Next(budget, run[k], run[k + 1])
  }

  // ----- Counting -----

  function Succeeded(workers: seq<Worker>): nat {
    if workers == [] then 0
    else Succeeded(workers[..|workers| - 1]) + One(workers[|workers| - 1].program == Done(true))
  }

  function Steps(workers: seq<Worker>): nat {
    if workers == [] then 0 else Steps(workers[..|workers| - 1]) + workers[|workers| - 1].steps
  }

  lemma {:induction false} CountsMove(workers: seq<Worker>, workers': seq<Worker>, i: nat)
    requires |workers| == |workers'| && i < |workers|
    requires forall j :: 0 <= j < |workers| && j != i ==> workers'[j] == workers[j]
    ensures Succeeded(workers') + One(workers[i].program == Done(true))
         == Succeeded(workers) + One(workers'[i].program == Done(true))
    ensures Steps(workers') + workers[i].steps == Steps(workers) + workers'[i].steps
  {
    var last := |workers| - 1;
    if i < last {
      CountsMove(workers[..last], workers'[..last], i);
    } else {
      assert workers[..last] == workers'[..last];
    }
  }

  // ----- What every step keeps -----

  /** Steps of a worker so far: two per failed round, and those of the last one. */
  function RoundSteps(p: Program): nat {
    match p
    case Loading => 0
    case Swapping(_) => 1
    case Done(reserved) => if reserved then 2 else 1
  }

  ghost predicate WorkerInvariant(budget: nat, c: nat, w: Worker) {
    && w.failures <= w.seen <= c
    && (w.program.Swapping? ==> w.program.current == w.seen < budget)
    && (w.program == Done(false) ==> c >= budget)
    && (w.program == Done(true) ==> w.failures < budget)
    && w.failures <= budget
    && w.steps == 2 * w.failures + RoundSteps(w.program)
  }

  ghost predicate Invariant(budget: nat, s: State) {
    && Succeeded(s.workers) == s.counter <= budget
    && forall i :: 0 <= i < |s.workers| ==> WorkerInvariant(budget, s.counter, s.workers[i])
  }

  lemma {:induction false} InitInvariant(budget: nat, workers: seq<Worker>)
    requires forall i :: 0 <= i < |workers| ==> workers[i] == FRESH
    ensures Succeeded(workers) == 0 && Steps(workers) == 0
  {
    if workers != [] {
      InitInvariant(budget, workers[..|workers| - 1]);
    }
  }

  lemma StepKeepsInvariant(budget: nat, s: State, s': State)
    requires Invariant(budget, s) && Next(budget, s, s')
    ensures Invariant(budget, s')
    ensures Steps(s'.workers) == Steps(s.workers) + 1
  {
    var i :| 0 <= i < |s.workers| && StepOf(budget, s, s', i);
    CountsMove(s.workers, s'.workers, i);
    assert WorkerInvariant(budget, s.counter, s.workers[i]);
    forall j | 0 <= j < |s'.workers| ensures WorkerInvariant(budget, s'.counter, s'.workers[j]) {
      assert WorkerInvariant(budget, s.counter, s.workers[j]);
    }
  }

  /** Over every run, of any number of workers in any interleaving: successful
      reservations equal the counter and never exceed the budget, each worker
      fails its compare-exchange at most `budget` times, and the run is as long
      as the steps its workers took. */
  lemma {:induction false} RunInvariant(budget: nat, run: seq<State>)
    requires IsRun(budget, run)
    ensures Invariant(budget, run[|run| - 1])
    ensures Steps(run[|run| - 1].workers) == |run| - 1
    ensures |run[|run| - 1].workers| == |run[0].workers|
  {
    if |run| == 1 {
      InitInvariant(budget, run[0].workers);
    } else {
      var before := run[..|run| - 1];
      assert forall k :: 0 <= k < |before| - 1 ==> Next(budget, before[k], before[k + 1]) by {
        forall k | 0 <= k < |before| - 1 ensures Next(budget, before[k], before[k + 1]) {
          assert Next(budget, run[k], run[k + 1]);
        }
      }
      RunInvariant(budget, before);
      assert Next(budget, run[|run| - 2], run[|run| - 1]);
      StepKeepsInvariant(budget, run[|run| - 2], run[|run| - 1]);
    }
  }

  // ----- When everyone has finished -----

  ghost predicate AllDone(s: State) {
    forall i :: 0 <= i < |s.workers| ==> s.workers[i].program.Done?
  }

  lemma {:induction false} SucceededBounds(workers: seq<Worker>)
    ensures Succeeded(workers) <= |workers|
    ensures Succeeded(workers) == |workers| <==> forall i :: 0 <= i < |workers| ==> workers[i].program == Done(true)
  {
    if workers != [] {
      SucceededBounds(workers[..|workers| - 1]);
    }
  }

  /** When N workers have finished, exactly min(N, budget) reserved a call. */
  lemma FinishedCount(budget: nat, run: seq<State>)
    requires IsRun(budget, run) && AllDone(run[|run| - 1])
    ensures var n := |run[0].workers|;
            Succeeded(run[|run| - 1].workers) == if n < budget then n else budget
  {
    var s := run[|run| - 1];
    RunInvariant(budget, run);
    SucceededBounds(s.workers);
    if s.counter < budget {
      forall i | 0 <= i < |s.workers| ensures s.workers[i].program == Done(true) {
        assert WorkerInvariant(budget, s.counter, s.workers[i]);
      }
    }
  }

  // ----- Termination -----

  lemma {:induction false} StepsBound(budget: nat, c: nat, workers: seq<Worker>)
    requires forall i :: 0 <= i < |workers| ==> WorkerInvariant(budget, c, workers[i])
    ensures Steps(workers) <= |workers| * (2 * budget + 1)
    decreases |workers|
  {
    if workers != [] {
      var last := |workers| - 1;
      StepsBound(budget, c, workers[..last]);
      assert WorkerInvariant(budget, c, workers[last]);
      MulStep(last, 2 * budget + 1);
    }
  }

  /** No run is longer than N * (2 * budget + 1) steps, whatever the schedule. */
  lemma RunsAreBounded(budget: nat, run: seq<State>)
    requires IsRun(budget, run)
    ensures |run| - 1 <= |run[0].workers| * (2 * budget + 1)
  {
    RunInvariant(budget, run);
    StepsBound(budget, run[|run| - 1].counter, run[|run| - 1].workers);
  }

  /** A load may return any value the counter has had since the worker last read it,
      and so may a compare-exchange whose expected value is out of date. */
  lemma AnyValueMayBeRead(budget: nat, s: State, i: nat, v: nat) returns (s': State)
    requires Invariant(budget, s) && i < |s.workers| && !s.workers[i].program.Done?
    requires s.workers[i].seen <= v <= s.counter && s.workers[i].program != Swapping(s.counter)
    requires s.workers[i].program.Swapping? ==> s.workers[i].program.current != v
    ensures Next(budget, s, s') && s'.counter == s.counter
    ensures s'.workers[i].seen == v && s'.workers[i].steps == s.workers[i].steps + 1
  {
    var w, c := s.workers[i], s.counter;
    var w' := if w.program.Loading?
              then Worker(if v >= budget then Done(false) else Swapping(v), v, w.failures, w.steps + 1)
              else Worker(Loading, v, w.failures + 1, w.steps + 1);
    s' := State(c, s.workers[i := w']);
    assert StepOf(budget, s, s', i);
  }

  /** No worker is ever stuck: one that has not finished can always step. */
  lemma UnfinishedCanStep(budget: nat, s: State, i: nat) returns (s': State)
    requires Invariant(budget, s) && i < |s.workers| && !s.workers[i].program.Done?
    ensures Next(budget, s, s') && s'.workers[i].steps == s.workers[i].steps + 1
  {
    var w, c := s.workers[i], s.counter;
    assert WorkerInvariant(budget, c, w);
    if w.program == Swapping(c) {
      s' := State(c + 1, s.workers[i := Worker(Done(true), c + 1, w.failures, w.steps + 1)]);
      assert StepOf(budget, s, s', i);
    } else {
      s' := AnyValueMayBeRead(budget, s, i, c);
    }
  }

  // ----- Why a worker fails -----

  lemma StepSwaps(budget: nat, s: State, s': State) returns (j: nat)
    requires Next(budget, s, s') && s'.counter != s.counter
    ensures j < |s.workers| == |s'.workers| && SwapStep(s.counter, s.workers[j], s'.counter, s'.workers[j])
  {
    j :| 0 <= j < |s.workers| && StepOf(budget, s, s', j);
  }

  /** Once the counter is past `c`, some step took it from `c` to `c + 1`, after
      every state in which it was at most `c`. */
  lemma {:induction false} Crossing(budget: nat, run: seq<State>, c: nat, n: nat) returns (m: nat, j: nat)
    requires IsRun(budget, run) && n < |run| && run[n].counter > c
    ensures m < n && run[m].counter == c && j < |run[m].workers| == |run[m + 1].workers|
    ensures SwapStep(c, run[m].workers[j], run[m + 1].counter, run[m + 1].workers[j])
    ensures forall l :: 0 <= l <= n && run[l].counter <= c ==> l <= m
  {
    assert Next(budget, run[n - 1], run[n]);
    if run[n - 1].counter > c {
      m, j := Crossing(budget, run, c, n - 1);
    } else {
      m := n - 1;
      j := StepSwaps(budget, run[m], run[n]);
    }
  }

  lemma {:induction false} DoneStays(budget: nat, run: seq<State>, j: nat, m: nat, n: nat)
    requires IsRun(budget, run) && m <= n < |run| && j < |run[m].workers| && run[m].workers[j].program.Done?
    ensures j < |run[n].workers| && run[n].workers[j].program.Done?
    decreases n - m
  {
    if m < n {
      DoneStays(budget, run, j, m, n - 1);
      assert Next(budget, run[n - 1], run[n]);
      var i :| 0 <= i < |run[n - 1].workers| && StepOf(budget, run[n - 1], run[n], i);
    }
  }

  lemma RunPrefix(budget: nat, run: seq<State>, n: nat)
    requires IsRun(budget, run) && 0 < n <= |run|
    ensures IsRun(budget, run[..n])
  {
    forall k | 0 <= k < n - 1 ensures Next(budget, run[..n][k], run[..n][k + 1]) {
      assert Next(budget, run[k], run[k + 1]);
    }
  }

  /** In every run, a compare-exchange of worker `i` fails only because another
      worker has reserved the very value it loaded; and that reservation came after
      every state in which the counter was at most that value, so after the load
      whenever the load was not out of date. */
  lemma FailureMeansProgress(budget: nat, run: seq<State>, n: nat, i: nat) returns (m: nat, j: nat)
    requires IsRun(budget, run) && n + 1 < |run| && i < |run[n].workers| == |run[n + 1].workers|
    requires FailStep(run[n].counter, run[n].workers[i], run[n + 1].counter, run[n + 1].workers[i])
    ensures m < n && j != i && j < |run[m].workers| == |run[m + 1].workers|
    ensures run[m].counter == run[n].workers[i].program.current
    ensures SwapStep(run[m].counter, run[m].workers[j], run[m + 1].counter, run[m + 1].workers[j])
    ensures forall l :: 0 <= l <= n && run[l].counter <= run[n].workers[i].program.current ==> l <= m
  {
    var before := run[..n + 1];
    RunPrefix(budget, run, n + 1);
    RunInvariant(budget, before);
    assert before[|before| - 1] == run[n];
    assert WorkerInvariant(budget, run[n].counter, run[n].workers[i]);
    m, j := Crossing(budget, run, run[n].workers[i].program.current, n);
    DoneStays(budget, run, j, m + 1, n);
  }
}

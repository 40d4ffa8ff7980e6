/** The barrier protocol of N identically configured bonnie++ processes: each one calls `decrement_and_wait` for the
    same semaphores in the same order.  A step is one kernel operation of one process. */
module Barrier {
  import opened Arithmetic
  import opened Pigeonhole
  import opened Semaphores
  import opened TestNumbers

  /** `calls` are the semaphore numbers in the order of the calls; the set has `sems` semaphores, created with value n. */
  datatype Config = Config(n: nat, sems: nat, calls: seq<nat>)

  predicate ValidConfig(c: Config) {
    forall i :: 0 <= i < |c.calls| ==> c.calls[i] < c.sems
  }

  /** `passed` barriers are behind the process; `waiting` is set between the two operations of a call; `failed` after a
      refused decrement, which ends the process. */
  datatype Process = Process(passed: nat, waiting: bool, failed: bool)

  datatype State = State(processes: seq<Process>, values: seq<nat>)

  datatype Step = Enter(p: nat) | Leave(p: nat)

  function Init(c: Config): State {
    State(seq(c.n, _ => Process(0, false, false)), seq(c.sems, _ => c.n))
  }

  predicate Enabled(c: Config, s: State, step: Step) {
    && step.p < |s.processes|
    && var process := s.processes[step.p];
       && process.passed < |c.calls| && !process.failed
       && match step
          case Enter(_) => !process.waiting
          case Leave(_) => process.waiting && IsZero(s.values, c.calls[process.passed])
  }

  function Apply(c: Config, s: State, step: Step): State
    requires Enabled(c, s, step)
  {
    var process := s.processes[step.p];
    var nr := c.calls[process.passed];
    match step
    case Enter(p) =>
      if CanDecrement(s.values, nr) then
        State(s.processes[p := process.(waiting := true)], Decremented(s.values, nr))
      else
        s.(processes := s.processes[p := process.(failed := true)])
    case Leave(p) =>
      s.(processes := s.processes[p := Process(process.passed + 1, false, false)])
  }

  predicate Executable(c: Config, s: State, run: seq<Step>)
    decreases |run|
  {
    run == [] || (Enabled(c, s, run[0]) && Executable(c, Apply(c, s, run[0]), run[1..]))
  }

  function After(c: Config, s: State, run: seq<Step>): State
    requires Executable(c, s, run)
    decreases |run|
  {
    if run == [] then s else After(c, Apply(c, s, run[0]), run[1..])
  }

  predicate NobodyFailed(s: State) {
    forall p :: 0 <= p < |s.processes| ==> !s.processes[p].failed
  }

  ghost predicate NeverFails(c: Config) {
    forall run :: Executable(c, Init(c), run) ==> NobodyFailed(After(c, Init(c), run))
  }

  // ----- counting decrements -----

  /** How many barriers a process has entered. */
  function Entered(process: Process): nat {
    process.passed + if process.waiting then 1 else 0
  }

  /** Occurrences of semaphore k in the first m calls. */
  function Occurrences(calls: seq<nat>, m: nat, k: nat): nat {
    if m == 0 || m > |calls| then 0
    else Occurrences(calls, m - 1, k) + if calls[m - 1] == k then 1 else 0
  }

  /** How often semaphore k has been decremented by all processes together. */
  function Spent(calls: seq<nat>, processes: seq<Process>, k: nat): nat {
    if processes == [] then 0
    else Occurrences(calls, Entered(processes[0]), k) + Spent(calls, processes[1..], k)
  }

  lemma {:induction false} SpentUpdate(calls: seq<nat>, processes: seq<Process>, p: nat, process: Process, k: nat)
    requires p < |processes|
    ensures Spent(calls, processes[p := process], k) + Occurrences(calls, Entered(processes[p]), k)
         == Spent(calls, processes, k) + Occurrences(calls, Entered(process), k)
  {
    var updated := processes[p := process];
    if p == 0 {
      assert updated[1..] == processes[1..];
    } else {
      assert updated[1..] == processes[1..][p - 1 := process];
      SpentUpdate(calls, processes[1..], p - 1, process, k);
    }
  }

  lemma {:induction false} SpentAtStart(calls: seq<nat>, n: nat, k: nat)
    ensures Spent(calls, seq(n, _ => Process(0, false, false)), k) == 0
  {
    if n > 0 {
      assert seq(n, _ => Process(0, false, false))[1..] == seq(n - 1, _ => Process(0, false, false));
      SpentAtStart(calls, n - 1, k);
    }
  }

  /** Sum bounds: each process spends at least / at most one unit of semaphore k. */
  lemma {:induction false} SpentAtLeast(calls: seq<nat>, processes: seq<Process>, k: nat)
    requires forall p :: 0 <= p < |processes| ==> Occurrences(calls, Entered(processes[p]), k) >= 1
    ensures Spent(calls, processes, k) >= |processes|
  {
    if processes != [] {
      SpentAtLeast(calls, processes[1..], k);
    }
  }

  lemma {:induction false} SpentAtMost(calls: seq<nat>, processes: seq<Process>, k: nat)
    requires forall p :: 0 <= p < |processes| ==> Occurrences(calls, Entered(processes[p]), k) <= 1
    ensures Spent(calls, processes, k) <= |processes|
    ensures Spent(calls, processes, k) == |processes|
            ==> forall p :: 0 <= p < |processes| ==> Occurrences(calls, Entered(processes[p]), k) == 1
  {
    if processes != [] {
      SpentAtMost(calls, processes[1..], k);
      if Spent(calls, processes, k) == |processes| {
        forall p | 0 <= p < |processes| ensures Occurrences(calls, Entered(processes[p]), k) == 1 {
          if p > 0 {
            assert processes[p] == processes[1..][p - 1];
          }
        }
      }
    }
  }

  lemma {:induction false} OccursWhere(calls: seq<nat>, m: nat, k: nat)
    requires m <= |calls|
    ensures Occurrences(calls, m, k) >= 1 <==> k in calls[..m]
  {
    if m > 0 {
      OccursWhere(calls, m - 1, k);
      assert calls[..m] == calls[..m - 1] + [calls[m - 1]];
    }
  }

  lemma {:induction false} OccursOnce(calls: seq<nat>, m: nat, k: nat)
    requires m <= |calls| && Distinct(calls)
    ensures Occurrences(calls, m, k) <= 1
  {
    if m > 0 {
      OccursOnce(calls, m - 1, k);
      OccursWhere(calls, m - 1, k);
    }
  }

  // ----- invariants -----

  /** Conservation, for any list of calls: each semaphore holds n minus its decrements. */
  predicate Inv(c: Config, s: State) {
    && |s.processes| == c.n && |s.values| == c.sems
    && (forall p :: 0 <= p < c.n ==> Entered(s.processes[p]) <= |c.calls|)
    && (forall p :: 0 <= p < c.n ==> !(s.processes[p].failed && s.processes[p].waiting))
    && (forall k :: 0 <= k < c.sems ==> s.values[k] + Spent(c.calls, s.processes, k) == c.n)
  }

  lemma InitInv(c: Config)
    ensures Inv(c, Init(c))
  {
    forall k | 0 <= k < c.sems ensures Spent(c.calls, Init(c).processes, k) == 0 {
      SpentAtStart(c.calls, c.n, k);
    }
  }

  lemma StepKeepsInv(c: Config, s: State, step: Step)
    requires ValidConfig(c) && Inv(c, s) && Enabled(c, s, step)
    ensures Inv(c, Apply(c, s, step))
  {
    var s' := Apply(c, s, step);
    forall k | 0 <= k < c.sems ensures s'.values[k] + Spent(c.calls, s'.processes, k) == c.n {
      SpentUpdate(c.calls, s.processes, step.p, s'.processes[step.p], k);
    }
  }

  lemma {:induction false} ReachableInv(c: Config, s: State, run: seq<Step>)
    requires ValidConfig(c) && Inv(c, s) && Executable(c, s, run)
    ensures Inv(c, After(c, s, run))
    decreases |run|
  {
    if run != [] {
      StepKeepsInv(c, s, run[0]);
      ReachableInv(c, Apply(c, s, run[0]), run[1..]);
    }
  }

  /** Nobody is past a barrier that some process has not entered. */
  predicate BarrierHolds(s: State) {
    forall p, q :: 0 <= p < |s.processes| && 0 <= q < |s.processes| ==>
      s.processes[p].passed <= Entered(s.processes[q])
  }

  /** A semaphore at 0 means that every process has entered its barrier. */
  lemma ZeroMeansAllEntered(c: Config, s: State, i: nat, q: nat)
    requires ValidConfig(c) && Distinct(c.calls) && Inv(c, s)
    requires i < |c.calls| && s.values[c.calls[i]] == 0 && q < c.n
    ensures i < Entered(s.processes[q])
  {
    var k := c.calls[i];
    forall p | 0 <= p < c.n ensures Occurrences(c.calls, Entered(s.processes[p]), k) <= 1 {
      OccursOnce(c.calls, Entered(s.processes[p]), k);
    }
    SpentAtMost(c.calls, s.processes, k);
    var m := Entered(s.processes[q]);
    OccursWhere(c.calls, m, k);
    var j :| 0 <= j < m && c.calls[..m][j] == k;
    assert c.calls[j] == k;
  }

  /** With distinct calls a process always finds its semaphore positive. */
  lemma DecrementSucceeds(c: Config, s: State, p: nat)
    requires ValidConfig(c) && Distinct(c.calls) && Inv(c, s) && Enabled(c, s, Enter(p))
    ensures CanDecrement(s.values, c.calls[s.processes[p].passed])
  {
    var i := s.processes[p].passed;
    if s.values[c.calls[i]] == 0 {
      ZeroMeansAllEntered(c, s, i, p);
    }
  }

  lemma StepKeepsBarrier(c: Config, s: State, step: Step)
    requires ValidConfig(c) && Distinct(c.calls) && Inv(c, s) && BarrierHolds(s) && NobodyFailed(s)
    requires Enabled(c, s, step)
    ensures BarrierHolds(Apply(c, s, step)) && NobodyFailed(Apply(c, s, step))
  {
    var i := s.processes[step.p].passed;
    if step.Enter? {
      DecrementSucceeds(c, s, step.p);
    } else {
      forall q | 0 <= q < c.n ensures i < Entered(s.processes[q]) {
        ZeroMeansAllEntered(c, s, i, q);
      }
    }
  }

  lemma {:induction false} RunKeepsBarrier(c: Config, s: State, run: seq<Step>)
    requires ValidConfig(c) && Distinct(c.calls) && Inv(c, s) && BarrierHolds(s) && NobodyFailed(s)
    requires Executable(c, s, run)
    ensures Inv(c, After(c, s, run)) && BarrierHolds(After(c, s, run)) && NobodyFailed(After(c, s, run))
    decreases |run|
  {
    if run != [] {
      StepKeepsInv(c, s, run[0]);
      StepKeepsBarrier(c, s, run[0]);
      RunKeepsBarrier(c, Apply(c, s, run[0]), run[1..]);
    }
  }

  // ----- main results -----

  /** In every run, semaphore k holds n minus the number of its decrements. */
  lemma SemaphoreCounts(c: Config, run: seq<Step>, k: nat)
    requires ValidConfig(c) && Executable(c, Init(c), run) && k < c.sems
    ensures var s := After(c, Init(c), run);
            |s.values| == c.sems && s.values[k] + Spent(c.calls, s.processes, k) == c.n
  {
    InitInv(c);
    ReachableInv(c, Init(c), run);
  }

  /** Barrier safety in every run: a process past barrier i means that all have entered it, so any two processes are at
      most one phase apart. */
  lemma PhasesStayTogether(c: Config, run: seq<Step>, p: nat, q: nat)
    requires ValidConfig(c) && Distinct(c.calls) && Executable(c, Init(c), run) && p < c.n && q < c.n
    ensures var s := After(c, Init(c), run);
            && |s.processes| == c.n
            && s.processes[p].passed <= Entered(s.processes[q])
            && s.processes[p].passed <= s.processes[q].passed + 1
  {
    InitInv(c);
    RunKeepsBarrier(c, Init(c), run);
  }

  ghost predicate CanStep(c: Config, s: State) {
    exists step :: Enabled(c, s, step)
  }

  predicate AllPassed(c: Config, s: State) {
    forall p :: 0 <= p < |s.processes| ==> s.processes[p].passed == |c.calls|
  }

  function Slowest(processes: seq<Process>): (p: nat)
    requires processes != []
    ensures p < |processes|
    ensures forall q :: 0 <= q < |processes| ==> processes[p].passed <= processes[q].passed
  {
    if |processes| == 1 then 0
    else
      var p := Slowest(processes[..|processes| - 1]);
      if processes[p].passed <= processes[|processes| - 1].passed then p else |processes| - 1
  }

  /** For any list of calls: while nobody has failed, some process can move until all have passed every barrier. */
  lemma NoDeadlock(c: Config, s: State)
    requires ValidConfig(c) && Inv(c, s) && NobodyFailed(s)
    ensures AllPassed(c, s) <==> !CanStep(c, s)
  {
    if !AllPassed(c, s) {
      var p := Slowest(s.processes);
      var process := s.processes[p];
      var q :| 0 <= q < c.n && s.processes[q].passed != |c.calls|;
      assert Entered(s.processes[q]) <= |c.calls|;
      if !process.waiting {
        assert Enabled(c, s, Enter(p));
      } else if exists r :: 0 <= r < c.n && Enabled(c, s, Enter(r)) {
      } else {
        var k := c.calls[process.passed];
        forall r | 0 <= r < c.n ensures Occurrences(c.calls, Entered(s.processes[r]), k) >= 1 {
          var m := Entered(s.processes[r]);
          assert !Enabled(c, s, Enter(r));
          assert process.passed < m;
          assert c.calls[..m][process.passed] == k;
          OccursWhere(c.calls, m, k);
        }
        SpentAtLeast(c.calls, s.processes, k);
        assert Enabled(c, s, Leave(p));
      }
    }
  }

  /** Kernel operations still to come. */
  function Rank(c: Config, processes: seq<Process>): nat {
    if processes == [] then 0 else Todo(c, processes[0]) + Rank(c, processes[1..])
  }

  function Todo(c: Config, process: Process): nat {
    if process.failed || process.passed > |c.calls| then 0
    else 2 * (|c.calls| - process.passed) + if process.waiting then 0 else 1
  }

  lemma {:induction false} RankUpdate(c: Config, processes: seq<Process>, p: nat, process: Process)
    requires p < |processes|
    ensures Rank(c, processes[p := process]) + Todo(c, processes[p]) == Rank(c, processes) + Todo(c, process)
  {
    var updated := processes[p := process];
    if p == 0 {
      assert updated[1..] == processes[1..];
    } else {
      assert updated[1..] == processes[1..][p - 1 := process];
      RankUpdate(c, processes[1..], p - 1, process);
    }
  }

  lemma StepLowersRank(c: Config, s: State, step: Step)
    requires Enabled(c, s, step)
    ensures Rank(c, Apply(c, s, step).processes) < Rank(c, s.processes)
  {
    RankUpdate(c, s.processes, step.p, Apply(c, s, step).processes[step.p]);
  }

  /** Every run ends: its length is bounded by the work that was left at its start. */
  lemma {:induction false} RunsEnd(c: Config, s: State, run: seq<Step>)
    requires Executable(c, s, run)
    ensures |run| + Rank(c, After(c, s, run).processes) <= Rank(c, s.processes)
    decreases |run|
  {
    if run != [] {
      StepLowersRank(c, s, run[0]);
      RunsEnd(c, Apply(c, s, run[0]), run[1..]);
    }
  }

  /** Every state has a continuation that cannot be extended. */
  lemma RunToTheEnd(c: Config, s: State) returns (run: seq<Step>)
    ensures Executable(c, s, run) && !CanStep(c, After(c, s, run))
    decreases Rank(c, s.processes)
  {
    if CanStep(c, s) {
      var step :| Enabled(c, s, step);
      StepLowersRank(c, s, step);
      var rest := RunToTheEnd(c, Apply(c, s, step));
      run := [step] + rest;
      assert run[1..] == rest;
    } else {
      run := [];
    }
  }

  /** No decrement is ever refused, in any interleaving, exactly when no semaphore is used twice. */
  lemma NeverFailsExactly(c: Config)
    requires ValidConfig(c) && c.n >= 1
    ensures NeverFails(c) <==> Distinct(c.calls)
  {
    InitInv(c);
    if Distinct(c.calls) {
      forall run | Executable(c, Init(c), run) ensures NobodyFailed(After(c, Init(c), run)) {
        RunKeepsBarrier(c, Init(c), run);
      }
    } else if NeverFails(c) {
      var run := RunToTheEnd(c, Init(c));
      var s := After(c, Init(c), run);
      ReachableInv(c, Init(c), run);
      NoDeadlock(c, s);
      var i, j :| 0 <= i < j < |c.calls| && c.calls[i] == c.calls[j];
      forall p | 0 <= p < c.n ensures Occurrences(c.calls, Entered(s.processes[p]), c.calls[i]) >= 2 {
        assert Entered(s.processes[p]) == |c.calls|;
        OccursTwice(c.calls, |c.calls|, i, j);
      }
      SpentTwice(c.calls, s.processes, c.calls[i]);
    }
  }

  lemma {:induction false} OccursTwice(calls: seq<nat>, m: nat, i: nat, j: nat)
    requires i < j < m <= |calls| && calls[i] == calls[j]
    ensures Occurrences(calls, m, calls[i]) >= 2
  {
    if j == m - 1 {
      OccursWhere(calls, m - 1, calls[i]);
      assert calls[..m - 1][i] == calls[i];
    } else {
      OccursTwice(calls, m - 1, i, j);
    }
  }

  lemma {:induction false} SpentTwice(calls: seq<nat>, processes: seq<Process>, k: nat)
    requires forall p :: 0 <= p < |processes| ==> Occurrences(calls, Entered(processes[p]), k) >= 2
    ensures Spent(calls, processes, k) >= 2 * |processes|
  {
    if processes != [] {
      SpentTwice(calls, processes[1..], k);
    }
  }

  // ----- bonnie++'s own list of calls -----

  /** The calls of one `TestFileOps` and one `TestDirOps`, numbered as `tests_t` numbers them. */
  function Plan(fast: bool, files: bool, directories: bool): seq<nat> {
    (if files then
       (if fast then [] else [0]) + [1, 2] + (if fast then [] else [3]) + [4, 5]
     else [])
    + (if directories then [6, 7, 8, 9, 10, 11] else [])
  }

  /** `-x rounds`: the whole plan again and again, without new semaphore values. */
  function Repeated(plan: seq<nat>, rounds: nat): seq<nat> {
    if rounds == 0 then [] else plan + Repeated(plan, rounds - 1)
  }

  lemma PlanUsesEachSemaphoreOnce(fast: bool, files: bool, directories: bool)
    ensures Distinct(Plan(fast, files, directories))
    ensures forall i :: 0 <= i < |Plan(fast, files, directories)| ==> Plan(fast, files, directories)[i] < TEST_COUNT
  {
    var plan := Plan(fast, files, directories);
    assert forall i :: 0 <= i < |plan| ==> plan[i] < TEST_COUNT;
    assert forall i :: 0 < i < |plan| ==> plan[i - 1] < plan[i];
    IncreasingIsDistinct(plan);
  }

  /** The tests of one round: the file tests, without the two that work on single characters if `-f` is given, and then the
      directory tests, in the order of their numbers. */
  lemma PlanInOrder(fast: bool, files: bool, directories: bool, test: nat)
    ensures test in Plan(fast, files, directories)
            <==> (files && test <= 5 && (fast ==> test != 0 && test != 3)) || (directories && 6 <= test <= 11)
    ensures var plan := Plan(fast, files, directories); forall i, k :: 0 <= i < k < |plan| ==> plan[i] < plan[k]
  {
    var plan := Plan(fast, files, directories);
    assert forall i :: 0 < i < |plan| ==> plan[i - 1] < plan[i];
    forall i, k | 0 <= i < k < |plan| ensures plan[i] < plan[k] {
      Increasing(plan, i, k);
    }
  }

  /** Call i of several rounds is that of the plan again and again. */
  lemma {:induction false} RepeatedAt(plan: seq<nat>, rounds: nat, round: nat, i: nat)
    requires round < rounds && i < |plan|
    ensures |Repeated(plan, rounds)| == rounds * |plan| && round * |plan| + i < rounds * |plan|
    ensures Repeated(plan, rounds)[round * |plan| + i] == plan[i]
  {
    RepeatedLength(plan, rounds);
    ScaledLess(|plan|, round, rounds);
    if round > 0 {
      RepeatedAt(plan, rounds - 1, round - 1, i);
      assert (round - 1) * |plan| + |plan| == round * |plan|;
    }
  }

  lemma {:induction false} RepeatedLength(plan: seq<nat>, rounds: nat)
    ensures |Repeated(plan, rounds)| == rounds * |plan|
  {
    if rounds > 0 {
      RepeatedLength(plan, rounds - 1);
      assert (rounds - 1) * |plan| + |plan| == rounds * |plan|;
    }
  }

  lemma IncreasingIsDistinct(calls: seq<nat>)
    requires forall i :: 0 < i < |calls| ==> calls[i - 1] < calls[i]
    ensures Distinct(calls)
  {
    forall i, k | 0 <= i < k < |calls| ensures calls[i] < calls[k] {
      Increasing(calls, i, k);
    }
  }

  lemma {:induction false} Increasing(calls: seq<nat>, i: nat, k: nat)
    requires i < k < |calls| && forall m :: 0 < m < |calls| ==> calls[m - 1] < calls[m]
    ensures calls[i] < calls[k]
  {
    if i < k - 1 {
      Increasing(calls, i, k - 1);
    }
  }

  /** Synchronised copies of bonnie++ get through without a refused decrement exactly when they do one round: with
      `-x 2` or more the used-up semaphores make some process fail. */
  lemma SynchronisedRounds(n: nat, fast: bool, files: bool, directories: bool, rounds: nat)
    requires n >= 1 && (files || directories)
    ensures NeverFails(Config(n, TEST_COUNT, Repeated(Plan(fast, files, directories), rounds))) <==> rounds <= 1
  {
    var plan := Plan(fast, files, directories);
    var c := Config(n, TEST_COUNT, Repeated(plan, rounds));
    PlanUsesEachSemaphoreOnce(fast, files, directories);
    RepeatedFrom(plan, rounds);
    NeverFailsExactly(c);
    if rounds == 1 {
      assert Repeated(plan, 0) == [];
      assert c.calls == plan;
    } else if rounds >= 2 {
      assert Repeated(plan, rounds - 1) == plan + Repeated(plan, rounds - 2);
      assert c.calls == plan + (plan + Repeated(plan, rounds - 2));
      assert |plan| > 0;
      assert c.calls[0] == c.calls[|plan|];
    }
  }

  /** Alone, and with the same semaphore twice: the process passes the first barrier and fails at the second. */
  lemma SecondUseFails()
    ensures var c, run := Config(1, TEST_COUNT, [0, 0]), [Enter(0), Leave(0), Enter(0)];
            Executable(c, Init(c), run) && After(c, Init(c), run).processes == [Process(1, false, true)]
  {
  }

  lemma {:induction false} RepeatedFrom(plan: seq<nat>, rounds: nat)
    requires forall i :: 0 <= i < |plan| ==> plan[i] < TEST_COUNT
    ensures forall i :: 0 <= i < |Repeated(plan, rounds)| ==> Repeated(plan, rounds)[i] < TEST_COUNT
  {
    if rounds > 0 {
      RepeatedFrom(plan, rounds - 1);
    }
  }
}

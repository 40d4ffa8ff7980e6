/** bonnie++'s seek test: the parent writes one ticket per seek and one zero ticket per child down a pipe that all
    children read, and collects one report from each child.  A step is one operation of one process; the parent's
    write may be split anywhere. */
module Tickets {
  import opened Pigeonhole
  import opened Timers

  /** `seeks` tickets with value 1 (here `true`), then `procs` tickets with value 0. The two pipes have room for so many
      tickets and reports; whoever writes to a full pipe waits. */
  datatype Config = Config(seeks: nat, procs: nat, ticketRoom: nat, reportRoom: nat)

  predicate ValidConfig(c: Config) {
    c.procs >= 1 && c.ticketRoom >= 1 && c.reportRoom >= 1
  }

  /** Where a child is: blocked in `Read`, in `doseek`, about to write its report, about to exit, gone. */
  datatype Place = Reading | Seeking | Reporting | Exiting | Exited

  datatype Child = Child(place: Place, seeks: nat, zeros: nat)

  /** The parent writes tickets, then for each child reads a report and waits for an exit. */
  datatype Parent = Writing | AwaitReport | AwaitExit | Finished

  datatype State = State(parent: Parent, unwritten: seq<bool>, pipe: seq<bool>, children: seq<Child>,
                         feedback: seq<nat>, collected: seq<nat>, reaped: nat)

  datatype Step =
    | WriteTickets(k: nat) | WriteDone | TakeTicket(child: nat) | Seek(child: nat)
    | SendReport(child: nat) | Exit(child: nat) | ReadReport | ReapChild

  function TicketsFrom(c: Config, taken: nat): seq<bool>
    requires taken <= c.seeks + c.procs
  {
    seq(c.seeks + c.procs - taken, i => taken + i < c.seeks)
  }

  function Init(c: Config): State {
    State(Writing, TicketsFrom(c, 0), [], seq(c.procs, _ => Child(Reading, 0, 0)), [], [], 0)
  }

  /** How many children are at a place. */
  function CountAt(children: seq<Child>, place: Place): nat {
    if children == [] then 0
    else (if children[0].place == place then 1 else 0) + CountAt(children[1..], place)
  }

  predicate ChildAt(s: State, child: nat, place: Place) {
    child < |s.children| && s.children[child].place == place
  }

  predicate Enabled(c: Config, s: State, step: Step) {
    match step
    case WriteTickets(k) => s.parent == Writing && 1 <= k <= |s.unwritten| && |s.pipe| + k <= c.ticketRoom
    case WriteDone => s.parent == Writing && s.unwritten == []
    case TakeTicket(child) => ChildAt(s, child, Reading) && s.pipe != []
    case Seek(child) => ChildAt(s, child, Seeking)
    case SendReport(child) => ChildAt(s, child, Reporting) && |s.feedback| < c.reportRoom
    case Exit(child) => ChildAt(s, child, Exiting)
    case ReadReport => s.parent == AwaitReport && s.feedback != []
    case ReapChild => s.parent == AwaitExit && s.reaped < CountAt(s.children, Exited)
  }

  function AfterReports(c: Config, got: nat): Parent {
    if got < c.procs then AwaitReport else Finished
  }

  function Apply(c: Config, s: State, step: Step): State
    requires Enabled(c, s, step)
  {
    match step
    case WriteTickets(k) => s.(unwritten := s.unwritten[k..], pipe := s.pipe + s.unwritten[..k])
    case WriteDone => s.(parent := AfterReports(c, 0))
    case TakeTicket(i) =>
      var child := s.children[i];
      s.(pipe := s.pipe[1..],
         children := s.children[i := if s.pipe[0] then child.(place := Seeking)
                                     else child.(place := Reporting, zeros := child.zeros + 1)])
    case Seek(i) =>
      s.(children := s.children[i := s.children[i].(place := Reading, seeks := s.children[i].seeks + 1)])
    case SendReport(i) =>
      s.(children := s.children[i := s.children[i].(place := Exiting)], feedback := s.feedback + [i])
    case Exit(i) => s.(children := s.children[i := s.children[i].(place := Exited)])
    case ReadReport =>
      s.(parent := AwaitExit, feedback := s.feedback[1..], collected := s.collected + [s.feedback[0]])
    case ReapChild => s.(parent := AfterReports(c, |s.collected|), reaped := s.reaped + 1)
  }

  predicate Executable(c: Config, s: State, run: seq<Step>)
    decreases |run|
  {
    run == [] || (Enabled(c, s, run[0]) && Executable(c, Apply(c, s, run[0]), run[1..]))
  }

  function After(c: Config, s: State, run: seq<Step>): State
    requires Executable(c, s, run)
    decreases |run|
  {
    if run == [] then s else After(c, Apply(c, s, run[0]), run[1..])
  }

  // ----- counting over the children -----

  function Worth(child: Child): nat {
    child.seeks + if child.place == Seeking then 1 else 0
  }

  /** Seeks done or under way. */
  function TotalSeeks(children: seq<Child>): nat {
    if children == [] then 0 else Worth(children[0]) + TotalSeeks(children[1..])
  }

  predicate Active(child: Child) {
    child.place == Reading || child.place == Seeking
  }

  /** Children that have not yet taken a zero ticket. */
  function CountActive(children: seq<Child>): nat {
    if children == [] then 0 else (if Active(children[0]) then 1 else 0) + CountActive(children[1..])
  }

  lemma {:induction false} TotalsUpdate(children: seq<Child>, i: nat, child: Child)
    requires i < |children|
    ensures TotalSeeks(children[i := child]) + Worth(children[i]) == TotalSeeks(children) + Worth(child)
    ensures CountActive(children[i := child]) + (if Active(children[i]) then 1 else 0)
         == CountActive(children) + (if Active(child) then 1 else 0)
    ensures CountAt(children[i := child], Exited) + (if children[i].place == Exited then 1 else 0)
         == CountAt(children, Exited) + (if child.place == Exited then 1 else 0)
  {
    var updated := children[i := child];
    if i == 0 {
      assert updated[1..] == children[1..];
    } else {
      assert updated[1..] == children[1..][i - 1 := child];
      TotalsUpdate(children[1..], i - 1, child);
    }
  }

  lemma {:induction false} TotalsAtStart(n: nat)
    ensures var children := seq(n, _ => Child(Reading, 0, 0));
            TotalSeeks(children) == 0 && CountActive(children) == n && CountAt(children, Exited) == 0
  {
    if n > 0 {
      assert seq(n, _ => Child(Reading, 0, 0))[1..] == seq(n - 1, _ => Child(Reading, 0, 0));
      TotalsAtStart(n - 1);
    }
  }

  lemma {:induction false} SomeActive(children: seq<Child>) returns (i: nat)
    requires CountActive(children) > 0
    ensures i < |children| && Active(children[i])
  {
    if Active(children[0]) {
      i := 0;
    } else {
      i := SomeActive(children[1..]);
      i := i + 1;
    }
  }

  // ----- invariant -----

  function Taken(c: Config, s: State): int {
    c.seeks + c.procs - |s.pipe| - |s.unwritten|
  }

  /** The pipe is a queue of the tickets in order; every 1 taken is a seek, every 0 taken retires a child. */
  predicate TicketInv(c: Config, s: State) {
    && |s.children| == c.procs
    && 0 <= Taken(c, s)
    && s.pipe + s.unwritten == TicketsFrom(c, Taken(c, s))
    && TotalSeeks(s.children) == (if Taken(c, s) < c.seeks then Taken(c, s) else c.seeks)
    && CountActive(s.children) == (if Taken(c, s) < c.seeks then c.procs else c.procs - (Taken(c, s) - c.seeks))
    && (forall i :: 0 <= i < c.procs ==> s.children[i].zeros == if Active(s.children[i]) then 0 else 1)
  }

  predicate Reported(child: Child) {
    child.place == Exiting || child.place == Exited
  }

  /** The reports in the feedback pipe and the collected ones are those of the children past their report, once each. */
  predicate ReportInv(c: Config, s: State) {
    var ids := s.collected + s.feedback;
    && |s.children| == c.procs
    && Distinct(ids)
    && (forall i :: 0 <= i < |ids| ==> ids[i] < c.procs)
    && (forall i :: 0 <= i < c.procs ==> (i in ids <==> Reported(s.children[i])))
  }

  predicate ParentInv(c: Config, s: State) {
    && s.reaped <= CountAt(s.children, Exited) <= |s.children| == c.procs
    && (match s.parent
        case Writing => s.collected == [] && s.reaped == 0
        case AwaitReport => s.unwritten == [] && s.reaped == |s.collected| < c.procs
        case AwaitExit => s.unwritten == [] && s.reaped + 1 == |s.collected| <= c.procs
        case Finished => s.unwritten == [] && s.reaped == |s.collected| == c.procs)
  }

  predicate Inv(c: Config, s: State) {
    TicketInv(c, s) && ReportInv(c, s) && ParentInv(c, s)
  }

  lemma InitInv(c: Config)
    requires ValidConfig(c)
    ensures Inv(c, Init(c))
  {
    TotalsAtStart(c.procs);
    assert Init(c).pipe + Init(c).unwritten == TicketsFrom(c, 0);
  }

  lemma StepKeepsTickets(c: Config, s: State, step: Step)
    requires TicketInv(c, s) && Enabled(c, s, step)
    ensures TicketInv(c, Apply(c, s, step))
  {
    var s' := Apply(c, s, step);
    match step
    case WriteTickets(k) =>
      assert s'.pipe + s'.unwritten == s.pipe + s.unwritten;
    case TakeTicket(i) =>
      TakeKeepsTickets(c, s, i);
    case Seek(i) =>
      MoveKeepsTickets(c, s, s', i);
    case SendReport(i) =>
      MoveKeepsTickets(c, s, s', i);
    case Exit(i) =>
      MoveKeepsTickets(c, s, s', i);
    case _ =>
  }

  lemma TakeKeepsTickets(c: Config, s: State, i: nat)
    requires TicketInv(c, s) && Enabled(c, s, TakeTicket(i))
    ensures TicketInv(c, Apply(c, s, TakeTicket(i)))
  {
    var s' := Apply(c, s, TakeTicket(i));
    TotalsUpdate(s.children, i, s'.children[i]);
    var t := Taken(c, s);
    assert s.pipe[0] == (s.pipe + s.unwritten)[0] == TicketsFrom(c, t)[0] == (t < c.seeks);
    assert s'.pipe + s'.unwritten == (s.pipe + s.unwritten)[1..] == TicketsFrom(c, t)[1..] == TicketsFrom(c, t + 1);
  }

  /** A child that goes on without taking a ticket. */
  lemma MoveKeepsTickets(c: Config, s: State, s': State, i: nat)
    requires TicketInv(c, s) && i < |s.children| && |s'.children| == |s.children|
    requires s'.children == s.children[i := s'.children[i]] && s'.pipe == s.pipe && s'.unwritten == s.unwritten
    requires Worth(s'.children[i]) == Worth(s.children[i]) && Active(s'.children[i]) == Active(s.children[i])
    requires s'.children[i].zeros == s.children[i].zeros
    ensures TicketInv(c, s')
  {
    TotalsUpdate(s.children, i, s'.children[i]);
  }

  lemma StepKeepsReports(c: Config, s: State, step: Step)
    requires ReportInv(c, s) && Enabled(c, s, step)
    ensures ReportInv(c, Apply(c, s, step))
  {
    var s' := Apply(c, s, step);
    var ids, ids' := s.collected + s.feedback, s'.collected + s'.feedback;
    match step
    case SendReport(i) =>
      assert ids' == ids + [i];
      assert i !in ids;
    case ReadReport =>
      assert ids' == ids;
    case _ =>
      assert ids' == ids;
  }

  lemma {:induction false} CountAtMost(children: seq<Child>)
    ensures CountAt(children, Exited) <= |children|
  {
    if children != [] {
      CountAtMost(children[1..]);
    }
  }

  predicate IsChildStep(step: Step) {
    step.TakeTicket? || step.Seek? || step.SendReport? || step.Exit?
  }

  lemma StepKeepsParent(c: Config, s: State, step: Step)
    requires Inv(c, s) && Enabled(c, s, step)
    ensures ParentInv(c, Apply(c, s, step))
  {
    if IsChildStep(step) {
      ChildStepKeepsParent(c, s, step);
    } else {
      DistinctBelow(s.collected + s.feedback, c.procs);
    }
  }

  lemma ChildStepKeepsParent(c: Config, s: State, step: Step)
    requires ParentInv(c, s) && Enabled(c, s, step) && IsChildStep(step)
    ensures ParentInv(c, Apply(c, s, step))
  {
    var s' := Apply(c, s, step);
    CountAtMost(s'.children);
    TotalsUpdate(s.children, step.child, s'.children[step.child]);
  }

  lemma {:induction false} RunKeepsInv(c: Config, s: State, run: seq<Step>)
    requires Inv(c, s) && Executable(c, s, run)
    ensures Inv(c, After(c, s, run))
    decreases |run|
  {
    if run != [] {
      StepKeepsTickets(c, s, run[0]);
      StepKeepsReports(c, s, run[0]);
      StepKeepsParent(c, s, run[0]);
      RunKeepsInv(c, Apply(c, s, run[0]), run[1..]);
    }
  }

  lemma ReachableInv(c: Config, run: seq<Step>)
    requires ValidConfig(c) && Executable(c, Init(c), run)
    ensures Inv(c, After(c, Init(c), run))
  {
    InitInv(c);
    RunKeepsInv(c, Init(c), run);
  }

  // ----- main results -----

  predicate AllDone(s: State) {
    && s.parent == Finished && s.pipe == [] && s.unwritten == [] && s.feedback == []
    && forall i :: 0 <= i < |s.children| ==> s.children[i].place == Exited
  }

  ghost predicate CanStep(c: Config, s: State) {
    exists step :: Enabled(c, s, step)
  }

  /** In every run there is a zero ticket left for each child that still needs one, and no seek is done twice. */
  lemma OneZeroTicketPerChild(c: Config, run: seq<Step>)
    requires ValidConfig(c) && Executable(c, Init(c), run)
    ensures var s := After(c, Init(c), run);
            && TotalSeeks(s.children) <= c.seeks
            && CountActive(s.children) <= |s.pipe| + |s.unwritten|
            && forall i :: 0 <= i < |s.children| ==> s.children[i].zeros <= 1
  {
    ReachableInv(c, run);
  }

  lemma {:induction false} NoneActive(children: seq<Child>)
    requires CountActive(children) == 0
    ensures forall i :: 0 <= i < |children| ==> !Active(children[i])
  {
    if children != [] {
      NoneActive(children[1..]);
    }
  }

  /** As many children have exited as there are different ones among `ids`. */
  lemma {:induction false} ExitedAtLeast(children: seq<Child>, ids: seq<nat>)
    requires Distinct(ids) && forall i :: 0 <= i < |ids| ==> ids[i] < |children| && children[ids[i]].place == Exited
    ensures |ids| <= CountAt(children, Exited)
    decreases |ids|
  {
    if ids != [] {
      var front, last := ids[..|ids| - 1], ids[|ids| - 1];
      var before := children[last].(place := Exiting);
      TotalsUpdate(children, last, before);
      ExitedAtLeast(children[last := before], front);
    }
  }

  /** While tickets are left some child still needs one. */
  lemma TicketsAreNeeded(c: Config, s: State)
    requires ValidConfig(c) && TicketInv(c, s)
    ensures s.pipe + s.unwritten != [] <==> CountActive(s.children) > 0
  {
    assert |s.pipe + s.unwritten| == |s.pipe| + |s.unwritten|;
  }

  /** When all children have reported or wait to report, and no ticket is left, one of them or the parent can go on. */
  lemma ReportsMove(c: Config, s: State)
    requires ValidConfig(c) && Inv(c, s) && s.unwritten == [] && s.parent != Writing && !AllDone(s) && s.pipe == []
    requires forall i :: 0 <= i < c.procs ==> s.children[i].place == Reporting || s.children[i].place == Exited
    ensures CanStep(c, s)
  {
    var ids := s.collected + s.feedback;
    DistinctBelow(ids, c.procs);
    forall i | 0 <= i < |ids| ensures s.children[ids[i]].place == Exited {
      assert ids[i] in ids;
    }
    if s.parent == AwaitExit {
      assert forall i :: 0 <= i < |s.collected| ==> s.collected[i] == ids[i];
      ExitedAtLeast(s.children, s.collected);
      assert Enabled(c, s, ReapChild);
    } else if i :| 0 <= i < c.procs && s.children[i].place == Reporting {
      assert i !in ids;
      assert Enabled(c, s, if s.feedback == [] then SendReport(i) else ReadReport);
    } else {
      EveryoneReported(c, s);
      assert Enabled(c, s, ReadReport);
    }
  }

  /** No process blocks forever, however little the pipes hold: something can always move until everything is done. */
  lemma NeverStuck(c: Config, run: seq<Step>)
    requires ValidConfig(c) && Executable(c, Init(c), run)
    ensures AllDone(After(c, Init(c), run)) <==> !CanStep(c, After(c, Init(c), run))
  {
    ReachableInv(c, run);
    var s := After(c, Init(c), run);
    TicketsAreNeeded(c, s);
    if AllDone(s) {
    } else if i :| 0 <= i < c.procs && (s.children[i].place == Seeking || s.children[i].place == Exiting) {
      assert Enabled(c, s, if s.children[i].place == Seeking then Seek(i) else Exit(i));
    } else if s.pipe != [] {
      var i := SomeActive(s.children);
      assert Enabled(c, s, TakeTicket(i));
    } else if s.unwritten != [] {
      assert Enabled(c, s, WriteTickets(1));
    } else if s.parent == Writing {
      assert Enabled(c, s, WriteDone);
    } else {
      NoneActive(s.children);
      ReportsMove(c, s);
    }
  }

  lemma EveryoneReported(c: Config, s: State)
    requires ReportInv(c, s) && forall i :: 0 <= i < |s.children| ==> s.children[i].place == Exited
    ensures |s.collected| + |s.feedback| == c.procs
  {
    DistinctBelow(s.collected + s.feedback, c.procs);
  }

  /** When it is over: exactly `seeks` seeks in total, one zero ticket per child, no ticket left, and the parent has
      exactly one report of each child. */
  lemma Accounting(c: Config, run: seq<Step>)
    requires ValidConfig(c) && Executable(c, Init(c), run) && AllDone(After(c, Init(c), run))
    ensures var s := After(c, Init(c), run);
            && |s.children| == |s.collected| == c.procs
            && TotalSeeks(s.children) == c.seeks
            && (forall i :: 0 <= i < c.procs ==> s.children[i].zeros == 1)
            && Distinct(s.collected)
            && (forall i: nat :: i in s.collected <==> i < c.procs)
  {
    ReachableInv(c, run);
    var s := After(c, Init(c), run);
    assert s.collected + s.feedback == s.collected;
    DistinctBelow(s.collected, c.procs);
  }

  // ----- termination -----

  function ChildWork(child: Child): nat {
    match child.place
    case Reading => 0
    case Seeking => 1
    case Reporting => 2
    case Exiting => 1
    case Exited => 0
  }

  function ChildrenWork(children: seq<Child>): nat {
    if children == [] then 0 else ChildWork(children[0]) + ChildrenWork(children[1..])
  }

  lemma {:induction false} WorkUpdate(children: seq<Child>, i: nat, child: Child)
    requires i < |children|
    ensures ChildrenWork(children[i := child]) + ChildWork(children[i]) == ChildrenWork(children) + ChildWork(child)
  {
    var updated := children[i := child];
    if i == 0 {
      assert updated[1..] == children[1..];
    } else {
      assert updated[1..] == children[1..][i - 1 := child];
      WorkUpdate(children[1..], i - 1, child);
    }
  }

  lemma {:induction false} NoWorkAtStart(n: nat)
    ensures ChildrenWork(seq(n, _ => Child(Reading, 0, 0))) == 0
  {
    if n > 0 {
      assert seq(n, _ => Child(Reading, 0, 0))[1..] == seq(n - 1, _ => Child(Reading, 0, 0));
      NoWorkAtStart(n - 1);
    }
  }

  function Rank(c: Config, s: State): int {
    4 * |s.unwritten| + 3 * |s.pipe| + ChildrenWork(s.children)
    + match s.parent
      case Writing => 2 * c.procs + 1
      case AwaitReport => 2 * (c.procs - |s.collected|)
      case AwaitExit => 2 * (c.procs - |s.collected|) + 1
      case Finished => 0
  }

  lemma StepLowersRank(c: Config, s: State, step: Step)
    requires Inv(c, s) && Enabled(c, s, step)
    ensures 0 <= Rank(c, Apply(c, s, step)) < Rank(c, s)
  {
    StepKeepsParent(c, s, step);
    if IsChildStep(step) {
      ChildStepLowersRank(c, s, step);
    }
  }

  lemma ChildStepLowersRank(c: Config, s: State, step: Step)
    requires ParentInv(c, s) && Enabled(c, s, step) && IsChildStep(step)
    ensures 0 <= Rank(c, Apply(c, s, step)) < Rank(c, s)
  {
    var s' := Apply(c, s, step);
    WorkUpdate(s.children, step.child, s'.children[step.child]);
  }

  lemma {:induction false} RunLowersRank(c: Config, s: State, run: seq<Step>)
    requires Inv(c, s) && Executable(c, s, run)
    ensures |run| + Rank(c, After(c, s, run)) <= Rank(c, s) && Rank(c, After(c, s, run)) >= 0
    decreases |run|
  {
    if run != [] {
      StepLowersRank(c, s, run[0]);
      StepKeepsTickets(c, s, run[0]);
      StepKeepsReports(c, s, run[0]);
      StepKeepsParent(c, s, run[0]);
      RunLowersRank(c, Apply(c, s, run[0]), run[1..]);
    }
  }

  /** Every run is finite, whatever the interleaving. */
  lemma SeekTestEnds(c: Config, run: seq<Step>)
    requires ValidConfig(c) && Executable(c, Init(c), run)
    ensures |run| <= 4 * (c.seeks + c.procs) + 2 * c.procs + 1
  {
    InitInv(c);
    RunLowersRank(c, Init(c), run);
    NoWorkAtStart(c.procs);
  }

  /** The report of each child, in the order in which the parent collected them. */
  function Arrived(collected: seq<nat>, reports: seq<Report>): seq<Report>
    requires forall i :: 0 <= i < |collected| ==> collected[i] < |reports|
  {
    seq(|collected|, i requires 0 <= i < |collected| => reports[collected[i]])
  }

  /** The reported elapsed time of the whole test is the time from the first start to the last stop, in every
      interleaving, when every child used some CPU time. */
  lemma SeekTestElapsed(c: Config, run: seq<Step>, reports: seq<Report>, d: Delta)
    requires ValidConfig(c) && Executable(c, Init(c), run) && AllDone(After(c, Init(c), run))
    requires |reports| == c.procs && d.cpu == 0.0
    requires forall r :: r in reports ==> r.cpu > 0.0
    ensures var collected := After(c, Init(c), run).collected;
            && (forall i :: 0 <= i < |collected| ==> collected[i] < |reports|)
            && MergeAll(d, Arrived(collected, reports)).elapsed == Span(reports)
  {
    Accounting(c, run);
    var collected := After(c, Init(c), run).collected;
    forall i | 0 <= i < |collected| ensures collected[i] < |reports| {
      assert collected[i] in collected;
    }
    var arrived := Arrived(collected, reports);
    forall r | r in arrived ensures r in reports {
      var i :| 0 <= i < |arrived| && arrived[i] == r;
    }
    forall r | r in reports ensures r in arrived {
      var k :| 0 <= k < |reports| && reports[k] == r;
      assert k in collected;
      var i :| 0 <= i < |collected| && collected[i] == k;
      assert arrived[i] == r;
    }
    ElapsedInAnyOrder(d, reports, arrived);
  }
}

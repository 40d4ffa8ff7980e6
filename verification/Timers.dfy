/** bonnie++'s `BonTimer`: merging the reports of the seek processes into one result. */
module Timers {
  import opened Arithmetic
  import opened TestNumbers

  datatype Report = Report(cpu: real, start: real, end: real)

  datatype Delta = Delta(cpu: real, elapsed: real, firstStart: real, lastStop: real)

  /** add_delta_report on one entry: CPU 0.0 stands for "no report yet". */
  function Merge(d: Delta, r: Report): Delta {
    var first := if d.cpu == 0.0 then r.start else Min(d.firstStart, r.start);
    var last := if d.cpu == 0.0 then r.end else Max(d.lastStop, r.end);
    Delta(d.cpu + r.cpu, last - first, first, last)
  }

  class BonTimer {
    var delta: array<Delta>

    constructor ()
      ensures fresh(delta) && delta.Length == TEST_COUNT
      ensures forall t :: 0 <= t < TEST_COUNT ==> delta[t].cpu == 0.0 && delta[t].elapsed == 0.0
    {
      delta := new Delta[TEST_COUNT](_ => Delta(0.0, 0.0, 0.0, 0.0));
    }

    /** Initialize: only CPU and Elapsed are reset. */
    method Initialize()
      modifies delta
      ensures forall t :: 0 <= t < delta.Length ==> delta[t] == old(delta[t]).(cpu := 0.0, elapsed := 0.0)
    {
      for i := 0 to delta.Length
        invariant forall t :: 0 <= t < i ==> delta[t] == old(delta[t]).(cpu := 0.0, elapsed := 0.0)
        invariant forall t :: i <= t < delta.Length ==> delta[t] == old(delta[t])
      {
        delta[i] := delta[i].(cpu := 0.0, elapsed := 0.0);
      }
    }

    method AddDeltaReport(rep: Report, test: nat)
      requires test < delta.Length
      modifies delta
      ensures delta[..] == old(delta[..])[test := Merge(old(delta[test]), rep)]
    {
      var d := delta[test];
      if d.cpu == 0.0 {
        d := d.(firstStart := rep.start, lastStop := rep.end);
      } else {
        d := d.(firstStart := Min(d.firstStart, rep.start), lastStop := Max(d.lastStop, rep.end));
      }
      d := d.(cpu := d.cpu + rep.cpu);
      delta[test] := d.(elapsed := d.lastStop - d.firstStart);
    }

    /** The parent's loop of seek_test: one report after another, in the order of arrival. */
    method AddAll(reports: seq<Report>, test: nat)
      requires test < delta.Length
      modifies delta
      ensures delta[..] == old(delta[..])[test := MergeAll(old(delta[test]), reports)]
    {
      for i := 0 to |reports|
        invariant delta[..] == old(delta[..])[test := MergeAll(old(delta[test]), reports[..i])]
      {
        assert reports[..i + 1][..i] == reports[..i];
        AddDeltaReport(reports[i], test);
      }
      assert reports[..|reports|] == reports;
    }
  }

  function MergeAll(d: Delta, reports: seq<Report>): Delta {
    if reports == [] then d else Merge(MergeAll(d, reports[..|reports| - 1]), reports[|reports| - 1])
  }

  function MinStart(reports: seq<Report>): real
    requires reports != []
  {
    if |reports| == 1 then reports[0].start
    else Min(MinStart(reports[..|reports| - 1]), reports[|reports| - 1].start)
  }

  function MaxEnd(reports: seq<Report>): real
    requires reports != []
  {
    if |reports| == 1 then reports[0].end
    else Max(MaxEnd(reports[..|reports| - 1]), reports[|reports| - 1].end)
  }

  /** The time from the first start to the last stop. */
  function Span(reports: seq<Report>): real
    requires reports != []
  {
    MaxEnd(reports) - MinStart(reports)
  }

  lemma {:induction false} MinStartIsLeast(reports: seq<Report>)
    requires reports != []
    ensures forall r :: r in reports ==> MinStart(reports) <= r.start
    ensures exists r :: r in reports && r.start == MinStart(reports)
  {
    var last := reports[|reports| - 1];
    assert last in reports;
    if |reports| > 1 {
      var front := reports[..|reports| - 1];
      MinStartIsLeast(front);
      assert reports == front + [last];
      var r :| r in front && r.start == MinStart(front);
      assert r in reports;
    }
  }

  lemma {:induction false} MaxEndIsGreatest(reports: seq<Report>)
    requires reports != []
    ensures forall r :: r in reports ==> r.end <= MaxEnd(reports)
    ensures exists r :: r in reports && r.end == MaxEnd(reports)
  {
    var last := reports[|reports| - 1];
    assert last in reports;
    if |reports| > 1 {
      var front := reports[..|reports| - 1];
      MaxEndIsGreatest(front);
      assert reports == front + [last];
      var r :| r in front && r.end == MaxEnd(front);
      assert r in reports;
    }
  }

  /** CPU times are never negative. */
  predicate NonNegative(reports: seq<Report>) {
    forall i :: 0 <= i < |reports| ==> reports[i].cpu >= 0.0
  }

  /** How many reports are forgotten: as long as the CPU sum is 0.0, each report overwrites the ones before it. */
  function Forgotten(reports: seq<Report>): (z: nat)
    ensures z <= |reports| && (reports != [] ==> z < |reports|)
    ensures forall i :: 0 <= i < z ==> reports[i].cpu == 0.0
  {
    if |reports| <= 1 || reports[0].cpu != 0.0 then 0 else 1 + Forgotten(reports[1..])
  }

  predicate AllIdle(reports: seq<Report>) {
    forall i :: 0 <= i < |reports| ==> reports[i].cpu == 0.0
  }

  lemma {:induction false} CpuSum(d: Delta, reports: seq<Report>)
    requires NonNegative(reports) && d.cpu == 0.0
    ensures MergeAll(d, reports).cpu >= 0.0
    ensures MergeAll(d, reports).cpu == 0.0 <==> AllIdle(reports)
  {
    if reports != [] {
      CpuSum(d, reports[..|reports| - 1]);
      if AllIdle(reports[..|reports| - 1]) && reports[|reports| - 1].cpu == 0.0 {
        forall i | 0 <= i < |reports| ensures reports[i].cpu == 0.0 {
          if i < |reports| - 1 {
            assert reports[..|reports| - 1][i].cpu == 0.0;
          }
        }
      }
    }
  }

  lemma SpanAppend(front: seq<Report>, last: Report, z: nat)
    requires z < |front|
    ensures MinStart((front + [last])[z..]) == Min(MinStart(front[z..]), last.start)
    ensures MaxEnd((front + [last])[z..]) == Max(MaxEnd(front[z..]), last.end)
  {
    var kept := (front + [last])[z..];
    assert kept[..|kept| - 1] == front[z..] && kept[|kept| - 1] == last;
  }

  /** What the merge computes in general: the span of the reports that were not forgotten. */
  lemma {:induction false} MergeKeepsTail(d: Delta, reports: seq<Report>)
    requires reports != [] && NonNegative(reports) && d.cpu == 0.0
    ensures var m, kept := MergeAll(d, reports), reports[Forgotten(reports)..];
            m.firstStart == MinStart(kept) && m.lastStop == MaxEnd(kept) && m.elapsed == Span(kept)
  {
    var front, last := reports[..|reports| - 1], reports[|reports| - 1];
    var m := MergeAll(d, front);
    if front == [] {
      assert reports[Forgotten(reports)..] == reports;
    } else {
      assert reports == front + [last];
      ForgottenAppend(front, last);
      CpuSum(d, front);
      if AllIdle(front) {
        assert reports[Forgotten(reports)..] == [last];
      } else {
        MergeKeepsTail(d, front);
        SpanAppend(front, last, Forgotten(front));
      }
    }
  }

  lemma {:induction false} ForgottenAppend(front: seq<Report>, last: Report)
    requires front != []
    ensures Forgotten(front + [last])
         == if AllIdle(front) then |front| else Forgotten(front)
  {
    var all := front + [last];
    if |front| == 1 {
      assert all[1..] == [last];
    } else if front[0].cpu == 0.0 {
      assert all[1..] == front[1..] + [last];
      ForgottenAppend(front[1..], last);
      if AllIdle(front[1..]) {
        forall i | 0 <= i < |front| ensures front[i].cpu == 0.0 {
          if i > 0 {
            assert front[i] == front[1..][i - 1];
          }
        }
      } else {
        var i :| 0 <= i < |front[1..]| && front[1..][i].cpu != 0.0;
        assert front[i + 1].cpu != 0.0;
      }
    }
  }

  lemma SpanOfTail(reports: seq<Report>, z: nat)
    requires z < |reports|
    ensures MinStart(reports) <= MinStart(reports[z..]) && MaxEnd(reports[z..]) <= MaxEnd(reports)
    ensures Span(reports[z..]) == Span(reports) <==>
            forall i :: 0 <= i < z ==> MinStart(reports[z..]) <= reports[i].start && reports[i].end <= MaxEnd(reports[z..])
  {
    var kept := reports[z..];
    MinStartIsLeast(reports);
    MinStartIsLeast(kept);
    MaxEndIsGreatest(reports);
    MaxEndIsGreatest(kept);
    if forall i :: 0 <= i < z ==> MinStart(kept) <= reports[i].start && reports[i].end <= MaxEnd(kept) {
      WithinTail(reports, z, MinStart(kept), MaxEnd(kept));
    } else if Span(kept) == Span(reports) {
      forall i | 0 <= i < z ensures MinStart(kept) <= reports[i].start && reports[i].end <= MaxEnd(kept) {
        assert reports[i] in reports;
      }
    }
  }

  lemma WithinTail(reports: seq<Report>, z: nat, first: real, last: real)
    requires z <= |reports|
    requires forall i :: 0 <= i < z ==> first <= reports[i].start && reports[i].end <= last
    requires forall r :: r in reports[z..] ==> first <= r.start && r.end <= last
    ensures forall r :: r in reports ==> first <= r.start && r.end <= last
  {
    forall r | r in reports ensures first <= r.start && r.end <= last {
      var i :| 0 <= i < |reports| && reports[i] == r;
      if i >= z {
        assert r == reports[z..][i - z];
      }
    }
  }

  /** The merged Elapsed is the time from the first start to the last stop exactly when every forgotten report - one
      with CPU 0.0 that arrived while the sum was still 0.0 - lies inside the span of the others. */
  lemma ElapsedExactly(d: Delta, reports: seq<Report>)
    requires reports != [] && NonNegative(reports) && d.cpu == 0.0
    ensures var kept := reports[Forgotten(reports)..];
            MergeAll(d, reports).elapsed == Span(reports) <==>
            forall i :: 0 <= i < Forgotten(reports) ==>
              MinStart(kept) <= reports[i].start && reports[i].end <= MaxEnd(kept)
  {
    MergeKeepsTail(d, reports);
    SpanOfTail(reports, Forgotten(reports));
  }

  /** A concrete loss: the first process needs no measurable CPU time and its early start is forgotten. */
  lemma ZeroCpuReportIsLost(d: Delta)
    requires d.cpu == 0.0
    ensures var reports := [Report(0.0, 1.0, 2.0), Report(0.5, 5.0, 9.0)];
            MergeAll(d, reports).elapsed == 4.0 && Span(reports) == 8.0
  {
    var reports := [Report(0.0, 1.0, 2.0), Report(0.5, 5.0, 9.0)];
    assert reports[..1] == [reports[0]] && reports[..1][..0] == [];
    assert MergeAll(d, reports[..1]) == Merge(d, reports[0]);
    assert MinStart(reports[..1]) == 1.0 && MaxEnd(reports[..1]) == 2.0;
  }

  predicate SameReports(a: seq<Report>, b: seq<Report>) {
    (forall r :: r in a ==> r in b) && (forall r :: r in b ==> r in a)
  }

  /** When every report has used CPU time, the result does not depend on the order of arrival. */
  lemma ElapsedInAnyOrder(d: Delta, reports: seq<Report>, arrived: seq<Report>)
    requires reports != [] && arrived != [] && d.cpu == 0.0 && SameReports(arrived, reports)
    requires forall r :: r in reports ==> r.cpu > 0.0
    ensures MergeAll(d, arrived).elapsed == Span(reports)
  {
    forall i | 0 <= i < |arrived| ensures arrived[i].cpu > 0.0 {
      assert arrived[i] in reports;
    }
    ElapsedExactly(d, arrived);
    assert Forgotten(arrived) == 0 by {
      assert arrived[0].cpu > 0.0;
    }
    MinStartIsLeast(reports);
    MinStartIsLeast(arrived);
    MaxEndIsGreatest(reports);
    MaxEndIsGreatest(arrived);
  }

  /** The CPU times of all reports together. */
  function TotalCpu(reports: seq<Report>): real {
    if reports == [] then 0.0 else reports[0].cpu + TotalCpu(reports[1..])
  }

  lemma {:induction false} TotalCpuAdds(a: seq<Report>, b: seq<Report>)
    ensures TotalCpu(a + b) == TotalCpu(a) + TotalCpu(b)
  {
    if a == [] {
      assert a + b == b;
    } else {
      assert (a + b)[1..] == a[1..] + b;
      TotalCpuAdds(a[1..], b);
    }
  }

  /** The merged CPU time is the sum of all, forgotten reports included. */
  lemma {:induction false} CpuIsTotal(d: Delta, reports: seq<Report>)
    ensures MergeAll(d, reports).cpu == d.cpu + TotalCpu(reports)
  {
    if reports != [] {
      var front, last := reports[..|reports| - 1], reports[|reports| - 1];
      assert reports == front + [last] && [last][1..] == [];
      CpuIsTotal(d, front);
      TotalCpuAdds(front, [last]);
    }
  }

  /** Three processes with 1, 2 and 4 seconds have used 7. */
  lemma SevenSeconds(d: Delta)
    requires d.cpu == 0.0
    ensures MergeAll(d, [Report(1.0, 0.0, 1.0), Report(2.0, 0.0, 2.0), Report(4.0, 0.0, 4.0)]).cpu == 7.0
  {
    var r1, r2, r3 := Report(1.0, 0.0, 1.0), Report(2.0, 0.0, 2.0), Report(4.0, 0.0, 4.0);
    CpuIsTotal(d, [r1, r2, r3]);
    assert [r1, r2, r3][1..] == [r2, r3] && [r2, r3][1..] == [r3] && [r3][1..] == [];
    assert TotalCpu([r3]) == 4.0 && TotalCpu([r2, r3]) == 6.0;
  }
}

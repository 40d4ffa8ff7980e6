/** netperf's TCP stream test: the send loop, shutdown and flush of `send_tcp_stream` against the receive loop of
    `recv_tcp_stream`, over one byte stream that may hand over any part of what is in flight. */
module StreamTest {
  import opened Arithmetic

  /** The test ends after a number of bytes or when a timer fires. */
  datatype Test = Bytes(n: nat) | Timed

  datatype Config = Config(sendSize: nat, recvSize: nat, test: Test)

  predicate ValidConfig(c: Config) {
    c.sendSize >= 1 && c.recvSize >= 1
  }

  /** Program points of the client: loop guard, about to send, waiting in the flush `recv`, after it. */
  datatype ClientPoint = AtGuard | Sending | Flushing | Done

  datatype Client = Client(pc: ClientPoint, sends: nat, delivered: nat, remaining: int, timesUp: bool)

  datatype Server = Server(done: bool, received: nat, calls: nat)

  datatype State = State(client: Client, server: Server, inFlight: nat, shutDown: bool)

  /** `ClientCut(k)` is a send that the timer, which goes off once, interrupts after k bytes: the loop breaks. */
  datatype Step =
    | ClientTest | ClientSend | ClientCut(k: nat) | ClientTimer | ClientFlushed
    | ServerRecv(k: nat) | ServerEnd

  function Init(c: Config): State {
    State(Client(AtGuard, 0, 0, if c.test.Bytes? then c.test.n else 0, c.test.Bytes?), Server(false, 0, 0), 0, false)
  }

  predicate Enabled(c: Config, s: State, step: Step) {
    match step
    case ClientTest => s.client.pc == AtGuard
    case ClientSend => s.client.pc == Sending
    case ClientCut(k) => c.test.Timed? && !s.client.timesUp && s.client.pc == Sending && k < c.sendSize
    case ClientTimer => c.test.Timed? && !s.client.timesUp && (s.client.pc == AtGuard || s.client.pc == Sending)
    case ClientFlushed => s.client.pc == Flushing && s.server.done
    case ServerRecv(k) => !s.server.done && 1 <= k <= c.recvSize && k <= s.inFlight
    case ServerEnd => !s.server.done && s.inFlight == 0 && s.shutDown
  }

  function Apply(c: Config, s: State, step: Step): State
    requires Enabled(c, s, step)
  {
    var client, server := s.client, s.server;
    match step
    case ClientTest =>
      if !client.timesUp || client.remaining > 0 then s.(client := client.(pc := Sending))
      else s.(client := client.(pc := Flushing), shutDown := true)
    case ClientSend =>
      s.(client := client.(pc := AtGuard, sends := client.sends + 1, delivered := client.delivered + c.sendSize,
                           remaining := if client.remaining != 0 then client.remaining - c.sendSize else 0),
         inFlight := s.inFlight + c.sendSize)
    case ClientCut(k) =>
      s.(client := client.(pc := Flushing, delivered := client.delivered + k, timesUp := true),
         inFlight := s.inFlight + k, shutDown := true)
    case ClientTimer => s.(client := client.(timesUp := true))
    case ClientFlushed => s.(client := client.(pc := Done))
    case ServerRecv(k) =>
      s.(server := server.(received := server.received + k, calls := server.calls + 1), inFlight := s.inFlight - k)
    case ServerEnd => s.(server := server.(done := true))
  }

  predicate Executable(c: Config, s: State, run: seq<Step>)
    decreases |run|
  {
    run == [] || (Enabled(c, s, run[0]) && Executable(c, Apply(c, s, run[0]), run[1..]))
  }

  function After(c: Config, s: State, run: seq<Step>): State
    requires Executable(c, s, run)
    decreases |run|
  {
    if run == [] then s else After(c, Apply(c, s, run[0]), run[1..])
  }

  function CeilDiv(n: nat, d: nat): nat
    requires d >= 1
  {
    (n + d - 1) / d
  }

  /** Sends still to come when `remaining` bytes are left. */
  function SendsLeft(c: Config, remaining: int): nat
    requires ValidConfig(c)
  {
    if remaining <= 0 then 0 else CeilDiv(remaining, c.sendSize)
  }

  predicate Inv(c: Config, s: State)
    requires ValidConfig(c)
  {
    && s.client.delivered == s.server.received + s.inFlight
    && s.server.calls <= s.server.received
    && (s.shutDown <==> s.client.pc == Flushing || s.client.pc == Done)
    && (s.server.done ==> s.inFlight == 0 && s.shutDown)
    && (s.client.pc == Done ==> s.server.done)
    && (c.test.Bytes? ==>
          && s.client.timesUp
          && s.client.remaining == c.test.n - s.client.delivered
          && s.client.remaining + c.sendSize > 0
          && s.client.delivered == s.client.sends * c.sendSize
          && s.client.sends + SendsLeft(c, s.client.remaining) == CeilDiv(c.test.n, c.sendSize)
          && (s.client.pc == Sending ==> s.client.remaining > 0)
          && (s.shutDown ==> s.client.remaining <= 0))
  }

  lemma OneSendLess(c: Config, remaining: nat)
    requires ValidConfig(c) && remaining >= 1
    ensures SendsLeft(c, remaining) == 1 + SendsLeft(c, remaining - c.sendSize)
  {
    var d := c.sendSize;
    if remaining > d {
      assert (remaining + d - 1) == (remaining - d + d - 1) + d;
      DivModStep(remaining - 1, d);
    } else {
      DivModStep(remaining - 1, d);
      DivSmall(remaining - 1, d);
    }
  }

  lemma DivSmall(n: nat, d: nat)
    requires n < d
    ensures n / d == 0
  {
  }

  lemma StepKeepsInv(c: Config, s: State, step: Step)
    requires ValidConfig(c) && Inv(c, s) && Enabled(c, s, step)
    ensures Inv(c, Apply(c, s, step))
  {
    if step.ClientSend? && c.test.Bytes? {
      OneSendLess(c, s.client.remaining);
      assert (s.client.sends + 1) * c.sendSize == s.client.sends * c.sendSize + c.sendSize;
    }
  }

  lemma {:induction false} RunKeepsInv(c: Config, s: State, run: seq<Step>)
    requires ValidConfig(c) && Inv(c, s) && Executable(c, s, run)
    ensures Inv(c, After(c, s, run))
    decreases |run|
  {
    if run != [] {
      StepKeepsInv(c, s, run[0]);
      RunKeepsInv(c, Apply(c, s, run[0]), run[1..]);
    }
  }

  lemma ReachableInv(c: Config, run: seq<Step>)
    requires ValidConfig(c) && Executable(c, Init(c), run)
    ensures Inv(c, After(c, Init(c), run))
  {
    RunKeepsInv(c, Init(c), run);
  }

  /** In every run no byte is lost or invented, and the flush `recv` returns only after the server has read them all. */
  lemma BytesConserved(c: Config, run: seq<Step>)
    requires ValidConfig(c) && Executable(c, Init(c), run)
    ensures var s := After(c, Init(c), run);
            && s.server.received + s.inFlight == s.client.delivered
            && (s.client.pc == Done ==> s.server.received == s.client.delivered)
  {
    ReachableInv(c, run);
  }

  /** A test of n bytes makes exactly ceil(n / sendSize) sends and overshoots by less than one send; when the client is
      past its flush the server has counted exactly that many bytes. */
  lemma ByteTestSends(c: Config, run: seq<Step>)
    requires ValidConfig(c) && c.test.Bytes? && Executable(c, Init(c), run)
    ensures var s := After(c, Init(c), run);
            s.shutDown ==>
              && s.client.sends == CeilDiv(c.test.n, c.sendSize)
              && s.client.delivered == s.client.sends * c.sendSize
              && c.test.n <= s.client.delivered < c.test.n + c.sendSize
              && (s.client.pc == Done ==> s.server.received == s.client.delivered)
  {
    ReachableInv(c, run);
  }

  ghost predicate CanStep(c: Config, s: State) {
    exists step :: Enabled(c, s, step)
  }

  /** Timed or counted, the two processes are stuck only when both have finished. */
  lemma NeverStuck(c: Config, run: seq<Step>)
    requires ValidConfig(c) && Executable(c, Init(c), run)
    ensures var s := After(c, Init(c), run);
            !CanStep(c, s) <==> s.client.pc == Done && s.server.done
  {
    ReachableInv(c, run);
    var s := After(c, Init(c), run);
    if !(s.client.pc == Done && s.server.done) {
      var step :=
        match s.client.pc
        case AtGuard => ClientTest
        case Sending => ClientSend
        case Flushing =>
          if s.server.done then ClientFlushed else if s.inFlight > 0 then ServerRecv(1) else ServerEnd
        case Done => ServerEnd;
      assert Enabled(c, s, step);
    }
  }

  /** Every step of a byte test lowers this number. */
  function Rank(c: Config, s: State): nat
    requires ValidConfig(c)
  {
    var sends := SendsLeft(c, s.client.remaining);
    sends * (c.sendSize + 2) + s.inFlight
    + (match s.client.pc case AtGuard => 3 case Sending => 2 case Flushing => 1 case Done => 0)
    + (if s.server.done then 0 else 1)
  }

  lemma StepLowersRank(c: Config, s: State, step: Step)
    requires ValidConfig(c) && c.test.Bytes? && Inv(c, s) && Enabled(c, s, step)
    ensures Rank(c, Apply(c, s, step)) < Rank(c, s)
  {
    if step.ClientSend? {
      OneSendLess(c, s.client.remaining);
      var left := SendsLeft(c, s.client.remaining - c.sendSize);
      assert (1 + left) * (c.sendSize + 2) == left * (c.sendSize + 2) + (c.sendSize + 2);
    }
  }

  lemma {:induction false} RunLowersRank(c: Config, s: State, run: seq<Step>)
    requires ValidConfig(c) && c.test.Bytes? && Inv(c, s) && Executable(c, s, run)
    ensures |run| + Rank(c, After(c, s, run)) <= Rank(c, s)
    decreases |run|
  {
    if run != [] {
      StepKeepsInv(c, s, run[0]);
      StepLowersRank(c, s, run[0]);
      RunLowersRank(c, Apply(c, s, run[0]), run[1..]);
    }
  }

  /** A byte test always ends. */
  lemma ByteTestEnds(c: Config, run: seq<Step>)
    requires ValidConfig(c) && c.test.Bytes? && Executable(c, Init(c), run)
    ensures |run| <= CeilDiv(c.test.n, c.sendSize) * (c.sendSize + 2) + 4
  {
    RunLowersRank(c, Init(c), run);
    if c.test.n == 0 {
      DivSmall(c.sendSize - 1, c.sendSize);
    }
  }

  // ----- timed tests -----

  function Sends(run: seq<Step>): nat {
    if run == [] then 0 else (if run[0].ClientSend? then 1 else 0) + Sends(run[1..])
  }

  /** The timer has gone off in this run, between two calls or in a send. */
  predicate Alarm(run: seq<Step>) {
    exists i :: 0 <= i < |run| && (run[i].ClientTimer? || run[i].ClientCut?)
  }

  lemma {:induction false} ThenAfter(c: Config, s: State, front: seq<Step>, back: seq<Step>)
    ensures Executable(c, s, front + back)
            <==> Executable(c, s, front) && Executable(c, After(c, s, front), back)
    ensures Executable(c, s, front + back)
            ==> After(c, s, front + back) == After(c, After(c, s, front), back)
    decreases |front|
  {
    if front == [] {
      assert front + back == back;
    } else {
      assert (front + back)[1..] == front[1..] + back;
      if Enabled(c, s, front[0]) {
        ThenAfter(c, Apply(c, s, front[0]), front[1..], back);
      }
    }
  }

  /** In a timed test there is nothing to count down, and the client leaves its loop only by the alarm. What it has
      delivered is its whole sends and less than one more. */
  predicate TimedInv(c: Config, s: State) {
    && s.client.remaining == 0
    && (s.client.pc == Flushing || s.client.pc == Done ==> s.client.timesUp)
    && (s.client.pc == AtGuard || s.client.pc == Sending ==> s.client.delivered == s.client.sends * c.sendSize)
    && s.client.sends * c.sendSize <= s.client.delivered < s.client.sends * c.sendSize + c.sendSize
  }

  lemma TimedStep(c: Config, s: State, step: Step)
    requires ValidConfig(c) && c.test.Timed? && TimedInv(c, s) && Enabled(c, s, step)
    ensures TimedInv(c, Apply(c, s, step))
  {
    assert (s.client.sends + 1) * c.sendSize == s.client.sends * c.sendSize + c.sendSize;
  }

  lemma {:induction false} TimedRun(c: Config, s: State, run: seq<Step>)
    requires ValidConfig(c) && c.test.Timed? && TimedInv(c, s) && Executable(c, s, run)
    ensures var t := After(c, s, run);
            TimedInv(c, t) && (t.client.timesUp <==> s.client.timesUp || Alarm(run))
            && t.client.sends == s.client.sends + Sends(run)
    decreases |run|
  {
    if run != [] {
      TimedStep(c, s, run[0]);
      TimedRun(c, Apply(c, s, run[0]), run[1..]);
      assert forall i :: 0 <= i < |run[1..]| ==> run[1..][i] == run[i + 1];
      assert forall i :: 0 < i < |run| ==> run[i] == run[1..][i - 1];
    }
  }

  /** As long as the timer has not gone off, the client stays in its loop; it delivers its whole sends, and less than one
      more when the timer cuts one off. */
  lemma TimedGoesOn(c: Config, run: seq<Step>)
    requires ValidConfig(c) && c.test.Timed? && Executable(c, Init(c), run)
    ensures var s := After(c, Init(c), run);
            && (!Alarm(run) ==> !s.shutDown && s.client.delivered == Sends(run) * c.sendSize)
            && Sends(run) * c.sendSize <= s.client.delivered < Sends(run) * c.sendSize + c.sendSize
  {
    TimedRun(c, Init(c), run);
    ReachableInv(c, run);
  }

  lemma {:induction false} WindsDown(c: Config, s: State, run: seq<Step>)
    requires ValidConfig(c) && c.test.Timed? && TimedInv(c, s) && s.client.timesUp && Executable(c, s, run)
    ensures Sends(run) <= if s.client.pc == Sending then 1 else 0
    decreases |run|
  {
    if run != [] {
      TimedStep(c, s, run[0]);
      WindsDown(c, Apply(c, s, run[0]), run[1..]);
    }
  }

  /** After the timer the client sends at most once more, and not at all when the timer has cut a send off. */
  lemma TimedStops(c: Config, before: seq<Step>, alarm: Step, rest: seq<Step>)
    requires ValidConfig(c) && c.test.Timed? && Executable(c, Init(c), before + [alarm] + rest)
    ensures alarm.ClientTimer? ==> Sends(rest) <= 1
    ensures alarm.ClientCut? ==> Sends(rest) == 0
  {
    ThenAfter(c, Init(c), before + [alarm], rest);
    ThenAfter(c, Init(c), before, [alarm]);
    TimedRun(c, Init(c), before + [alarm]);
    var s := After(c, Init(c), before + [alarm]);
    assert s == After(c, Apply(c, After(c, Init(c), before), alarm), []);
    if s.client.timesUp {
      WindsDown(c, s, rest);
    }
  }

  function StepsLeft(c: Config, s: State): nat {
    s.inFlight + (if s.server.done then 0 else 1)
    + (match s.client.pc
       case AtGuard => 2
       case Sending => c.sendSize + 3
       case Flushing => 1
       case Done => 0)
  }

  lemma {:induction false} RunsDown(c: Config, s: State, run: seq<Step>)
    requires ValidConfig(c) && c.test.Timed? && TimedInv(c, s) && s.client.timesUp && Executable(c, s, run)
    ensures |run| + StepsLeft(c, After(c, s, run)) <= StepsLeft(c, s)
    decreases |run|
  {
    if run != [] {
      TimedStep(c, s, run[0]);
      RunsDown(c, Apply(c, s, run[0]), run[1..]);
    }
  }

  /** A timed test ends: once the timer has gone off, no more steps follow than bytes are in flight, one send and a few. */
  lemma TimedEnds(c: Config, before: seq<Step>, rest: seq<Step>)
    requires ValidConfig(c) && c.test.Timed? && Executable(c, Init(c), before + rest) && Alarm(before)
    ensures Executable(c, Init(c), before)
    ensures |rest| <= After(c, Init(c), before).inFlight + c.sendSize + 4
  {
    ThenAfter(c, Init(c), before, rest);
    TimedRun(c, Init(c), before);
    RunsDown(c, After(c, Init(c), before), rest);
  }

  lemma RunOfTwo(c: Config, s: State, a: Step, b: Step)
    requires Enabled(c, s, a) && Enabled(c, Apply(c, s, a), b)
    ensures Executable(c, s, [a, b]) && After(c, s, [a, b]) == Apply(c, Apply(c, s, a), b)
  {
    assert [a, b][1..] == [b] && [b][1..] == [];
    var s1 := Apply(c, s, a);
    assert Executable(c, Apply(c, s1, b), []);
    assert Executable(c, s1, [b]) && After(c, s1, [b]) == Apply(c, s1, b);
  }

  /** A timed client can make any number of sends before the timer goes off. */
  lemma {:induction false} TimedOfAnyLength(c: Config, k: nat) returns (run: seq<Step>)
    requires ValidConfig(c) && c.test.Timed?
    ensures Executable(c, Init(c), run) && !Alarm(run) && Sends(run) == k
    ensures After(c, Init(c), run).client == Client(AtGuard, k, k * c.sendSize, 0, false)
  {
    if k == 0 {
      run := [];
    } else {
      var front := TimedOfAnyLength(c, k - 1);
      var s := After(c, Init(c), front);
      RunOfTwo(c, s, ClientTest, ClientSend);
      ThenAfter(c, Init(c), front, [ClientTest, ClientSend]);
      run := front + [ClientTest, ClientSend];
      TimedRun(c, Init(c), front);
      TimedRun(c, Init(c), run);
      assert k * c.sendSize == (k - 1) * c.sendSize + c.sendSize;
    }
  }

  /** A timed test can come to any number of bytes: as many whole sends as are in it, and a cut one. */
  lemma TimedOfAnyAmount(c: Config, bytes: nat) returns (run: seq<Step>)
    requires ValidConfig(c) && c.test.Timed?
    ensures Executable(c, Init(c), run)
    ensures var s := After(c, Init(c), run); s.shutDown && s.client.delivered == bytes
  {
    var k, left := bytes / c.sendSize, bytes % c.sendSize;
    assert bytes == k * c.sendSize + left;
    var front := TimedOfAnyLength(c, k);
    var s := After(c, Init(c), front);
    RunOfTwo(c, s, ClientTest, ClientCut(left));
    ThenAfter(c, Init(c), front, [ClientTest, ClientCut(left)]);
    run := front + [ClientTest, ClientCut(left)];
  }
}

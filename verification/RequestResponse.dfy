/** netperf's TCP request/response test: the client loop of `send_tcp_rr` and the server loop of `recv_tcp_rr`,
    run concurrently over two byte streams.  A state holds both processes and the number of bytes in flight each way;
    a step is one call or one loop test, and a `recv` may return any non-empty part of what is in flight.  The alarm of a
    timed test goes off once: between two calls (`ClientTimer`) or in one, which it interrupts (`ClientInterrupted`). */
module RequestResponse {

  /** The test ends after n transactions (`-l -n`) or when a timer fires. */
  datatype Test = Counted(n: nat) | Timed

  datatype Config = Config(req: nat, rsp: nat, test: Test)

  /** Program points: the loop guard, before the request is sent, inside the receive loop, after the loop. */
  datatype Point = AtGuard | Sending | Receiving | Done

  /** `requestOut` records that a request without a complete response has been sent; the program has no such variable. */
  datatype Client = Client(pc: Point, left: nat, messages: nat, remaining: nat,
                           timesUp: bool, timedOut: bool, requestOut: bool)

  datatype Server = Server(pc: Point, left: nat, received: nat, remaining: nat, timesUp: bool, timedOut: bool)

  datatype State = State(client: Client, server: Server, toServer: nat, toClient: nat)

  datatype Step =
    | ClientTest | ClientSend | ClientRecv(k: nat) | ClientFinish | ClientTimer | ClientInterrupted
    | ServerTest | ServerRecv(k: nat) | ServerSend | ServerTimer | ServerInterrupted

  function Init(c: Config): State {
    var remaining := if c.test.Counted? then c.test.n else 0;
    State(Client(AtGuard, 0, 0, remaining, c.test.Counted?, false, false),
          Server(AtGuard, 0, 0, remaining, c.test.Counted?, false), 0, 0)
  }

  predicate Enabled(c: Config, s: State, step: Step) {
    match step
    case ClientTest => s.client.pc == AtGuard
    case ClientSend => s.client.pc == Sending
    case ClientRecv(k) => s.client.pc == Receiving && 1 <= k <= s.client.left && k <= s.toClient
    case ClientFinish => s.client.pc == Receiving && s.client.left == 0
    case ClientTimer => c.test.Timed? && s.client.pc != Done && !s.client.timesUp
    case ClientInterrupted =>
      && c.test.Timed? && !s.client.timesUp
      && (s.client.pc == Sending || (s.client.pc == Receiving && s.client.left > 0))
    case ServerTest => s.server.pc == AtGuard
    case ServerRecv(k) => s.server.pc == Receiving && 1 <= k <= s.server.left && k <= s.toServer
    case ServerSend => s.server.pc == Receiving && s.server.left == 0
    case ServerTimer => c.test.Timed? && s.server.pc != Done && !s.server.timesUp
    case ServerInterrupted => c.test.Timed? && !s.server.timesUp && s.server.pc == Receiving
  }

  /** `if (trans_remaining) trans_remaining--` */
  function Decremented(n: nat): nat {
    if n > 0 then n - 1 else n
  }

  function Apply(c: Config, s: State, step: Step): State
    requires Enabled(c, s, step)
  {
    var client, server := s.client, s.server;
    match step
    case ClientTest =>
      s.(client := client.(pc := if !client.timesUp || client.remaining > 0 then Sending else Done))
    case ClientSend =>
      s.(client := client.(pc := Receiving, left := c.rsp, requestOut := true), toServer := s.toServer + c.req)
    case ClientRecv(k) =>
      s.(client := client.(left := client.left - k), toClient := s.toClient - k)
    case ClientFinish =>
      s.(client := client.(pc := AtGuard, messages := client.messages + 1, remaining := Decremented(client.remaining),
                           requestOut := false))
    case ClientTimer => s.(client := client.(timesUp := true))
    case ClientInterrupted => s.(client := client.(pc := Done, timesUp := true, timedOut := true))
    case ServerTest =>
      s.(server := if !server.timesUp || server.remaining > 0 then server.(pc := Receiving, left := c.req)
                   else server.(pc := Done))
    case ServerRecv(k) =>
      s.(server := server.(left := server.left - k), toServer := s.toServer - k)
    case ServerSend =>
      s.(server := server.(pc := AtGuard, received := server.received + 1, remaining := Decremented(server.remaining)),
         toClient := s.toClient + c.rsp)
    case ServerTimer => s.(server := server.(timesUp := true))
    case ServerInterrupted => s.(server := server.(pc := Done, timesUp := true, timedOut := true))
  }

  /** A run is any sequence of steps, each enabled where it is taken. */
  predicate Executable(c: Config, s: State, run: seq<Step>)
    decreases |run|
  {
    run == [] || (Enabled(c, s, run[0]) && Executable(c, Apply(c, s, run[0]), run[1..]))
  }

  function After(c: Config, s: State, run: seq<Step>): State
    requires Executable(c, s, run)
    decreases |run|
  {
    if run == [] then s else After(c, Apply(c, s, run[0]), run[1..])
  }

  predicate Lockstep(s: State) {
    s.client.messages <= s.server.received <= s.client.messages + 1
  }

  ghost predicate AlwaysLockstep(c: Config) {
    forall run :: Executable(c, Init(c), run) ==> Lockstep(After(c, Init(c), run))
  }

  /** Requests and responses have bytes in them.  A server that expects empty requests may still answer one early, and a
      test of no transactions is over before it starts. */
  predicate Paced(c: Config) {
    c.test == Counted(0) || (c.rsp >= 1 && (c.req >= 1 || c.test == Counted(1)))
  }

  // ----- the inductive invariant -----

  /** What the server still has to read before it can answer. */
  function Owed(c: Config, s: State): nat {
    if s.server.pc == Receiving || (s.server.pc == Done && s.server.timedOut) then s.server.left else c.req
  }

  /** The stream towards the server holds exactly the unread part of the outstanding request. */
  predicate RequestStream(c: Config, s: State) {
    var ahead := if s.client.requestOut then s.client.messages + 1 else s.client.messages;
    && Owed(c, s) <= c.req
    && (c.req == 0 ==> s.toServer == 0)
    && (c.req >= 1 ==>
          || (s.server.received == ahead && s.toServer == 0 && Owed(c, s) == c.req)
          || (s.server.received + 1 == ahead && s.toServer == Owed(c, s)))
  }

  /** The stream towards the client holds exactly the unread part of the response it waits for. */
  predicate ResponseStream(c: Config, s: State) {
    var early := s.server.received == s.client.messages && s.toClient == 0;
    var late := s.server.received == s.client.messages + 1;
    if s.client.requestOut then
      s.client.left <= c.rsp && ((early && s.client.left == c.rsp) || (late && s.toClient == s.client.left))
    else
      early || (late && s.toClient == c.rsp && c.req == 0)
  }

  predicate Counters(c: Config, s: State) {
    match c.test
    case Counted(n) =>
      && s.client.timesUp && s.server.timesUp && !s.client.timedOut && !s.server.timedOut
      && s.client.messages + s.client.remaining == n
      && s.server.received + s.server.remaining == n
      && (s.client.pc == Sending || s.client.pc == Receiving ==> s.client.remaining > 0)
      && (s.server.pc == Receiving ==> s.server.remaining > 0)
      && (s.client.pc == Done ==> s.client.remaining == 0)
      && (s.server.pc == Done ==> s.server.remaining == 0)
    case Timed => true
  }

  predicate Inv(c: Config, s: State) {
    && s.server.pc != Sending && (s.server.timedOut ==> s.server.pc == Done)
    && (s.client.pc == Receiving ==> s.client.requestOut)
    && (s.client.pc == AtGuard || s.client.pc == Sending ==> !s.client.requestOut)
    && (s.client.requestOut ==> s.client.pc == Receiving || (s.client.pc == Done && s.client.timedOut))
    && RequestStream(c, s) && ResponseStream(c, s) && Counters(c, s)
  }

  lemma StepKeepsInv(c: Config, s: State, step: Step)
    requires Paced(c) && Inv(c, s) && Enabled(c, s, step)
    ensures Inv(c, Apply(c, s, step))
  {
  }

  lemma {:induction false} RunKeepsInv(c: Config, s: State, run: seq<Step>)
    requires Paced(c) && Inv(c, s) && Executable(c, s, run)
    ensures Inv(c, After(c, s, run))
    decreases |run|
  {
    if run != [] {
      StepKeepsInv(c, s, run[0]);
      RunKeepsInv(c, Apply(c, s, run[0]), run[1..]);
    }
  }

  lemma ReachableInv(c: Config, run: seq<Step>)
    requires Paced(c) && Executable(c, Init(c), run)
    ensures Inv(c, After(c, Init(c), run))
  {
    RunKeepsInv(c, Init(c), run);
  }

  // ----- main results -----

  /** In every interleaving and every fragmentation, timed or counted, the server is level with the client or one
      transaction ahead; and this is so only for the paced configurations. */
  lemma LockstepExactly(c: Config)
    ensures AlwaysLockstep(c) <==> Paced(c)
  {
    if Paced(c) {
      forall run | Executable(c, Init(c), run) ensures Lockstep(After(c, Init(c), run)) {
        ReachableInv(c, run);
      }
    } else if c.rsp == 0 {
      ClientRunsAhead(c);
    } else {
      ServerRunsAhead(c);
    }
  }

  /** Empty responses are not waited for: the client counts a transaction the server has not seen. */
  lemma ClientRunsAhead(c: Config)
    requires c.rsp == 0 && (c.test.Counted? ==> c.test.n >= 1)
    ensures !AlwaysLockstep(c)
  {
    var s0 := Init(c);
    var s1 := Apply(c, s0, ClientTest);
    var s2 := Apply(c, s1, ClientSend);
    var s3 := Apply(c, s2, ClientFinish);
    RunOfThree(c, s0, ClientTest, ClientSend, ClientFinish);
    assert !Lockstep(s3);
  }

  /** Empty requests are not waited for: the server answers twice before the client starts. */
  lemma ServerRunsAhead(c: Config)
    requires c.req == 0 && (c.test.Counted? ==> c.test.n >= 2)
    ensures !AlwaysLockstep(c)
  {
    var s0 := Init(c);
    var s1 := Apply(c, s0, ServerTest);
    var s2 := Apply(c, s1, ServerSend);
    var s3 := Apply(c, s2, ServerTest);
    var s4 := Apply(c, s3, ServerSend);
    RunOfThree(c, s1, ServerSend, ServerTest, ServerSend);
    var run := [ServerTest, ServerSend, ServerTest, ServerSend];
    assert run[1..] == [ServerSend, ServerTest, ServerSend];
    assert Executable(c, s0, run) && After(c, s0, run) == s4;
    assert !Lockstep(s4);
  }

  lemma RunOfThree(c: Config, s: State, a: Step, b: Step, d: Step)
    requires Enabled(c, s, a) && Enabled(c, Apply(c, s, a), b) && Enabled(c, Apply(c, Apply(c, s, a), b), d)
    ensures Executable(c, s, [a, b, d])
    ensures After(c, s, [a, b, d]) == Apply(c, Apply(c, Apply(c, s, a), b), d)
  {
    var run := [a, b, d];
    assert run[1..] == [b, d] && [b, d][1..] == [d] && [d][1..] == [];
    var s1 := Apply(c, s, a);
    var s2 := Apply(c, s1, b);
    assert Executable(c, s2, [d]) && After(c, s2, [d]) == Apply(c, s2, d) by {
      assert Executable(c, Apply(c, s2, d), []);
    }
    assert Executable(c, s1, [b, d]) && After(c, s1, [b, d]) == Apply(c, s2, d);
  }

  // ----- counted tests with messages of any size, empty ones included -----

  /** Requests the client has sent, and the bytes the server has read of the one it is reading. */
  function Asked(s: State): nat {
    s.client.messages + if s.client.pc == Receiving then 1 else 0
  }

  function ReadByServer(c: Config, s: State): int {
    if s.server.pc == Receiving then c.req - s.server.left else 0
  }

  function ReadByClient(c: Config, s: State): int {
    if s.client.pc == Receiving then c.rsp - s.client.left else 0
  }

  /** Every byte is accounted for: what was sent is either read or still in flight. */
  predicate Account(c: Config, s: State) {
    && s.server.pc != Sending && Counters(c, s)
    && s.toServer + c.req * s.server.received + ReadByServer(c, s) == c.req * Asked(s)
    && s.toClient + c.rsp * s.client.messages + ReadByClient(c, s) == c.rsp * s.server.received
  }

  lemma OneMore(size: nat, count: nat)
    ensures size * (count + 1) == size * count + size
  {
  }

  lemma StepKeepsAccount(c: Config, s: State, step: Step)
    requires c.test.Counted? && Account(c, s) && Enabled(c, s, step)
    ensures Account(c, Apply(c, s, step))
  {
    OneMore(c.req, s.client.messages);
    OneMore(c.rsp, s.client.messages);
    OneMore(c.req, s.server.received);
    OneMore(c.rsp, s.server.received);
  }

  lemma {:induction false} RunKeepsAccount(c: Config, s: State, run: seq<Step>)
    requires c.test.Counted? && Account(c, s) && Executable(c, s, run)
    ensures Account(c, After(c, s, run))
    decreases |run|
  {
    if run != [] {
      StepKeepsAccount(c, s, run[0]);
      RunKeepsAccount(c, Apply(c, s, run[0]), run[1..]);
    }
  }

  lemma ReachableAccount(c: Config, run: seq<Step>)
    requires c.test.Counted? && Executable(c, Init(c), run)
    ensures Account(c, After(c, Init(c), run))
  {
    RunKeepsAccount(c, Init(c), run);
  }

  predicate BothDone(s: State) {
    s.client.pc == Done && s.server.pc == Done
  }

  ghost predicate CanStep(c: Config, s: State) {
    exists step :: Enabled(c, s, step)
  }

  /** A process that waits for bytes. */
  predicate ClientWaits(s: State) {
    s.client.pc == Receiving && s.client.left > 0
  }

  predicate ServerWaits(s: State) {
    s.server.pc == Receiving && s.server.left > 0
  }

  /** If a process waits and the other one waits or is done, bytes are on the way to one of them. */
  lemma SomethingOnTheWay(c: Config, s: State)
    requires c.test.Counted? && Account(c, s) && (ClientWaits(s) || ServerWaits(s))
    requires (ClientWaits(s) || s.client.pc == Done) && (ServerWaits(s) || s.server.pc == Done)
    ensures (ClientWaits(s) && s.toClient > 0) || (ServerWaits(s) && s.toServer > 0)
  {
    var m, r := s.client.messages, s.server.received;
    OneMore(c.req, m);
    OneMore(c.rsp, m);
    OneMore(c.req, r);
    if ClientWaits(s) && m < r {
      AtLeast(c.rsp, m + 1, r);
    } else if ClientWaits(s) {
      AtLeast(c.req, r, m);
    } else {
      AtLeast(c.req, r + 1, m);
    }
  }

  lemma AtLeast(size: nat, few: nat, many: nat)
    requires few <= many
    ensures size * few <= size * many
  {
    assert size * many == size * few + size * (many - few);
  }

  /** A counted test is never stuck before both sides have left their loops, whatever the sizes of the messages. */
  lemma CountedNeverStuck(c: Config, run: seq<Step>)
    requires c.test.Counted? && Executable(c, Init(c), run)
    ensures BothDone(After(c, Init(c), run)) <==> !CanStep(c, After(c, Init(c), run))
  {
    ReachableAccount(c, run);
    var s := After(c, Init(c), run);
    if !BothDone(s) {
      if s.client.pc != Done && !ClientWaits(s) {
        var step := match s.client.pc case AtGuard => ClientTest case Sending => ClientSend case _ => ClientFinish;
        assert Enabled(c, s, step);
      } else if s.server.pc != Done && !ServerWaits(s) {
        assert Enabled(c, s, if s.server.pc == AtGuard then ServerTest else ServerSend);
      } else {
        SomethingOnTheWay(c, s);
        assert Enabled(c, s, if ClientWaits(s) && s.toClient > 0 then ClientRecv(1) else ServerRecv(1));
      }
    }
  }

  /** When both sides are done they agree: N transactions each, equal byte totals, nothing in flight. */
  lemma CountedAgreement(c: Config, run: seq<Step>)
    requires c.test.Counted? && Executable(c, Init(c), run)
    requires BothDone(After(c, Init(c), run))
    ensures var s := After(c, Init(c), run);
            && s.client.messages == s.server.received == c.test.n
            && c.req * s.client.messages + c.rsp * s.client.messages == s.server.received * (c.req + c.rsp)
            && s.toServer == 0 && s.toClient == 0
  {
    ReachableAccount(c, run);
  }

  /** Steps a process can still take: an upper bound that every step lowers. */
  function Work(size: nat, transactions: nat, pc: Point, left: nat): nat {
    match pc
    case AtGuard => transactions * (size + 4) + 1
    case Sending => transactions * (size + 4)
    case Receiving => if transactions == 0 then left else (transactions - 1) * (size + 4) + left + 2
    case Done => 0
  }

  function Rank(c: Config, s: State): nat {
    Work(c.rsp, s.client.remaining, s.client.pc, s.client.left)
    + Work(c.req, s.server.remaining, s.server.pc, s.server.left)
  }

  lemma StepLowersRank(c: Config, s: State, step: Step)
    requires c.test.Counted? && Account(c, s) && Enabled(c, s, step)
    ensures Rank(c, Apply(c, s, step)) < Rank(c, s)
  {
    if s.client.remaining > 0 {
      OneLess(s.client.remaining, c.rsp + 4);
    }
    if s.server.remaining > 0 {
      OneLess(s.server.remaining, c.req + 4);
    }
  }

  lemma OneLess(n: nat, k: nat)
    requires n >= 1
    ensures n * k == (n - 1) * k + k
  {
  }

  lemma {:induction false} RunLowersRank(c: Config, s: State, run: seq<Step>)
    requires c.test.Counted? && Account(c, s) && Executable(c, s, run)
    ensures |run| + Rank(c, After(c, s, run)) <= Rank(c, s)
    decreases |run|
  {
    if run != [] {
      StepKeepsAccount(c, s, run[0]);
      StepLowersRank(c, s, run[0]);
      RunLowersRank(c, Apply(c, s, run[0]), run[1..]);
    }
  }

  /** Every counted test ends: no run is longer than this bound, so by CountedNeverStuck every run that is continued
      as long as possible ends with both sides done. */
  lemma CountedEnds(c: Config, run: seq<Step>)
    requires c.test.Counted? && Executable(c, Init(c), run)
    ensures |run| <= c.test.n * (c.req + c.rsp + 8) + 2
  {
    RunLowersRank(c, Init(c), run);
    assert c.test.n * (c.req + c.rsp + 8) == c.test.n * (c.rsp + 4) + c.test.n * (c.req + 4);
  }

  // ----- timed tests -----

  function ClientSends(run: seq<Step>): nat {
    if run == [] then 0 else (if run[0].ClientSend? then 1 else 0) + ClientSends(run[1..])
  }

  function ServerSends(run: seq<Step>): nat {
    if run == [] then 0 else (if run[0].ServerSend? then 1 else 0) + ServerSends(run[1..])
  }

  /** The counters count: `received` the responses sent, and `messages` the requests sent, but for one still open. */
  lemma {:induction false} CountersCount(c: Config, s: State, run: seq<Step>)
    requires Executable(c, s, run)
    requires s.client.requestOut ==> s.client.pc == Receiving || s.client.pc == Done
    requires s.client.pc == Receiving ==> s.client.requestOut
    ensures var t := After(c, s, run);
            && t.server.received == s.server.received + ServerSends(run)
            && t.client.messages + (if t.client.requestOut then 1 else 0)
               == s.client.messages + (if s.client.requestOut then 1 else 0) + ClientSends(run)
    decreases |run|
  {
    if run != [] {
      CountersCount(c, Apply(c, s, run[0]), run[1..]);
    }
  }

  /** The alarm of the client, of the server, has gone off in this run. */
  predicate ClientAlarm(run: seq<Step>) {
    ClientTimer in run || ClientInterrupted in run
  }

  predicate ServerAlarm(run: seq<Step>) {
    ServerTimer in run || ServerInterrupted in run
  }

  lemma {:induction false} ThenAfter(c: Config, s: State, front: seq<Step>, back: seq<Step>)
    ensures Executable(c, s, front + back)
            <==> Executable(c, s, front) && Executable(c, After(c, s, front), back)
    ensures Executable(c, s, front + back)
            ==> After(c, s, front + back) == After(c, After(c, s, front), back)
    decreases |front|
  {
    if front == [] {
      assert front + back == back;
    } else {
      assert (front + back)[1..] == front[1..] + back;
      if Enabled(c, s, front[0]) {
        ThenAfter(c, Apply(c, s, front[0]), front[1..], back);
      }
    }
  }

  /** In a timed test there is nothing to count down, and a process leaves its loop only by the alarm. */
  predicate TimedInv(c: Config, s: State) {
    && s.client.remaining == 0 && s.server.remaining == 0 && s.server.pc != Sending
    && s.client.left <= c.rsp && s.server.left <= c.req
    && (s.client.pc == Done ==> s.client.timesUp) && (s.server.pc == Done ==> s.server.timesUp)
  }

  lemma {:induction false} TimedRun(c: Config, s: State, run: seq<Step>)
    requires c.test.Timed? && TimedInv(c, s) && Executable(c, s, run)
    ensures var t := After(c, s, run);
            && TimedInv(c, t)
            && (t.client.timesUp <==> s.client.timesUp || ClientAlarm(run))
            && (t.server.timesUp <==> s.server.timesUp || ServerAlarm(run))
    decreases |run|
  {
    if run != [] {
      assert run == [run[0]] + run[1..];
      TimedRun(c, Apply(c, s, run[0]), run[1..]);
    }
  }

  /** As long as its alarm has not gone off, a process of a timed test stays in its loop. */
  lemma TimedGoesOn(c: Config, run: seq<Step>)
    requires c.test.Timed? && Executable(c, Init(c), run)
    ensures !ClientAlarm(run) ==> After(c, Init(c), run).client.pc != Done
    ensures !ServerAlarm(run) ==> After(c, Init(c), run).server.pc != Done
  {
    TimedRun(c, Init(c), run);
  }

  lemma {:induction false} ClientWindsDown(c: Config, s: State, run: seq<Step>)
    requires c.test.Timed? && TimedInv(c, s) && s.client.timesUp && Executable(c, s, run)
    ensures ClientSends(run) <= if s.client.pc == Sending then 1 else 0
    decreases |run|
  {
    if run != [] {
      ClientWindsDown(c, Apply(c, s, run[0]), run[1..]);
    }
  }

  lemma {:induction false} ServerWindsDown(c: Config, s: State, run: seq<Step>)
    requires c.test.Timed? && TimedInv(c, s) && s.server.timesUp && Executable(c, s, run)
    ensures ServerSends(run) <= if s.server.pc == Receiving then 1 else 0
    decreases |run|
  {
    if run != [] {
      ServerWindsDown(c, Apply(c, s, run[0]), run[1..]);
    }
  }

  /** After its alarm a process of a timed test sends at most once more, and not at all when the alarm has interrupted a
      call. */
  lemma TimedStops(c: Config, before: seq<Step>, alarm: Step, rest: seq<Step>)
    requires c.test.Timed? && Executable(c, Init(c), before + [alarm] + rest)
    ensures alarm == ClientTimer ==> ClientSends(rest) <= 1
    ensures alarm == ClientInterrupted ==> ClientSends(rest) == 0
    ensures alarm == ServerTimer ==> ServerSends(rest) <= 1
    ensures alarm == ServerInterrupted ==> ServerSends(rest) == 0
  {
    ThenAfter(c, Init(c), before + [alarm], rest);
    ThenAfter(c, Init(c), before, [alarm]);
    TimedRun(c, Init(c), before + [alarm]);
    var s := After(c, Init(c), before + [alarm]);
    assert s == After(c, Apply(c, After(c, Init(c), before), alarm), []);
    if s.client.timesUp {
      ClientWindsDown(c, s, rest);
    }
    if s.server.timesUp {
      ServerWindsDown(c, s, rest);
    }
  }

  /** The steps that are left to the two processes after both alarms. */
  function StepsLeft(c: Config, s: State): nat {
    (match s.client.pc
     case AtGuard => 1
     case Sending => c.rsp + 3
     case Receiving => s.client.left + 2
     case Done => 0)
    + (if s.server.pc == AtGuard then 1 else if s.server.pc == Receiving then s.server.left + 2 else 0)
  }

  lemma {:induction false} RunsDown(c: Config, s: State, run: seq<Step>)
    requires c.test.Timed? && TimedInv(c, s) && s.client.timesUp && s.server.timesUp && Executable(c, s, run)
    ensures |run| + StepsLeft(c, After(c, s, run)) <= StepsLeft(c, s)
    decreases |run|
  {
    if run != [] {
      RunsDown(c, Apply(c, s, run[0]), run[1..]);
    }
  }

  /** A timed test ends: once both alarms have gone off, no more steps than these follow. */
  lemma TimedEnds(c: Config, before: seq<Step>, rest: seq<Step>)
    requires c.test.Timed? && Executable(c, Init(c), before + rest) && ClientAlarm(before) && ServerAlarm(before)
    ensures |rest| <= c.req + c.rsp + 5
  {
    ThenAfter(c, Init(c), before, rest);
    TimedRun(c, Init(c), before);
    RunsDown(c, After(c, Init(c), before), rest);
  }

  /** A process of a timed test that waits is freed by its alarm, so nobody is stuck whose alarm is still to come. */
  lemma AlarmFrees(c: Config, run: seq<Step>)
    requires c.test.Timed? && Executable(c, Init(c), run)
    ensures var s := After(c, Init(c), run);
            && (ClientWaits(s) && !ClientAlarm(run) ==>
                  Enabled(c, s, ClientInterrupted) && Apply(c, s, ClientInterrupted).client.pc == Done)
            && (ServerWaits(s) && !ServerAlarm(run) ==>
                  Enabled(c, s, ServerInterrupted) && Apply(c, s, ServerInterrupted).server.pc == Done)
            && (!CanStep(c, s) ==> (s.client.pc == Done || ClientAlarm(run)) && (s.server.pc == Done || ServerAlarm(run)))
  {
    TimedRun(c, Init(c), run);
    var s := After(c, Init(c), run);
    if s.client.pc != Done && !ClientAlarm(run) {
      assert Enabled(c, s, ClientTimer);
    }
    if s.server.pc != Done && !ServerAlarm(run) {
      assert Enabled(c, s, ServerTimer);
    }
  }

  // ----- a timed test of any number of transactions -----

  /** One transaction, with each message in one piece. */
  function Transaction(c: Config): seq<Step> {
    [ClientTest, ClientSend, ServerTest] + (if c.req > 0 then [ServerRecv(c.req)] else []) + [ServerSend]
    + (if c.rsp > 0 then [ClientRecv(c.rsp)] else []) + [ClientFinish]
  }

  /** Between two transactions. */
  predicate AtRest(s: State, k: nat) {
    && s.client.pc == AtGuard && s.server.pc == AtGuard && s.toServer == 0 && s.toClient == 0
    && s.client.messages == k && s.server.received == k
    && !s.client.timesUp && !s.server.timesUp && s.client.remaining == 0 && s.server.remaining == 0
  }

  lemma One(c: Config, s: State, step: Step)
    requires Enabled(c, s, step)
    ensures Executable(c, s, [step]) && After(c, s, [step]) == Apply(c, s, step)
  {
    assert [step][1..] == [];
  }

  lemma TransactionWorks(c: Config, s: State, k: nat)
    requires c.test.Timed? && AtRest(s, k)
    ensures Executable(c, s, Transaction(c)) && AtRest(After(c, s, Transaction(c)), k + 1)
  {
    RunOfThree(c, s, ClientTest, ClientSend, ServerTest);
    var s3 := After(c, s, [ClientTest, ClientSend, ServerTest]);
    var read := if c.req > 0 then [ServerRecv(c.req)] else [];
    var s4 := if c.req > 0 then Apply(c, s3, ServerRecv(c.req)) else s3;
    if c.req > 0 {
      One(c, s3, ServerRecv(c.req));
    }
    assert Executable(c, s3, read) && After(c, s3, read) == s4;
    var answered := Apply(c, s4, ServerSend);
    One(c, s4, ServerSend);
    var got := if c.rsp > 0 then [ClientRecv(c.rsp)] else [];
    var s6 := if c.rsp > 0 then Apply(c, answered, ClientRecv(c.rsp)) else answered;
    if c.rsp > 0 {
      One(c, answered, ClientRecv(c.rsp));
    }
    assert Executable(c, answered, got) && After(c, answered, got) == s6;
    One(c, s6, ClientFinish);
    var begun := [ClientTest, ClientSend, ServerTest];
    ThenAfter(c, s, begun, read);
    ThenAfter(c, s, begun + read, [ServerSend]);
    ThenAfter(c, s, begun + read + [ServerSend], got);
    ThenAfter(c, s, begun + read + [ServerSend] + got, [ClientFinish]);
  }

  lemma {:induction false} SomeTransactions(c: Config, k: nat) returns (run: seq<Step>)
    requires c.test.Timed?
    ensures Executable(c, Init(c), run) && AtRest(After(c, Init(c), run), k)
  {
    if k == 0 {
      run := [];
    } else {
      var front := SomeTransactions(c, k - 1);
      TransactionWorks(c, After(c, Init(c), front), k - 1);
      ThenAfter(c, Init(c), front, Transaction(c));
      run := front + Transaction(c);
    }
  }

  /** A timed test can do any number of transactions: there is a run that ends with both sides having counted exactly k. */
  lemma TimedOfAnyLength(c: Config, k: nat) returns (run: seq<Step>)
    requires c.test.Timed?
    ensures Executable(c, Init(c), run)
    ensures var s := After(c, Init(c), run);
            BothDone(s) && s.client.messages == s.server.received == k && s.toServer == s.toClient == 0
  {
    var front := SomeTransactions(c, k);
    var s := After(c, Init(c), front);
    RunOfThree(c, s, ClientTimer, ClientTest, ServerTimer);
    var s3 := After(c, s, [ClientTimer, ClientTest, ServerTimer]);
    One(c, s3, ServerTest);
    ThenAfter(c, s, [ClientTimer, ClientTest, ServerTimer], [ServerTest]);
    ThenAfter(c, Init(c), front, [ClientTimer, ClientTest, ServerTimer] + [ServerTest]);
    run := front + ([ClientTimer, ClientTest, ServerTimer] + [ServerTest]);
  }
}

/** netperf's control messages: byte order, doubles, and reassembly from a byte stream. */
module ControlMessages {

  type Byte = b: int | 0 <= b < 256

  type Word = w: int | 0 <= w < 0x1_0000_0000

  datatype Order = BigEndian | LittleEndian

  // ----- ints -----

  function Number(b0: int, b1: int, b2: int, b3: int): int {
    ((b0 * 256 + b1) * 256 + b2) * 256 + b3
  }

  /** The int whose four bytes in memory are b. */
  function FromBytes(order: Order, b: seq<Byte>): (w: Word)
    requires |b| == 4
  {
    if order == BigEndian then Number(b[0], b[1], b[2], b[3]) else Number(b[3], b[2], b[1], b[0])
  }

  function ToBytes(order: Order, w: Word): (b: seq<Byte>)
    ensures |b| == 4
  {
    var b0, b1, b2, b3 := w / 0x100_0000, w / 0x1_0000 % 256, w / 256 % 256, w % 256;
    if order == BigEndian then [b0, b1, b2, b3] else [b3, b2, b1, b0]
  }

  lemma DigitsOf(b0: Byte, b1: Byte, b2: Byte, b3: Byte)
    ensures var w := Number(b0, b1, b2, b3);
            w / 0x100_0000 == b0 && w / 0x1_0000 % 256 == b1 && w / 256 % 256 == b2 && w % 256 == b3
  {
  }

  lemma BytesRoundTrip(order: Order, b: seq<Byte>)
    requires |b| == 4
    ensures ToBytes(order, FromBytes(order, b)) == b
  {
    if order == BigEndian {
      DigitsOf(b[0], b[1], b[2], b[3]);
    } else {
      DigitsOf(b[3], b[2], b[1], b[0]);
    }
  }

  function Reversed4(b: seq<Byte>): (r: seq<Byte>)
    requires |b| == 4
    ensures |r| == 4
  {
    [b[3], b[2], b[1], b[0]]
  }

  /** What converting between the host's order and that of the network does to a word in memory. */
  function Turned(order: Order, b: seq<Byte>): (r: seq<Byte>)
    requires |b| == 4
    ensures |r| == 4 && b == if order == BigEndian then r else Reversed4(r)
  {
    if order == BigEndian then b else Reversed4(b)
  }

  /** htonl, and ntohl: both exchange the host's order for that of the network. */
  function Htonl(order: Order, w: Word): Word {
    if order == BigEndian then w else FromBytes(BigEndian, Reversed4(ToBytes(BigEndian, w)))
  }

  /** In memory htonl reverses the bytes of a word, if it does anything. */
  lemma HtonlInMemory(order: Order, b: seq<Byte>)
    requires |b| == 4
    ensures ToBytes(order, Htonl(order, FromBytes(order, b))) == Turned(order, b)
  {
    BytesRoundTrip(order, b);
    if order == LittleEndian {
      var w := FromBytes(order, b);
      assert FromBytes(BigEndian, Reversed4(b)) == w;
      BytesRoundTrip(BigEndian, Reversed4(b));
      assert Reversed4(ToBytes(BigEndian, w)) == b;
      var v := FromBytes(BigEndian, b);
      BytesRoundTrip(BigEndian, b);
      assert ToBytes(LittleEndian, v) == Reversed4(ToBytes(BigEndian, v));
    }
  }

  // ----- whole messages -----

  /** The mirror image of byte i in its word. */
  function Mirror(i: nat): nat {
    i - i % 4 + (3 - i % 4)
  }

  /** A message with the bytes of every word reversed, on a host where htonl does that. */
  function Converted(order: Order, message: seq<Byte>): (r: seq<Byte>)
    requires |message| % 4 == 0
    ensures |r| == |message|
  {
    if order == BigEndian then message else
      seq(|message|, i requires 0 <= i < |message| => message[Mirror(i)])
  }

  lemma MirrorsOf(at: nat)
    requires at % 4 == 0
    ensures Mirror(at) == at + 3 && Mirror(at + 1) == at + 2 && Mirror(at + 2) == at + 1 && Mirror(at + 3) == at
  {
  }

  lemma ConvertedWord(order: Order, message: seq<Byte>, at: nat)
    requires |message| % 4 == 0 && at % 4 == 0 && at + 4 <= |message|
    ensures Converted(order, message)[at..at + 4]
            == Turned(order, message[at..at + 4])
  {
    if order == LittleEndian {
      MirrorsOf(at);
      var c := Converted(order, message);
      assert c[at] == message[at + 3] && c[at + 1] == message[at + 2];
      assert c[at + 2] == message[at + 1] && c[at + 3] == message[at];
    }
  }

  /** The int at word k, as a host sees it. */
  function IntAt(order: Order, message: seq<Byte>, k: nat): Word
    requires 4 * k + 4 <= |message|
  {
    FromBytes(order, message[4 * k..4 * k + 4])
  }

  /** The conversion loop of the send and receive functions, in place. */
  method ConvertWords(order: Order, message: array<Byte>)
    requires message.Length % 4 == 0
    modifies message
    ensures message[..] == Converted(order, old(message[..]))
  {
    ghost var was := message[..];
    for counter := 0 to message.Length / 4
      invariant message[..4 * counter] == Converted(order, was)[..4 * counter]
      invariant message[4 * counter..] == was[4 * counter..]
    {
      ConvertWord(order, message, 4 * counter, was);
    }
  }

  /** `htonl(request_array[counter])`, in memory. */
  method ConvertBytes(order: Order, b: seq<Byte>) returns (r: seq<Byte>)
    requires |b| == 4
    ensures r == Turned(order, b)
  {
    HtonlInMemory(order, b);
    r := ToBytes(order, Htonl(order, FromBytes(order, b)));
  }

  method ConvertWord(order: Order, message: array<Byte>, at: nat, ghost was: seq<Byte>)
    requires message.Length == |was| && |was| % 4 == 0 && at % 4 == 0 && at + 4 <= message.Length
    requires message[..at] == Converted(order, was)[..at] && message[at..] == was[at..]
    modifies message
    ensures message[..at + 4] == Converted(order, was)[..at + 4] && message[at + 4..] == was[at + 4..]
  {
    var b := message[at..at + 4];
    SameWord(message[..], was, at);
    ConvertedWord(order, was, at);
    var word := ConvertBytes(order, b);
    message[at], message[at + 1], message[at + 2], message[at + 3] := word[0], word[1], word[2], word[3];
    NextWord(message[..], Converted(order, was), at);
  }

  lemma SameWord(s: seq<Byte>, t: seq<Byte>, at: nat)
    requires |s| == |t| && at + 4 <= |s| && s[at..] == t[at..]
    ensures s[at..at + 4] == t[at..at + 4] && s[at + 4..] == t[at + 4..]
  {
    assert s[at..at + 4] == s[at..][..4] && t[at..at + 4] == t[at..][..4];
    assert s[at + 4..] == s[at..][4..] && t[at + 4..] == t[at..][4..];
  }

  lemma NextWord(now: seq<Byte>, goal: seq<Byte>, at: nat)
    requires |now| == |goal| && at + 4 <= |now| && now[..at] == goal[..at]
    requires now[at] == goal[at..at + 4][0] && now[at + 1] == goal[at..at + 4][1]
    requires now[at + 2] == goal[at..at + 4][2] && now[at + 3] == goal[at..at + 4][3]
    ensures now[..at + 4] == goal[..at + 4]
  {
    assert now[..at + 4] == now[..at] + [now[at], now[at + 1], now[at + 2], now[at + 3]];
    assert goal[..at + 4] == goal[..at] + goal[at..at + 4];
  }

  /** Whatever the orders of the two hosts, every int arrives as it was. */
  lemma IntsArrive(sender: Order, receiver: Order, message: seq<Byte>, k: nat)
    requires |message| % 4 == 0 && 4 * k + 4 <= |message|
    ensures IntAt(receiver, Converted(receiver, Converted(sender, message)), k) == IntAt(sender, message, k)
  {
    ConvertedWord(sender, message, 4 * k);
    ConvertedWord(receiver, Converted(sender, message), 4 * k);
  }

  /** On the wire an int has its most significant byte first, whatever the order of the host. */
  lemma MostSignificantFirst(sender: Order, message: seq<Byte>, k: nat)
    requires |message| % 4 == 0 && 4 * k + 4 <= |message|
    ensures var wire := Converted(sender, message);
            wire[4 * k] as int * 0x100_0000 + wire[4 * k + 1] as int * 0x1_0000 + wire[4 * k + 2] as int * 0x100
            + wire[4 * k + 3]
            == IntAt(sender, message, k)
  {
    ConvertedWord(sender, message, 4 * k);
    var wire := Converted(sender, message);
    assert wire[4 * k..4 * k + 4][0] == wire[4 * k] && wire[4 * k..4 * k + 4][1] == wire[4 * k + 1];
    assert wire[4 * k..4 * k + 4][2] == wire[4 * k + 2] && wire[4 * k..4 * k + 4][3] == wire[4 * k + 3];
  }

  /** In the memory of a little-endian host it has its least significant byte first. */
  lemma LeastSignificantFirst(message: seq<Byte>, k: nat)
    requires 4 * k + 4 <= |message|
    ensures message[4 * k] as int + message[4 * k + 1] as int * 0x100 + message[4 * k + 2] as int * 0x1_0000
            + message[4 * k + 3] as int * 0x100_0000
            == IntAt(LittleEndian, message, k)
  {
  }

  // ----- doubles -----

  function Reversed8(b: seq<Byte>): (r: seq<Byte>)
    requires |b| == 8
    ensures |r| == 8
  {
    [b[7], b[6], b[5], b[4], b[3], b[2], b[1], b[0]]
  }

  /** A double in the memory of a host; d is its eight bytes with the most significant first. */
  function HostDouble(order: Order, d: seq<Byte>): (b: seq<Byte>)
    requires |d| == 8
    ensures |b| == 8
  {
    if order == BigEndian then d else Reversed8(d)
  }

  /** The `scratch` loop: the eight bytes are turned round in place. */
  method SwapBytes(bytes: array<Byte>)
    requires bytes.Length == 8
    modifies bytes
    ensures bytes[..] == Reversed8(old(bytes[..]))
  {
    for i := 0 to 4
      invariant forall k :: 0 <= k < i ==> bytes[k] == old(bytes[7 - k]) && bytes[7 - k] == old(bytes[k])
      invariant forall k :: i <= k < 8 - i ==> bytes[k] == old(bytes[k])
    {
      var scratch := bytes[i];
      bytes[i] := bytes[7 - i];
      bytes[7 - i] := scratch;
    }
  }

  /** On a little-endian host the effect is to exchange the two words. */
  function WordsExchanged(order: Order, b: seq<Byte>): (r: seq<Byte>)
    requires |b| == 8
    ensures |r| == 8
  {
    if order == BigEndian then b else b[4..] + b[..4]
  }

  lemma ConvertedEight(b: seq<Byte>)
    requires |b| == 8
    ensures Converted(LittleEndian, b) == Reversed4(b[..4]) + Reversed4(b[4..])
  {
    ConvertedWord(LittleEndian, b, 0);
    ConvertedWord(LittleEndian, b, 4);
    EightBytes(Converted(LittleEndian, b), 0);
    assert b[0..4] == b[..4] && b[4..8] == b[4..];
    assert Converted(LittleEndian, b)[0..8] == Converted(LittleEndian, b);
  }

  lemma TurnedEitherWay(b: seq<Byte>)
    requires |b| == 8
    ensures Converted(LittleEndian, Reversed8(b)) == WordsExchanged(LittleEndian, b)
    ensures Reversed8(Converted(LittleEndian, b)) == WordsExchanged(LittleEndian, b)
  {
    ConvertedEight(b);
    ConvertedEight(Reversed8(b));
  }

  method Htond(order: Order, hostDouble: seq<Byte>) returns (r: seq<Byte>)
    requires |hostDouble| == 8
    ensures r == WordsExchanged(order, hostDouble)
  {
    if Htonl(order, 1) == 1 {
      OneTellsTheOrder(order);
      return hostDouble;
    }
    var bytes := new Byte[8](i requires 0 <= i < 8 => hostDouble[i]);
    assert bytes[..] == hostDouble;
    SwapBytes(bytes);
    TurnedEitherWay(hostDouble);
    ConvertWords(order, bytes);
    r := bytes[..];
  }

  method Ntohd(order: Order, netDouble: seq<Byte>) returns (r: seq<Byte>)
    requires |netDouble| == 8
    ensures r == WordsExchanged(order, netDouble)
  {
    if Htonl(order, 1) == 1 {
      OneTellsTheOrder(order);
      return netDouble;
    }
    var bytes := new Byte[8](i requires 0 <= i < 8 => netDouble[i]);
    assert bytes[..] == netDouble;
    TurnedEitherWay(netDouble);
    ConvertWords(order, bytes);
    SwapBytes(bytes);
    r := bytes[..];
  }

  /** The test for a host that is in network order already. */
  lemma OneTellsTheOrder(order: Order)
    ensures Htonl(order, 1) == 1 <==> order == BigEndian
  {
  }

  /** What htond makes of the double d on a host, and what ntohd makes d of again. */
  function Encoded(order: Order, d: seq<Byte>): (b: seq<Byte>)
    requires |d| == 8
    ensures |b| == 8 && WordsExchanged(order, b) == HostDouble(order, d)
  {
    WordsExchanged(order, HostDouble(order, d))
  }

  predicate Holds(message: seq<Byte>, k: nat, double: seq<Byte>) {
    4 * k + 8 <= |message| && message[4 * k..4 * k + 8] == double
  }

  /** A double on its way between htond and ntohd: each half with its bytes in the host's order. */
  lemma ExchangedHalves(order: Order, d: seq<Byte>)
    requires |d| == 8
    ensures WordsExchanged(order, HostDouble(order, d)) == Turned(order, d[..4]) + Turned(order, d[4..])
    ensures WordsExchanged(order, Turned(order, d[..4]) + Turned(order, d[4..])) == HostDouble(order, d)
  {
  }

  lemma ConvertedHalves(order: Order, message: seq<Byte>, k: nat, a: seq<Byte>, b: seq<Byte>)
    requires |message| % 4 == 0 && |a| == 4 && |b| == 4 && Holds(message, k, a + b)
    ensures Holds(Converted(order, message), k, Turned(order, a) + Turned(order, b))
  {
    var at, wire := 4 * k, Converted(order, message);
    SplitEight(message, at, a, b);
    ConvertedWord(order, message, at);
    ConvertedWord(order, message, at + 4);
    assert wire[at..at + 4] == Turned(order, a) && wire[at + 4..at + 4 + 4] == Turned(order, b);
    EightBytes(wire, at);
  }

  lemma SplitEight(s: seq<Byte>, at: nat, a: seq<Byte>, b: seq<Byte>)
    requires at + 8 <= |s| && |a| == 4 && |b| == 4 && s[at..at + 8] == a + b
    ensures s[at..at + 4] == a && s[at + 4..at + 4 + 4] == b
  {
    EightBytes(s, at);
    assert s[at..at + 4] == (a + b)[..4] && s[at + 4..at + 4 + 4] == (a + b)[4..];
  }

  /** A double that was encoded with htond goes over the network with its most significant byte first, and the receiver
      gets the bytes that ntohd makes the same double of in its own order. */
  lemma DoublesArrive(sender: Order, receiver: Order, message: seq<Byte>, k: nat, d: seq<Byte>)
    requires |message| % 4 == 0 && |d| == 8 && Holds(message, k, Encoded(sender, d))
    ensures Holds(Converted(sender, message), k, d)
    ensures Holds(Converted(receiver, Converted(sender, message)), k, Encoded(receiver, d))
  {
    ExchangedHalves(sender, d);
    ExchangedHalves(receiver, d);
    assert d == d[..4] + d[4..];
    ConvertedHalves(sender, message, k, Turned(sender, d[..4]), Turned(sender, d[4..]));
    ConvertedHalves(receiver, Converted(sender, message), k, d[..4], d[4..]);
  }

  lemma EightBytes(s: seq<Byte>, at: nat)
    requires at + 8 <= |s|
    ensures s[at..at + 8] == s[at..at + 4] + s[at + 4..at + 4 + 4]
  {
  }

  // ----- the control connection -----

  /** What a host has still to receive. When it is all there the connection is shut down by the other side or reset. */
  class Connection {
    var pending: seq<Byte>
    const reset: bool

    constructor (reset: bool)
      ensures pending == [] && this.reset == reset
    {
      pending, this.reset := [], reset;
    }

    /** send(2), which takes the whole message. */
    method Send(message: seq<Byte>)
      modifies this
      ensures pending == old(pending) + message
    {
      pending := pending + message;
    }

    /** recv(2): any number of bytes up to what was asked for, in order; 0 at the end and -1 after a reset. */
    method Recv(limit: nat) returns (n: int, bytes: seq<Byte>)
      requires limit >= 1
      modifies this
      ensures old(pending) == bytes + pending && |bytes| <= limit
      ensures n == if old(pending) == [] then (if reset then -1 else 0) else |bytes|
      ensures old(pending) != [] ==> |bytes| >= 1
    {
      if pending == [] {
        return if reset then -1 else 0, [];
      }
      var size: nat :| 1 <= size <= limit && size <= |pending| by { assert 1 <= limit && 1 <= |pending|; }
      bytes := pending[..size];
      pending, n := pending[size..], size;
    }
  }

  /** What became of a receive: a message, the peer's shutdown, or an exit with an error or over a partial message. */
  datatype Outcome = Received | Shutdown | Failed | Partial

  method SendMessage(order: Order, message: array<Byte>, connection: Connection)
    requires message.Length % 4 == 0
    modifies message, connection
    ensures connection.pending == old(connection.pending) + Converted(order, old(message[..]))
  {
    ConvertWords(order, message);
    connection.Send(message[..]);
  }

  /** The receive loop: `total` bytes of the message have come, and `got` is what the last recv returned. */
  method Reassemble(message: array<Byte>, connection: Connection) returns (total: nat, got: int)
    modifies message, connection
    ensures total <= message.Length && total <= |old(connection.pending)|
    ensures message[..total] == old(connection.pending)[..total]
    ensures connection.pending == old(connection.pending)[total..]
    ensures total < message.Length ==> connection.pending == [] && got == if connection.reset then -1 else 0
    ensures total == message.Length > 0 ==> got > 0
  {
    total, got := 0, 0;
    while total != message.Length
      invariant total <= message.Length && total <= |old(connection.pending)|
      invariant message[..total] == old(connection.pending)[..total]
      invariant connection.pending == old(connection.pending)[total..]
      invariant total > 0 ==> got > 0
      decreases message.Length - total
    {
      var bytes;
      got, bytes := connection.Recv(message.Length - total);
      if got <= 0 {
        break;
      }
      forall i | 0 <= i < |bytes| {
        message[total + i] := bytes[i];
      }
      total := total + |bytes|;
    }
  }
  /** recv_request: a request that is cut short by the end of the connection is taken for a shutdown, however much of it
      has come; the case of a partial request, which the source provides for, does not occur. */
  method RecvRequest(order: Order, message: array<Byte>, connection: Connection) returns (outcome: Outcome)
    requires message.Length % 4 == 0 && message.Length > 0
    modifies message, connection
    ensures outcome == if |old(connection.pending)| >= message.Length then Received
                       else if connection.reset then Failed else Shutdown
    ensures outcome == Received ==> connection.pending == old(connection.pending)[message.Length..]
                                    && message[..] == Converted(order, old(connection.pending)[..message.Length])
  {
    var total, got := Reassemble(message, connection);
    ghost var raw := message[..];
    ConvertWords(order, message);
    if got == -1 {
      return Failed;
    }
    if got == 0 {
      return Shutdown;
    }
    if total < message.Length {
      return Partial;
    }
    assert raw == raw[..total];
    outcome := Received;
  }

  /** recv_response: anything short of a whole response is an error, and the end of the connection in it a partial response. */
  method RecvResponse(order: Order, message: array<Byte>, connection: Connection) returns (outcome: Outcome)
    requires message.Length % 4 == 0 && message.Length > 0
    modifies message, connection
    ensures outcome == if |old(connection.pending)| >= message.Length then Received
                       else if connection.reset then Failed else Partial
    ensures outcome == Received ==> connection.pending == old(connection.pending)[message.Length..]
                                    && message[..] == Converted(order, old(connection.pending)[..message.Length])
  {
    for counter := 0 to message.Length
      modifies message
    {
      message[counter] := 0;
    }
    var total, got := Reassemble(message, connection);
    ghost var raw := message[..];
    ConvertWords(order, message);
    if got == -1 {
      return Failed;
    }
    if total < message.Length {
      return Partial;
    }
    assert raw == raw[..total];
    outcome := Received;
  }

  /** Three bytes of a request of four, and then the end: no error is noticed. */
  method CutShort(order: Order) returns (outcome: Outcome)
    ensures outcome == Shutdown
  {
    var connection := new Connection(false);
    connection.Send([0, 0, 0]);
    var message := new Byte[4];
    outcome := RecvRequest(order, message, connection);
  }

  // ----- several messages -----

  /** The bytes of the messages from i on, and what follows them. */
  function Wire(order: Order, messages: seq<seq<Byte>>, size: nat, i: nat, rest: seq<Byte>): (stream: seq<Byte>)
    requires Sized(messages, size) && i <= |messages|
    decreases |messages| - i
  {
    if i == |messages| then rest else Converted(order, messages[i]) + Wire(order, messages, size, i + 1, rest)
  }

  predicate Sized(messages: seq<seq<Byte>>, size: nat) {
    size % 4 == 0 && size > 0 && forall i :: 0 <= i < |messages| ==> |messages[i]| == size
  }

  /** Requests that are sent one after another are received as the same requests, each from exactly its own bytes: a run
      of `send_request` on one host and of `recv_request` on the other, with whatever fragments recv returns. */
  method ReceiveAll(sender: Order, receiver: Order, messages: seq<seq<Byte>>, size: nat, connection: Connection,
                    ghost rest: seq<Byte>) returns (received: seq<seq<Byte>>)
    requires Sized(messages, size) && connection.pending == Wire(sender, messages, size, 0, rest)
    modifies connection
    ensures |received| == |messages| && connection.pending == rest
    ensures forall i :: 0 <= i < |messages| ==> received[i] == Converted(receiver, Converted(sender, messages[i]))
    ensures forall i :: 0 <= i < |messages| ==> SameInts(sender, receiver, messages[i], received[i])
    ensures forall i :: 0 <= i < |messages| ==> SameDoubles(sender, receiver, messages[i], received[i])
  {
    received := ReceiveInTurn(sender, receiver, messages, size, connection, rest);
    AllArrive(sender, receiver, messages, received, size);
  }

  method ReceiveInTurn(sender: Order, receiver: Order, messages: seq<seq<Byte>>, size: nat, connection: Connection,
                       ghost rest: seq<Byte>) returns (received: seq<seq<Byte>>)
    requires Sized(messages, size) && connection.pending == Wire(sender, messages, size, 0, rest)
    modifies connection
    ensures received == Arrived(sender, receiver, messages, size, |messages|) && connection.pending == rest
  {
    received := [];
    for i := 0 to |messages|
      invariant received == Arrived(sender, receiver, messages, size, i)
      invariant connection.pending == Wire(sender, messages, size, i, rest)
    {
      var message := ReceiveNext(sender, receiver, messages, size, i, connection, rest);
      received := received + [message];
    }
  }

  method ReceiveNext(sender: Order, receiver: Order, ghost messages: seq<seq<Byte>>, size: nat, ghost i: nat,
                     connection: Connection, ghost rest: seq<Byte>) returns (message: seq<Byte>)
    requires Sized(messages, size) && i < |messages|
    requires connection.pending == Wire(sender, messages, size, i, rest)
    modifies connection
    ensures message == Converted(receiver, Converted(sender, messages[i]))
    ensures connection.pending == Wire(sender, messages, size, i + 1, rest)
  {
    message := ReceiveOne(sender, receiver, messages[i], size, connection, Wire(sender, messages, size, i + 1, rest));
  }

  /** The first n messages as they are received. */
  function Arrived(sender: Order, receiver: Order, messages: seq<seq<Byte>>, size: nat, n: nat): (r: seq<seq<Byte>>)
    requires Sized(messages, size) && n <= |messages|
    ensures |r| == n
  {
    if n == 0 then [] else
      Arrived(sender, receiver, messages, size, n - 1) + [Converted(receiver, Converted(sender, messages[n - 1]))]
  }

  lemma {:induction false} ArrivedAt(sender: Order, receiver: Order, messages: seq<seq<Byte>>, size: nat, n: nat, i: nat)
    requires Sized(messages, size) && i < n <= |messages|
    ensures Arrived(sender, receiver, messages, size, n)[i] == Converted(receiver, Converted(sender, messages[i]))
  {
    if i < n - 1 {
      ArrivedAt(sender, receiver, messages, size, n - 1, i);
    }
  }

  lemma AllArrive(sender: Order, receiver: Order, messages: seq<seq<Byte>>, received: seq<seq<Byte>>, size: nat)
    requires Sized(messages, size) && received == Arrived(sender, receiver, messages, size, |messages|)
    ensures forall i :: 0 <= i < |messages| ==> received[i] == Converted(receiver, Converted(sender, messages[i]))
    ensures forall i :: 0 <= i < |messages| ==> SameInts(sender, receiver, messages[i], received[i])
    ensures forall i :: 0 <= i < |messages| ==> SameDoubles(sender, receiver, messages[i], received[i])
  {
    forall i | 0 <= i < |messages|
      ensures received[i] == Converted(receiver, Converted(sender, messages[i]))
      ensures SameInts(sender, receiver, messages[i], received[i])
      ensures SameDoubles(sender, receiver, messages[i], received[i])
    {
      ArrivedAt(sender, receiver, messages, size, |messages|, i);
      MessageArrives(sender, receiver, messages[i]);
    }
  }

  lemma MessageArrives(sender: Order, receiver: Order, sent: seq<Byte>)
    requires |sent| % 4 == 0
    ensures SameInts(sender, receiver, sent, Converted(receiver, Converted(sender, sent)))
    ensures SameDoubles(sender, receiver, sent, Converted(receiver, Converted(sender, sent)))
  {
    forall k | 0 <= k && 4 * k <= |sent| - 4
      ensures IntAt(receiver, Converted(receiver, Converted(sender, sent)), k) == IntAt(sender, sent, k)
    {
      IntsArrive(sender, receiver, sent, k);
    }
    forall k: nat, d: seq<Byte> | |d| == 8 && Holds(sent, k, Encoded(sender, d))
      ensures Holds(Converted(receiver, Converted(sender, sent)), k, Encoded(receiver, d))
    {
      DoublesArrive(sender, receiver, sent, k, d);
    }
  }

  /** Every int of the message is the same for the receiver as for the sender. */
  ghost predicate SameInts(sender: Order, receiver: Order, sent: seq<Byte>, received: seq<Byte>) {
    |received| == |sent|
    && forall k :: 0 <= k && 4 * k <= |sent| - 4 ==> IntAt(receiver, received, k) == IntAt(sender, sent, k)
  }

  /** Every double that htond has encoded into the message is, for ntohd on the receiver, the same double. */
  ghost predicate SameDoubles(sender: Order, receiver: Order, sent: seq<Byte>, received: seq<Byte>) {
    forall k: nat, d: seq<Byte> :: |d| == 8 && Holds(sent, k, Encoded(sender, d)) ==> Holds(received, k, Encoded(receiver, d))
  }

  method ReceiveOne(sender: Order, receiver: Order, ghost sent: seq<Byte>, size: nat, connection: Connection,
                    ghost later: seq<Byte>) returns (received: seq<Byte>)
    requires |sent| == size && size % 4 == 0 && size > 0 && connection.pending == Converted(sender, sent) + later
    modifies connection
    ensures received == Converted(receiver, Converted(sender, sent)) && connection.pending == later
  {
    var message := new Byte[size];
    PrefixOff(Converted(sender, sent), later);
    var outcome := RecvRequest(receiver, message, connection);
    assert outcome == Received;
    received := message[..];
  }

  lemma PrefixOff(a: seq<Byte>, b: seq<Byte>)
    ensures (a + b)[..|a|] == a && (a + b)[|a|..] == b
  {
  }

  /** A double of one host through htond, the connection and ntohd to another host, wherever it is put in a message. */
  method SendDouble(sender: Order, receiver: Order, d: seq<Byte>, message: array<Byte>, k: nat, reset: bool)
    returns (double: seq<Byte>)
    requires |d| == 8 && message.Length % 4 == 0 && 4 * k + 8 <= message.Length
    modifies message
    ensures double == HostDouble(receiver, d)
  {
    var net := Htond(sender, HostDouble(sender, d));
    forall i | 0 <= i < 8 {
      message[4 * k + i] := net[i];
    }
    ghost var sent := message[..];
    assert Holds(sent, k, Encoded(sender, d));
    var connection := new Connection(reset);
    SendMessage(sender, message, connection);
    DoublesArrive(sender, receiver, sent, k, d);
    assert connection.pending == Converted(sender, sent) + [];
    var received := ReceiveOne(sender, receiver, sent, message.Length, connection, []);
    double := Ntohd(receiver, received[4 * k..4 * k + 8]);
  }
}

// The client library (src/rpcclient.cpp). rpcCall asks the binder where a procedure
// runs and executes it there; rpcCacheCall keeps, per procedure, the servers the
// binder last listed and tries them in order; rpcTerminate asks the binder to stop
// the system.
// Every socket_create becomes a Link: the descriptor it returned, the results of the
// sends made on it and the reply it delivers. A read past the end of a reply throws
// std::out_of_range, which the library does not catch; the client process ends
// there, and the model says so with a Crashed result.
module Client {
  import opened Ints
  import opened Wrappers
  import opened Constants
  import opened Helpers
  import opened Conversion
  import opened RpcInfo
  import opened BStream
  import opened Protocol

  /** One connection socket_create opened: its descriptor, what its sends accept, the reply it delivers. */
  datatype Link = Link(fd: int, send: nat -> int, reply: Exchange)

  /** Every connection `peers` describes delivers a whole reply. */
  ghost predicate AllDeliver(peers: ServerInfo -> Link)
  {
    forall s :: Delivers(peers(s).reply)
  }

  /** What the application hands rpcCall and rpcCacheCall: the procedure's name (a C string, so without NUL),
      its zero-terminated argument words and the values behind its argument pointers. */
  datatype Call = Call(name: seq<Byte>, words: seq<Int32>, args: seq<ArgValue>)

  /** A call the library can put on the wire: every argument holds what its word announces. */
  predicate Sendable(c: Call)
  {
    0 !in c.name && WireString(c.name) && TypeList(c.words) &&
    ArgsFit(c.words, c.args, TypesLength(c.words) - 1) &&
    |ExecuteRequestPayload(c.name, c.words, c.args)| < TWO31
  }

  /** The location and cache requests are prefixes of the execute request, so they fit a frame too. */
  lemma SendableRequests(c: Call)
    requires Sendable(c)
    ensures |LocationRequestPayload(c.name, c.words)| < TWO31
  {
    ExecuteRequestExtendsLocationRequest(c.name, c.words, c.args);
  }

  // ---------------------------------------------------------------- binder_connect

  /** binder_connect: (status, binder descriptor afterwards). An open descriptor is kept without a new
      connection; otherwise the one socket_create returned (`created`) is stored, negative or not. */
  function Connect(socket: int, created: int): (r: (int, int))
    ensures socket >= 0 ==> r == (0, socket)
    ensures socket < 0 ==> r.1 == created
    ensures r.0 == SUCCESS <==> r.1 >= 0
    ensures r.0 == SUCCESS || r.0 == INIT_BINDER_SOCKET_ERROR
  {
    if socket >= 0 then (0, socket)
    else if created < 0 then (INIT_BINDER_SOCKET_ERROR, created)
    else (0, created)
  }

  // ---------------------------------------------------------------- one execute exchange

  /** What sendExecuteRequest comes to: its status with the words and argument values afterwards,
      or the end of the client process. */
  datatype Executed = Executed(status: int, words: seq<Int32>, args: seq<ArgValue>) | Crashed

  /** How many values processExecuteResponse reads for an output argument: 1 for a scalar, otherwise the
      `short` array length passed on as an `unsigned int`, so that a length of 2^15 or more wraps. */
  function ClientCount(w: Int32): (n: UInt32)
    ensures IsScalar(w) ==> n == 1
    ensures w % TWO16 < TWO15 ==> n == ValueCount(w)
    ensures w % TWO16 >= TWO15 ==> n >= TWO32 - TWO15
  {
    var length := GetArgTypeArrayLength(w);
    if length == 0 then 1 else if length > 0 then length else length + TWO32
  }

  /** processExecuteResponse's loop from argument i to n over cursor p: every argument that ReturnsValues gets
      the next values of the reply in place of its own; every other one is passed over without a read. */
  function OutputsAt(bs: seq<Byte>, p: int, words: seq<Int32>, args: seq<ArgValue>, i: nat, n: nat): (o: Outcome<seq<ArgValue>>)
    requires i <= n <= |words| && n <= |args|
    decreases n - i
  {
    if i == n then Got(args, p)
    else if !ReturnsValues(words[i]) then OutputsAt(bs, p, words, args, i + 1, n)
    else match ValuesAt(bs, p, GetArgType(words[i]), ClientCount(words[i]))
      case OutOfRange(s) => OutOfRange(s)
      case Got(v, q) => OutputsAt(bs, q, words, args[i := v], i + 1, n)
  }

  /** The output loop only writes the slots of output arguments in [i, n): the others keep the caller's values. */
  lemma {:induction false} OutputsAtKeeps(bs: seq<Byte>, p: int, words: seq<Int32>, args: seq<ArgValue>, i: nat, n: nat)
    requires i <= n <= |words| && n <= |args|
    ensures var o := OutputsAt(bs, p, words, args, i, n);
      o.Got? ==> |o.value| == |args| && o.value[n..] == args[n..] && o.value[..i] == args[..i]
    ensures var o := OutputsAt(bs, p, words, args, i, n);
      o.Got? ==> forall k :: i <= k < n && !ReturnsValues(words[k]) ==> o.value[k] == args[k]
    decreases n - i
  {
    if i < n {
      if !ReturnsValues(words[i]) {
        OutputsAtKeeps(bs, p, words, args, i + 1, n);
      } else {
        match ValuesAt(bs, p, GetArgType(words[i]), ClientCount(words[i]))
        case OutOfRange(_) =>
        case Got(v, q) =>
          OutputsAtKeeps(bs, q, words, args[i := v], i + 1, n);
      }
    }
  }

  /** processExecuteResponse from cursor p: the reply's first `count` words over the caller's, then the
      outputs, read by the words as they are after that overwrite. */
  function ResponseAt(bs: seq<Byte>, p: int, words: seq<Int32>, args: seq<ArgValue>, count: nat)
    : (o: Outcome<(seq<Int32>, seq<ArgValue>)>)
    requires 1 <= count <= |words| && count - 1 <= |args|
    ensures o.Got? ==> |o.value.0| == |words| && o.value.0[count..] == words[count..] && |o.value.1| == |args|
  {
    match Int32sAt(bs, p, count)
    case OutOfRange(s) => OutOfRange(s)
    case Got(ws, q) =>
      var words' := ws + words[count..];
      OutputsAtKeeps(bs, q, words', args, 0, count - 1);
      match OutputsAt(bs, q, words', args, 0, count - 1)
      case OutOfRange(s) => OutOfRange(s)
      case Got(args', r) => Got((words', args'), r)
  }

  /** sendExecuteRequest once the request is out: the server's reply decides the status. EXECUTE_FAILURE
      carries the status; any type but EXECUTE_SUCCESS is RECEIVE_INVALID_MESSAGE_TYPE; a reply for another
      name is RECEIVE_INVALID_COMMAND_NAME; otherwise the words and outputs are read back and the status is 0.
      Nothing of the caller's changes unless the status is 0. A payload of 2^31 bytes or more cannot have
      been received: `BinaryStream stream(length)` throws std::length_error first. */
  function ExecuteReply(c: Call, reply: Reception): (r: Executed)
    requires Sendable(c)
    ensures r.Executed? && r.status != SUCCESS ==> r.words == c.words && r.args == c.args
    ensures r.Executed? ==> |r.words| == |c.words| && |r.args| == |c.args|
    ensures reply.Failed? ==> r == Executed(reply.status, c.words, c.args)
    ensures reply.Received? && |reply.payload| >= TWO31 ==> r.Crashed?
  {
    match reply
    case Failed(status) => Executed(status, c.words, c.args)
    case Received(messageType, payload) =>
      if |payload| >= TWO31 then Crashed
      else if messageType == EXECUTE_FAILURE then
        match Int32At(payload, 0)
        case OutOfRange(_) => Crashed
        case Got(code, _) => Executed(code, c.words, c.args)
      else if messageType != EXECUTE_SUCCESS then Executed(RECEIVE_INVALID_MESSAGE_TYPE, c.words, c.args)
      else match StringAt(payload, 0)
        case OutOfRange(_) => Crashed
        case Got(functionName, p) =>
          if CStr(functionName) != c.name then Executed(RECEIVE_INVALID_COMMAND_NAME, c.words, c.args)
          else match ResponseAt(payload, p, c.words, c.args, TypesLength(c.words))
            case OutOfRange(_) => Crashed
            case Got((words, args), _) => Executed(SUCCESS, words, args)
  }

  /** sendExecuteRequest on one connection: a send that does not finish (status not 0) is the result; a
      reply header announcing 2^31 bytes or more ends the process at `BinaryStream stream(length)`;
      otherwise the reply decides it. */
  function Execute(c: Call, link: Link): (r: Executed)
    requires Sendable(c) && Delivers(link.reply)
    ensures r.Executed? && r.status != SUCCESS ==> r.words == c.words && r.args == c.args
    ensures r.Executed? ==> |r.words| == |c.words| && |r.args| == |c.args|
    ensures (Transmit(FrameOf(EXECUTE, ExecuteRequestPayload(c.name, c.words, c.args)), link.send).0 == 0 &&
      Receive(link.reply).Received?) ==> r == ExecuteReply(c, Receive(link.reply))
    ensures HeaderOf(link.reply).Ok? && HeaderOf(link.reply).value.0 >= TWO31 ==> r.Crashed? || r.status != 0
  {
    AllocatedPayload(link.reply);
    var sent := Transmit(FrameOf(EXECUTE, ExecuteRequestPayload(c.name, c.words, c.args)), link.send).0;
    if sent != 0 then Executed(sent, c.words, c.args)
    else if !StreamAllocates(link.reply) then Crashed
    else ExecuteReply(c, Receive(link.reply))
  }

  /** A server's EXECUTE_FAILURE frame reaches the caller as its reason code, with nothing else changed. */
  lemma ExecuteFailureReported(c: Call, code: Int32)
    requires Sendable(c)
    ensures ExecuteReply(c, Received(EXECUTE_FAILURE, CodePayload(code))) == Executed(code, c.words, c.args)
  {
    assert CodePayload(code) == [] + Int32Bytes(code) + [];
    IntsReadBack([], [], 0, code, 0, 0, 0, 0);
  }

  // ---------------------------------------------------------------- reading into the caller's arrays

  /** processExecuteResponse: the reply's words over the caller's `argTypes`, then each output value into
      its argument slot. */
  method ProcessExecuteResponse(stream: BinaryStream, argTypes: array<Int32>, args: array<ArgValue>, count: nat)
    returns (ok: bool)
    requires 1 <= count <= argTypes.Length && count - 1 <= args.Length && count < TWO32
    modifies stream, argTypes, args
    ensures stream.bytes == old(stream.bytes)
    ensures var o := ResponseAt(old(stream.bytes), old(stream.position), old(argTypes[..]), old(args[..]), count);
      ok == o.Got? && (ok ==> argTypes[..] == o.value.0 && args[..] == o.value.1)
  {
    ghost var bs := stream.bytes;
    ghost var words0, args0 := argTypes[..], args[..];
    var got := stream.ReadInt32s(argTypes, count);
    if !got {
      return false;
    }
    ghost var words := argTypes[..];
    assert words == Int32sAt(bs, old(stream.position), count).value + words0[count..] by {
      assert argTypes[..] == argTypes[..count] + argTypes[count..];
    }
    ghost var q := stream.position;
    var i := 0;
    while i < count - 1
      invariant 0 <= i <= count - 1
      invariant stream.bytes == bs && argTypes[..] == words && args.Length == |args0|
      invariant OutputsAt(bs, q, words, args0, 0, count - 1) == OutputsAt(bs, stream.position, words, args[..], i, count - 1)
    {
      var argType := argTypes[i];
      if ReturnsValues(argType) {
        var v := ReadValues(stream, GetArgType(argType), ClientCount(argType));
        if v == None {
          return false;
        }
        args[i] := v.value;
      }
      i := i + 1;
    }
    return true;
  }

  /** sendExecuteRequest: send the request on the connection, receive the reply, act on it. */
  method SendExecuteRequest(link: Link, name: seq<Byte>, argTypes: array<Int32>, args: array<ArgValue>)
    returns (status: int, crashed: bool)
    requires Sendable(Call(name, argTypes[..], args[..])) && Delivers(link.reply)
    modifies argTypes, args
    ensures var r := Execute(Call(name, old(argTypes[..]), old(args[..])), link);
      crashed == r.Crashed? && (r.Executed? ==> status == r.status && argTypes[..] == r.words && args[..] == r.args)
  {
    ghost var c := Call(name, argTypes[..], args[..]);
    var handler := new Protocol(link.fd);
    var wire;
    status, wire := handler.SendExecuteRequest(name, argTypes[..], args[..], link.send);
    if status != 0 {
      return status, false;
    }
    var reply, stream, made := handler.ReceiveSizedReply(link.reply);
    if !made {
      return 0, true;
    }
    if reply.Failed? {
      return reply.status, false;
    }
    AllocatedPayload(link.reply);
    if reply.messageType == EXECUTE_FAILURE {
      var code := stream.ReadInt32();
      if code == None {
        return 0, true;
      }
      return code.value, false;
    }
    if reply.messageType != EXECUTE_SUCCESS {
      return RECEIVE_INVALID_MESSAGE_TYPE, false;
    }
    var count := GetArgTypesLength(argTypes[..]);
    var functionName := stream.ReadString();
    if functionName == None {
      return 0, true;
    }
    if CStr(functionName.value) != name {
      return RECEIVE_INVALID_COMMAND_NAME, false;
    }
    var ok := ProcessExecuteResponse(stream, argTypes, args, count);
    if !ok {
      return 0, true;
    }
    return SUCCESS, false;
  }

  // ---------------------------------------------------------------- sendExecuteToAvailable

  /** sendExecuteToAvailable on values: the services in list order; one whose connection fails is passed
      over; the first execute whose status is 0 ends the scan with 0; -1 when none does. */
  function Failover(c: Call, services: seq<ServerInfo>, peers: ServerInfo -> Link): (r: Executed)
    requires Sendable(c) && AllDeliver(peers)
    ensures r.Executed? ==> r.status == SUCCESS || r == Executed(-1, c.words, c.args)
    decreases |services|
  {
    if services == [] then Executed(-1, c.words, c.args)
    else
      var link := peers(services[0]);
      if link.fd < 0 then Failover(c, services[1..], peers)
      else
        var e := Execute(c, link);
        if e.Crashed? || e.status == SUCCESS then e else Failover(c, services[1..], peers)
  }

  /** The execute on this connection is reached and returns 0. */
  predicate Succeeds(c: Call, link: Link)
    requires Sendable(c) && Delivers(link.reply)
  {
    link.fd >= 0 && Execute(c, link).Executed? && Execute(c, link).status == SUCCESS
  }

  /** No execute the scan can reach ends the client. */
  predicate NoCrash(c: Call, services: seq<ServerInfo>, peers: ServerInfo -> Link)
    requires Sendable(c) && AllDeliver(peers)
  {
    forall k :: 0 <= k < |services| && peers(services[k]).fd >= 0 ==> Execute(c, peers(services[k])).Executed?
  }

  /** The position of the first service whose execute succeeds, or -1 when there is none. */
  function FirstSuccess(c: Call, services: seq<ServerInfo>, peers: ServerInfo -> Link): (j: int)
    requires Sendable(c) && AllDeliver(peers)
    ensures -1 <= j < |services|
    ensures j >= 0 ==> Succeeds(c, peers(services[j]))
    ensures forall k :: 0 <= k < |services| && (j < 0 || k < j) ==> !Succeeds(c, peers(services[k]))
    decreases |services|
  {
    if services == [] then -1
    else if Succeeds(c, peers(services[0])) then 0
    else
      var j := FirstSuccess(c, services[1..], peers);
      assert forall k :: 0 < k < |services| ==> services[k] == services[1..][k - 1];
      if j < 0 then -1 else j + 1
  }

  /** The failover promise: the result is the execute at the first service that succeeds, and -1 with the
      caller's values untouched when no service does. */
  lemma {:induction false} FailoverTakesFirstSuccess(c: Call, services: seq<ServerInfo>, peers: ServerInfo -> Link)
    requires Sendable(c) && AllDeliver(peers) && NoCrash(c, services, peers)
    ensures var j := FirstSuccess(c, services, peers);
      Failover(c, services, peers) == if j < 0 then Executed(-1, c.words, c.args) else Execute(c, peers(services[j]))
    decreases |services|
  {
    if services != [] {
      var rest := services[1..];
      var link := peers(services[0]);
      if Succeeds(c, link) {
        assert FirstSuccess(c, services, peers) == 0;
      } else {
        assert Failover(c, services, peers) == Failover(c, rest, peers) by {
          assert link.fd >= 0 ==> Execute(c, peers(services[0])).Executed?;
        }
        assert NoCrash(c, rest, peers) by {
          forall k | 0 <= k < |rest| && peers(rest[k]).fd >= 0
            ensures Execute(c, peers(rest[k])).Executed?
          {
            assert rest[k] == services[k + 1];
          }
        }
        FailoverTakesFirstSuccess(c, rest, peers);
        var j := FirstSuccess(c, rest, peers);
        assert FirstSuccess(c, services, peers) == if j < 0 then -1 else j + 1;
        assert j >= 0 ==> rest[j] == services[j + 1];
      }
    }
  }

  /** One turn of the failover scan at position i: a service without a connection is passed over, a crash or
      a 0 ends the scan, anything else moves on to the next service. */
  lemma FailoverStep(c: Call, services: seq<ServerInfo>, peers: ServerInfo -> Link, i: nat)
    requires Sendable(c) && AllDeliver(peers) && i < |services|
    ensures var link := peers(services[i]);
      Failover(c, services[i..], peers) ==
        if link.fd < 0 then Failover(c, services[i + 1..], peers)
        else if Execute(c, link).Crashed? || Execute(c, link).status == SUCCESS then Execute(c, link)
        else Failover(c, services[i + 1..], peers)
  {
    assert services[i..][1..] == services[i + 1..];
  }

  /** sendExecuteToAvailable: try each service in turn until one execute returns 0. */
  method SendExecuteToAvailable(name: seq<Byte>, argTypes: array<Int32>, args: array<ArgValue>,
                                services: seq<ServerInfo>, peers: ServerInfo -> Link)
    returns (status: int, crashed: bool)
    requires Sendable(Call(name, argTypes[..], args[..])) && AllDeliver(peers)
    modifies argTypes, args
    ensures var r := Failover(Call(name, old(argTypes[..]), old(args[..])), services, peers);
      crashed == r.Crashed? && (r.Executed? ==> status == r.status && argTypes[..] == r.words && args[..] == r.args)
  {
    ghost var c := Call(name, argTypes[..], args[..]);
    var i := 0;
    while i < |services|
      invariant 0 <= i <= |services|
      invariant argTypes[..] == c.words && args[..] == c.args
      invariant Failover(c, services, peers) == Failover(c, services[i..], peers)
    {
      var link := peers(services[i]);
      FailoverStep(c, services, peers, i);
      if link.fd >= 0 {
        ghost var r := Execute(c, link);
        status, crashed := SendExecuteRequest(link, name, argTypes, args);
        if crashed || status == SUCCESS {
          assert Failover(c, services, peers) == r;
          return;
        }
        assert r.Executed? && r.status != SUCCESS;
        assert argTypes[..] == c.words && args[..] == c.args;
        assert Failover(c, services, peers) == Failover(c, services[i + 1..], peers);
      }
      i := i + 1;
    }
    return -1, false;
  }

  // ---------------------------------------------------------------- processLocationResponse

  /** What processLocationResponse leaves behind: the server's host (as readString returns it, with its
      NUL) and port, a status, or the end of the client process. */
  datatype Located = Located(host: seq<Byte>, port: UInt16) | LocCode(status: int) | LocCrashed

  /** processLocationResponse on the binder's reply: LOC_FAILURE carries the status, any type but
      LOC_SUCCESS is RECEIVE_INVALID_MESSAGE_TYPE, LOC_SUCCESS carries host and port. A payload of 2^31
      bytes or more cannot have been received: `BinaryStream stream(messageSize)` throws first. */
  function LocationReply(reply: Reception): (r: Located)
    ensures reply.Failed? ==> r == LocCode(reply.status)
    ensures reply.Received? && |reply.payload| >= TWO31 ==> r.LocCrashed?
  {
    match reply
    case Failed(status) => LocCode(status)
    case Received(messageType, payload) =>
      if |payload| >= TWO31 then LocCrashed
      else if messageType == LOC_FAILURE then
        match Int32At(payload, 0)
        case OutOfRange(_) => LocCrashed
        case Got(code, _) => LocCode(code)
      else if messageType != LOC_SUCCESS then LocCode(RECEIVE_INVALID_MESSAGE_TYPE)
      else match StringAt(payload, 0)
        case OutOfRange(_) => LocCrashed
        case Got(host, p) =>
          match UInt16At(payload, p)
          case OutOfRange(_) => LocCrashed
          case Got(port, _) => Located(host, port)
  }

  /** The binder's two location replies decode to what it sent: sendLocationResponse's host and port
      (the host with the NUL writeString adds) and sendLocationError's code. */
  lemma LocationReplyRoundTrip(host: seq<Byte>, port: UInt16, code: Int32)
    requires WireString(host) && |LocationResponsePayload(host, port)| < TWO31
    ensures LocationReply(Received(LOC_SUCCESS, LocationResponsePayload(host, port))) == Located(host + [0], port)
    ensures LocationReply(Received(LOC_FAILURE, CodePayload(code))) == LocCode(code)
  {
    var portBytes := Int16Bytes(PortAsShort(port));
    assert LocationResponsePayload(host, port) == [] + StringImage(host) + portBytes;
    StringReadsBack([], host, portBytes);
    assert LocationResponsePayload(host, port) == StringImage(host) + portBytes + [];
    PortAt(StringImage(host), port, []);
    assert CodePayload(code) == [] + Int32Bytes(code) + [];
    IntsReadBack([], [], 0, code, 0, 0, 0, 0);
  }

  /** processLocationResponse on the binder's connection: a header announcing 2^31 bytes or more ends the
      process at `BinaryStream stream(messageSize)`; otherwise the reply received decides. */
  function LocationOf(binder: Exchange): (r: Located)
    requires Delivers(binder)
    ensures Receive(binder).Received? ==> r == LocationReply(Receive(binder))
    ensures HeaderOf(binder).Ok? && HeaderOf(binder).value.0 >= TWO31 ==> r.LocCrashed?
    ensures Receive(binder).Failed? && !r.LocCrashed? ==> r == LocCode(Receive(binder).status)
  {
    AllocatedPayload(binder);
    if StreamAllocates(binder) then LocationReply(Receive(binder)) else LocCrashed
  }

  /** processLocationResponse: receive the binder's reply and decode it. */
  method ProcessLocationResponse(handler: Protocol, binder: Exchange) returns (r: Located)
    requires Delivers(binder)
    ensures r == LocationOf(binder)
  {
    var reply, stream, made := handler.ReceiveSizedReply(binder);
    if !made {
      return LocCrashed;
    }
    AllocatedPayload(binder);
    if reply.Failed? {
      return LocCode(reply.status);
    }
    if reply.messageType == LOC_FAILURE {
      var code := stream.ReadInt32();
      if code == None {
        return LocCrashed;
      }
      return LocCode(code.value);
    }
    if reply.messageType != LOC_SUCCESS {
      return LocCode(RECEIVE_INVALID_MESSAGE_TYPE);
    }
    var host := stream.ReadString();
    if host == None {
      return LocCrashed;
    }
    var port := stream.ReadUInt16();
    if port == None {
      return LocCrashed;
    }
    return Located(host.value, port.value);
  }

  // ---------------------------------------------------------------- rpcCall

  /** What rpcCall comes to: its status, the binder descriptor afterwards and the caller's words and
      values, or the end of the client process. */
  datatype Called = Called(status: int, socket: int, words: seq<Int32>, args: seq<ArgValue>) | CallCrashed

  /** The result of one execute as rpcCall reports it. */
  function Reported(e: Executed, socket: int): (r: Called)
    ensures e.Crashed? <==> r.CallCrashed?
    ensures e.Executed? ==> r == Called(e.status, socket, e.words, e.args)
  {
    match e
    case Crashed => CallCrashed
    case Executed(status, words, args) => Called(status, socket, words, args)
  }

  /** rpcCall on values. `socket` is the binder descriptor before the call and `binder` the binder
      connection (its `fd` is what socket_create returns if binder_connect has to open one); `peers`
      gives the connection socket_create opens to a server, and `unset` is the port an uninitialised
      variable happens to hold. A send status below 0 ends the call, a positive one does not; a location
      status of 0 or more leads to an execute at an empty host. */
  function RemoteCall(socket: int, c: Call, binder: Link, peers: ServerInfo -> Link, unset: UInt16): (r: Called)
    requires Sendable(c) && Delivers(binder.reply) && AllDeliver(peers)
    ensures r.Called? ==> r.socket == Connect(socket, binder.fd).1
    ensures r.Called? && r.status != SUCCESS ==> r.words == c.words && r.args == c.args
  {
    var (connected, fd) := Connect(socket, binder.fd);
    if connected != 0 then Called(connected, fd, c.words, c.args)
    else
      SendableRequests(c);
      var sent := Transmit(FrameOf(LOC_REQUEST, LocationRequestPayload(c.name, c.words)), binder.send).0;
      if sent < 0 then Called(sent, fd, c.words, c.args)
      else match LocationOf(binder.reply)
        case LocCrashed => CallCrashed
        case LocCode(status) =>
          if status < 0 then Called(status, fd, c.words, c.args)
          else Reported(Execute(c, peers(ServerInfo([], unset))), fd)
        case Located(host, port) => Reported(Execute(c, peers(ServerInfo(host, port))), fd)
  }

  /** When the binder names a server, rpcCall is one execute at that server and nothing else: no other
      server is tried. */
  lemma RemoteCallAtLocatedServer(socket: int, c: Call, binder: Link, peers: ServerInfo -> Link, unset: UInt16,
                                  host: seq<Byte>, port: UInt16)
    requires Sendable(c) && Delivers(binder.reply) && AllDeliver(peers) && WireString(host)
    requires |LocationResponsePayload(host, port)| < TWO31
    requires Connect(socket, binder.fd).0 == SUCCESS
    requires |LocationRequestPayload(c.name, c.words)| < TWO31
    requires Transmit(FrameOf(LOC_REQUEST, LocationRequestPayload(c.name, c.words)), binder.send).0 >= 0
    requires Receive(binder.reply) == Received(LOC_SUCCESS, LocationResponsePayload(host, port))
    ensures RemoteCall(socket, c, binder, peers, unset) ==
      Reported(Execute(c, peers(ServerInfo(host + [0], port))), Connect(socket, binder.fd).1)
  {
    LocationReplyRoundTrip(host, port, 0);
  }

  /** When the binder refuses with a negative reason code, rpcCall returns that code and executes nowhere. */
  lemma RemoteCallRefused(socket: int, c: Call, binder: Link, peers: ServerInfo -> Link, unset: UInt16, code: Int32)
    requires Sendable(c) && Delivers(binder.reply) && AllDeliver(peers) && code < 0
    requires Connect(socket, binder.fd).0 == SUCCESS
    requires |LocationRequestPayload(c.name, c.words)| < TWO31
    requires Transmit(FrameOf(LOC_REQUEST, LocationRequestPayload(c.name, c.words)), binder.send).0 >= 0
    requires Receive(binder.reply) == Received(LOC_FAILURE, CodePayload(code))
    ensures RemoteCall(socket, c, binder, peers, unset) == Called(code, Connect(socket, binder.fd).1, c.words, c.args)
  {
    LocationReplyRoundTrip([], 0, code);
  }

  // ---------------------------------------------------------------- processLocationCacheCall

  /** What the cache reply holds: the listed servers, a status, or the end of the client process. */
  datatype Listing = Listed(services: seq<ServerInfo>) | ListCode(status: int) | ListCrashed

  /** processLocationCacheCall's loop: n times a host string and a uint16 port. */
  function ServicesAt(bs: seq<Byte>, p: int, n: nat): (o: Outcome<seq<ServerInfo>>)
    ensures o.Got? ==> |o.value| == n
    decreases n
  {
    if n == 0 then Got([], p)
    else match StringAt(bs, p)
      case OutOfRange(s) => OutOfRange(s)
      case Got(host, q) =>
        match UInt16At(bs, q)
        case OutOfRange(s) => OutOfRange(s)
        case Got(port, next) => Extend([ServerInfo(host, port)], ServicesAt(bs, next, n - 1))
  }

  /** processLocationCacheCall: a uint32 count, then that many servers. */
  function ServiceListAt(bs: seq<Byte>, p: int): (o: Outcome<seq<ServerInfo>>)
  {
    match UInt32At(bs, p)
    case OutOfRange(s) => OutOfRange(s)
    case Got(count, q) => ServicesAt(bs, q, count)
  }

  /** rpcCacheCall on the binder's cache reply: an empty payload is RECEIVE_INVALID_MESSAGE, LOC_CACHE_FAILURE
      carries the status, any type but LOC_CACHE_SUCCESS is RECEIVE_INVALID_MESSAGE_TYPE. The stream is
      BinaryStream(buffer, length), empty for a payload of 2^31 bytes or more. */
  function CacheReply(reply: Reception): (r: Listing)
    ensures reply.Failed? ==> r == ListCode(reply.status)
    ensures reply.Received? && reply.payload == [] ==> r == ListCode(RECEIVE_INVALID_MESSAGE)
    ensures reply.Received? && |reply.payload| >= TWO31 ==>
      r == if reply.messageType == LOC_CACHE_FAILURE || reply.messageType == LOC_CACHE_SUCCESS
           then ListCrashed else ListCode(RECEIVE_INVALID_MESSAGE_TYPE)
  {
    match reply
    case Failed(status) => ListCode(status)
    case Received(messageType, payload) =>
      var bs := StreamOf(payload);
      if payload == [] then ListCode(RECEIVE_INVALID_MESSAGE)
      else if messageType == LOC_CACHE_FAILURE then
        match Int32At(bs, 0)
        case OutOfRange(_) => ListCrashed
        case Got(code, _) => ListCode(code)
      else if messageType != LOC_CACHE_SUCCESS then ListCode(RECEIVE_INVALID_MESSAGE_TYPE)
      else match ServiceListAt(bs, 0)
        case OutOfRange(_) => ListCrashed
        case Got(services, _) => Listed(services)
  }

  /** The servers a client dials for the bindings the binder listed: each host as readString returns it. */
  function Dialled(services: seq<FunctionInfo>): (servers: seq<ServerInfo>)
    ensures |servers| == |services|
  {
    if services == [] then [] else [ServerInfo(services[0].host + [0], services[0].port)] + Dialled(services[1..])
  }

  /** ServicesImage from the front: the first service's host and port, then the others. */
  lemma {:induction false} ServicesImageCons(services: seq<FunctionInfo>)
    requires WireHosts(services) && services != []
    ensures WireHosts(services[1..])
    ensures ServicesImage(services) ==
      ServiceImage(services[0]) + ServicesImage(services[1..])
    decreases |services|
  {
    var n := |services|;
    HostsOfSlice(services, 1, n);
    if n == 1 {
      assert services[..0] == [] && services[1..] == [];
    } else {
      HostsOfSlice(services, 0, n - 1);
      ServicesImageCons(services[..n - 1]);
      ConsStep(services);
    }
  }

  lemma HostsOfSlice(services: seq<FunctionInfo>, i: nat, j: nat)
    requires WireHosts(services) && i <= j <= |services|
    ensures WireHosts(services[i..j])
  {
    forall k | 0 <= k < j - i ensures WireString(services[i..j][k].host) {
      assert services[i..j][k] == services[i + k];
    }
  }

  /** The inductive step of ServicesImageCons: the front of the list without its last service, then that one. */
  lemma ConsStep(services: seq<FunctionInfo>)
    requires WireHosts(services) && |services| > 1
    requires WireHosts(services[..|services| - 1]) && WireHosts(services[1..])
    requires var init := services[..|services| - 1];
      WireHosts(init[1..]) &&
      ServicesImage(init) == ServiceImage(init[0]) + ServicesImage(init[1..])
    ensures ServicesImage(services) ==
      ServiceImage(services[0]) + ServicesImage(services[1..])
  {
    var n := |services|;
    var init, tail, last := services[..n - 1], services[1..], services[n - 1];
    Slices(services);
    var first := ServiceImage(services[0]);
    var middle := ServicesImage(tail[..n - 2]);
    var lastImage := ServiceImage(last);
    assert ServicesImage(services) == ServicesImage(init) + lastImage;
    assert ServicesImage(tail) == middle + lastImage;
    Assoc(first, middle, lastImage);
  }

  /** The same bytes as ServicesImage, laid out from the front as the client reads them. */
  function ListImage(services: seq<FunctionInfo>): (bs: seq<Byte>)
    requires WireHosts(services)
  {
    if services == [] then []
    else
      assert WireString(services[0].host);
      ServiceImage(services[0]) + ListImage(services[1..])
  }

  lemma {:induction false} ListImageIsServicesImage(services: seq<FunctionInfo>)
    requires WireHosts(services)
    ensures ListImage(services) == ServicesImage(services)
    decreases |services|
  {
    if services != [] {
      ServicesImageCons(services);
      ListImageIsServicesImage(services[1..]);
    }
  }

  /** The client's loop reads back every host and port the binder's cache reply wrote. */
  lemma {:induction false} ServicesReadBack(prefix: seq<Byte>, services: seq<FunctionInfo>, rest: seq<Byte>)
    requires WireHosts(services)
    ensures ServicesAt(prefix + ListImage(services) + rest, |prefix|, |services|) ==
      Got(Dialled(services), |prefix + ListImage(services)|)
    decreases |services|
  {
    if services != [] {
      var s := services[0];
      var head := ServiceImage(s);
      var tail := ListImage(services[1..]);
      assert ListImage(services) == head + tail;
      Regroup(prefix, head, tail, rest);
      ServicesReadBack(prefix + head, services[1..], rest);
      ServiceReadBack(prefix, s, tail + rest, |services| - 1);
    }
  }

  /** One host and port read back in front of whatever the rest of the list reads as. */
  lemma ServiceReadBack(prefix: seq<Byte>, s: FunctionInfo, rest: seq<Byte>, n: nat)
    requires WireString(s.host)
    ensures var head := ServiceImage(s);
      ServicesAt(prefix + head + rest, |prefix|, n + 1) ==
      Extend([ServerInfo(s.host + [0], s.port)], ServicesAt(prefix + head + rest, |prefix + head|, n))
  {
    var host, port := StringImage(s.host), Int16Bytes(PortAsShort(s.port));
    var bs := prefix + (host + port) + rest;
    assert bs == prefix + host + (port + rest);
    StringReadsBack(prefix, s.host, port + rest);
    assert bs == (prefix + host) + port + rest;
    PortAt(prefix + host, s.port, rest);
  }

  /** The binder's two cache replies decode to what it sent: sendLocationCacheResponse's list, each host
      with its NUL, and sendLocationCacheError's code. */
  lemma CacheReplyRoundTrip(services: seq<FunctionInfo>, code: Int32)
    requires WireServices(services) && |CacheResponsePayload(services)| < TWO31
    ensures CacheReply(Received(LOC_CACHE_SUCCESS, CacheResponsePayload(services))) == Listed(Dialled(services))
    ensures CacheReply(Received(LOC_CACHE_FAILURE, CodePayload(code))) == ListCode(code)
  {
    ServiceListReadsBack(services);
    assert StreamOf(CacheResponsePayload(services)) == CacheResponsePayload(services);
    assert CodePayload(code) == [] + Int32Bytes(code) + [];
    IntsReadBack([], [], 0, code, 0, 0, 0, 0);
  }

  /** The list half of the round trip: the count, then every service, and nothing after them. */
  lemma ServiceListReadsBack(services: seq<FunctionInfo>)
    requires WireServices(services)
    ensures var payload := CacheResponsePayload(services);
      ServiceListAt(payload, 0) == Got(Dialled(services), |payload|)
  {
    var payload := CacheResponsePayload(services);
    var count := UInt32Bytes(|services|);
    ListImageIsServicesImage(services);
    var list := ListImage(services);
    assert payload == [] + count + list;
    IntsReadBack([], list, 0, 0, 0, 0, |services|, 0);
    assert payload == count + list + [];
    ServicesReadBack(count, services, []);
  }

  /** processLocationCacheCall's loop over the stream. */
  method ReadServices(stream: BinaryStream, count: UInt32) returns (r: Option<seq<ServerInfo>>)
    modifies stream
    ensures stream.bytes == old(stream.bytes)
    ensures var o := ServicesAt(old(stream.bytes), old(stream.position), count);
      r.Some? == o.Got? && (r.Some? ==> r.value == o.value)
  {
    ghost var bs, p0 := stream.bytes, stream.position;
    var list := [];
    var i := 0;
    while i < count
      invariant i <= count && stream.bytes == bs
      invariant ServicesAt(bs, p0, count) == Extend(list, ServicesAt(bs, stream.position, count - i))
    {
      var host := stream.ReadString();
      if host == None {
        return None;
      }
      var port := stream.ReadUInt16();
      if port == None {
        return None;
      }
      ExtendTwice(list, [ServerInfo(host.value, port.value)], ServicesAt(bs, stream.position, count - i - 1));
      list := list + [ServerInfo(host.value, port.value)];
      i := i + 1;
    }
    assert list + [] == list;
    return Some(list);
  }

  // ---------------------------------------------------------------- the execute response layout

  /** Every output argument's array length is below 2^15, so that processExecuteResponse's count does not wrap. */
  predicate ShortLengths(words: seq<Int32>, n: nat)
    requires n <= |words|
  {
    forall k :: 0 <= k < n && ReturnsValues(words[k]) ==> words[k] % TWO16 < TWO15
  }

  /** The caller's values, with those of the output arguments among i..n-1 taken from `theirs`. */
  function MergedFrom(words: seq<Int32>, mine: seq<ArgValue>, theirs: seq<ArgValue>, i: nat, n: nat)
    : (merged: seq<ArgValue>)
    requires n <= |words| && n <= |mine| && n <= |theirs|
    ensures |merged| == |mine|
    ensures forall k :: 0 <= k < |mine| ==>
      merged[k] == if i <= k < n && ReturnsValues(words[k]) then theirs[k] else mine[k]
  {
    seq(|mine|, k requires 0 <= k < |mine| => if i <= k < n && ReturnsValues(words[k]) then theirs[k] else mine[k])
  }

  /** Merging from i is taking argument i's values, if it is an output, then merging from i + 1. */
  lemma MergedStep(words: seq<Int32>, mine: seq<ArgValue>, theirs: seq<ArgValue>, i: nat, n: nat)
    requires i < n <= |words| && n <= |mine| && n <= |theirs|
    ensures MergedFrom(words, mine, theirs, i, n) ==
      if ReturnsValues(words[i]) then MergedFrom(words, mine[i := theirs[i]], theirs, i + 1, n)
      else MergedFrom(words, mine, theirs, i + 1, n)
  {
  }

  /** processExecuteResponse's loop over output values written in order: each output argument gets the
      server's values, every other argument keeps the caller's. */
  lemma {:induction false} OutputsReadBack(prefix: seq<Byte>, words: seq<Int32>, mine: seq<ArgValue>,
                                           theirs: seq<ArgValue>, rest: seq<Byte>, i: nat, n: nat)
    requires i <= n <= |words| && n <= |mine| && ArgsFit(words, theirs, n) && ShortLengths(words, n)
    ensures OutputsAt(prefix + OutputsImage(words, theirs, i, n) + rest, |prefix|, words, mine, i, n) ==
      Got(MergedFrom(words, mine, theirs, i, n), |prefix + OutputsImage(words, theirs, i, n)|)
    decreases n - i, 1
  {
    if i == n {
      assert MergedFrom(words, mine, theirs, i, n) == mine;
    } else if ReturnsValues(words[i]) {
      OutputReadBack(prefix, words, mine, theirs, rest, i, n);
    } else {
      SkippedReadBack(prefix, words, mine, theirs, rest, i, n);
    }
  }

  /** The step of OutputsReadBack at an output argument: its values, then the rest of the loop. */
  lemma {:induction false} OutputReadBack(prefix: seq<Byte>, words: seq<Int32>, mine: seq<ArgValue>,
                                          theirs: seq<ArgValue>, rest: seq<Byte>, i: nat, n: nat)
    requires i < n <= |words| && n <= |mine| && ArgsFit(words, theirs, n) && ShortLengths(words, n)
    requires ReturnsValues(words[i])
    ensures OutputsAt(prefix + OutputsImage(words, theirs, i, n) + rest, |prefix|, words, mine, i, n) ==
      Got(MergedFrom(words, mine, theirs, i, n), |prefix + OutputsImage(words, theirs, i, n)|)
    decreases n - i, 0
  {
    var image := OutputImage(words[i], theirs[i]);
    var later := OutputsImage(words, theirs, i + 1, n);
    assert OutputsImage(words, theirs, i, n) == image + later;
    Regroup(prefix, image, later, rest);
    OutputTaken(prefix, words, mine, theirs, later + rest, i, n);
    OutputsReadBack(prefix + image, words, mine[i := theirs[i]], theirs, rest, i + 1, n);
    MergedStep(words, mine, theirs, i, n);
  }

  /** The step of OutputsReadBack at an argument that returns nothing: the loop carries on where it was. */
  lemma {:induction false} SkippedReadBack(prefix: seq<Byte>, words: seq<Int32>, mine: seq<ArgValue>,
                                           theirs: seq<ArgValue>, rest: seq<Byte>, i: nat, n: nat)
    requires i < n <= |words| && n <= |mine| && ArgsFit(words, theirs, n) && ShortLengths(words, n)
    requires !ReturnsValues(words[i])
    ensures OutputsAt(prefix + OutputsImage(words, theirs, i, n) + rest, |prefix|, words, mine, i, n) ==
      Got(MergedFrom(words, mine, theirs, i, n), |prefix + OutputsImage(words, theirs, i, n)|)
    decreases n - i, 0
  {
    Skipped(prefix + OutputsImage(words, theirs, i + 1, n) + rest, |prefix|, words, mine, theirs, i, n);
    OutputsReadBack(prefix, words, mine, theirs, rest, i + 1, n);
  }

  /** An argument that returns nothing adds no bytes to the response, is passed over when it is read back,
      and keeps the caller's values. */
  lemma Skipped(bs: seq<Byte>, p: int, words: seq<Int32>, mine: seq<ArgValue>, theirs: seq<ArgValue>, i: nat, n: nat)
    requires i < n <= |words| && n <= |mine| && ArgsFit(words, theirs, n) && !ReturnsValues(words[i])
    ensures OutputsImage(words, theirs, i, n) == OutputsImage(words, theirs, i + 1, n)
    ensures OutputsAt(bs, p, words, mine, i, n) == OutputsAt(bs, p, words, mine, i + 1, n)
    ensures MergedFrom(words, mine, theirs, i, n) == MergedFrom(words, mine, theirs, i + 1, n)
  {
    MergedStep(words, mine, theirs, i, n);
  }

  /** An output argument's values read back into its slot, and the loop carries on after them. */
  lemma OutputTaken(prefix: seq<Byte>, words: seq<Int32>, mine: seq<ArgValue>, theirs: seq<ArgValue>,
                    tail: seq<Byte>, i: nat, n: nat)
    requires i < n <= |words| && n <= |mine| && ArgsFit(words, theirs, n) && ShortLengths(words, n)
    requires ReturnsValues(words[i])
    ensures var image := OutputImage(words[i], theirs[i]);
      OutputsAt(prefix + image + tail, |prefix|, words, mine, i, n) ==
      OutputsAt(prefix + image + tail, |prefix + image|, words, mine[i := theirs[i]], i + 1, n)
  {
    var w, v := words[i], theirs[i];
    var image := OutputImage(w, v);
    var bs := prefix + image + tail;
    assert ValueFits(w, v) && image == ArgImage(w, v) && ClientCount(w) == ValueCount(w);
    assert ValuesAt(bs, |prefix|, GetArgType(w), ClientCount(w)) == Got(v, |prefix + image|) by {
      ValuesReadBack(prefix, w, v, tail);
    }
  }

  /** The name a reply carries, read back with its NULs, compares equal under strcmp to the bare name. */
  lemma CStrOfPadded(name: seq<Byte>, pad: seq<Byte>)
    requires 0 !in name && pad != [] && pad[0] == 0
    ensures CStr(name + pad) == name
  {
    var s := name + pad;
    var c := CStr(s);
    assert c == s[..|name|] == name;
  }

  /** With the response laid out as the protocol means it (OutputResponsePayload), the call completes with the
      caller's words, the server's values in every output argument and the caller's own values everywhere else. */
  lemma CorrectedResponseRoundTrip(c: Call, theirs: seq<ArgValue>)
    requires Sendable(c)
    requires ArgsFit(c.words, theirs, TypesLength(c.words) - 1) && ShortLengths(c.words, TypesLength(c.words) - 1)
    requires |OutputResponsePayload(c.name + [0], c.words, theirs)| < TWO31
    ensures WireString(c.name + [0])
    ensures ExecuteReply(c, Received(EXECUTE_SUCCESS, OutputResponsePayload(c.name + [0], c.words, theirs))) ==
      Executed(SUCCESS, c.words, MergedFrom(c.words, c.args, theirs, 0, TypesLength(c.words) - 1))
  {
    assert |c.name| + 2 < TWO31 by {
      assert |ExecuteRequestPayload(c.name, c.words, c.args)| >= |c.name| + 5;
    }
    var payload := OutputResponsePayload(c.name + [0], c.words, theirs);
    CorrectedResponseReads(c.name, c.words, c.args, theirs);
    var count := TypesLength(c.words);
    SuccessReplyReads(c, payload, c.name + [0] + [0], |StringImage(c.name + [0])|,
                      (c.words, MergedFrom(c.words, c.args, theirs, 0, count - 1)), |payload|);
  }

  /** A success reply whose name matches and whose words and values read whole completes the call with them. */
  lemma SuccessReplyReads(c: Call, payload: seq<Byte>, functionName: seq<Byte>, p: int,
                          read: (seq<Int32>, seq<ArgValue>), q: int)
    requires Sendable(c) && |payload| < TWO31
    requires StringAt(payload, 0) == Got(functionName, p) && CStr(functionName) == c.name
    requires ResponseAt(payload, p, c.words, c.args, TypesLength(c.words)) == Got(read, q)
    ensures ExecuteReply(c, Received(EXECUTE_SUCCESS, payload)) == Executed(SUCCESS, read.0, read.1)
  {
  }

  /** The corrected response read back field by field: the name with its extra NUL, then the caller's words and
      the merged values, ending at the end of the payload. */
  lemma CorrectedResponseReads(name: seq<Byte>, words: seq<Int32>, mine: seq<ArgValue>, theirs: seq<ArgValue>)
    requires 0 !in name && |name| + 2 < TWO31 && TypeList(words) && TypesLength(words) - 1 <= |mine|
    requires ArgsFit(words, theirs, TypesLength(words) - 1) && ShortLengths(words, TypesLength(words) - 1)
    ensures var payload := OutputResponsePayload(name + [0], words, theirs);
      var head := StringImage(name + [0]);
      var count := TypesLength(words);
      StringAt(payload, 0) == Got(name + [0] + [0], |head|) && CStr(name + [0] + [0]) == name &&
      ResponseAt(payload, |head|, words, mine, count) == Got((words, MergedFrom(words, mine, theirs, 0, count - 1)), |payload|)
  {
    var count := TypesLength(words);
    var head := StringImage(name + [0]);
    var payload := OutputResponsePayload(name + [0], words, theirs);
    var image, outputs := Int32sImage(words[..count]), OutputsImage(words, theirs, 0, count - 1);
    assert payload == head + (image + outputs) by {
      Assoc(head, image, outputs);
    }
    PaddedNameReads(name, image + outputs);
    ResponseReadsBack(payload, head, words, mine, theirs);
  }

  /** The name a reply carries with its terminator reads back as itself plus one more NUL, and compares equal
      under strcmp to the bare name. */
  lemma PaddedNameReads(name: seq<Byte>, rest: seq<Byte>)
    requires 0 !in name && |name| + 2 < TWO31
    ensures var head := StringImage(name + [0]);
      StringAt(head + rest, 0) == Got(name + [0] + [0], |head|) && CStr(name + [0] + [0]) == name
  {
    var head := StringImage(name + [0]);
    NoPrefix(head, rest);
    StringReadsBack([], name + [0], rest);
    assert name + [0] + [0] == name + [0, 0];
    CStrOfPadded(name, [0, 0]);
  }

  /** The part of the corrected response after the name reads back as the caller's words and the merged values. */
  lemma ResponseReadsBack(payload: seq<Byte>, head: seq<Byte>, words: seq<Int32>, mine: seq<ArgValue>, theirs: seq<ArgValue>)
    requires TypeList(words) && TypesLength(words) - 1 <= |mine|
    requires ArgsFit(words, theirs, TypesLength(words) - 1) && ShortLengths(words, TypesLength(words) - 1)
    requires var count := TypesLength(words);
      payload == head + (Int32sImage(words[..count]) + OutputsImage(words, theirs, 0, count - 1))
    ensures var count := TypesLength(words);
      ResponseAt(payload, |head|, words, mine, count) == Got((words, MergedFrom(words, mine, theirs, 0, count - 1)), |payload|)
  {
    var count := TypesLength(words);
    var image, outputs := Int32sImage(words[..count]), OutputsImage(words, theirs, 0, count - 1);
    assert Int32sAt(payload, |head|, count) == Got(words[..count], |head + image|) by {
      assert payload == head + image + outputs;
      Int32sReadBack(head, words[..count], outputs);
    }
    SplitAt(words, count);
    assert OutputsAt(payload, |head + image|, words, mine, 0, count - 1) ==
      Got(MergedFrom(words, mine, theirs, 0, count - 1), |payload|) by {
      assert payload == head + image + outputs + [];
      OutputsReadBack(head + image, words, mine, theirs, [], 0, count - 1);
    }
  }

  /** sendExecuteResponse as written sends the values of every argument, while processExecuteResponse reads
      values for the output arguments only. For f(in int a, out int b) called with a = 5, a server that sets
      b = 7 returns b = 5 to the caller: the client reads a's value into b.
      The argument words of the counterexample below: an int input, an int output, the terminator. */
  const MisreadWords: seq<Int32> := [ArgWord(true, false, ARG_INT, 0), ArgWord(false, true, ARG_INT, 0), 0]

  lemma MisreadWordsFacts()
    ensures TypesLength(MisreadWords) == 3 && MisreadWords[..3] == MisreadWords
    ensures GetArgType(MisreadWords[0]) == ARG_INT && ValueCount(MisreadWords[0]) == 1 && !ReturnsValues(MisreadWords[0])
    ensures GetArgType(MisreadWords[1]) == ARG_INT && ValueCount(MisreadWords[1]) == 1 && ReturnsValues(MisreadWords[1])
    ensures ClientCount(MisreadWords[1]) == 1
    ensures ArgsFit(MisreadWords, [Ints([5]), Ints([0])], 2) && ArgsFit(MisreadWords, [Ints([5]), Ints([7])], 2)
  {
    var input, output := ArgWord(true, false, ARG_INT, 0), ArgWord(false, true, ARG_INT, 0);
    FieldsOfArgWord(true, false, ARG_INT, 0);
    FieldsOfArgWord(false, true, ARG_INT, 0);
    var words := MisreadWords;
    assert GetArgType(0) == 0;
    assert words[1..] == [output, 0] && words[1..][1..] == [0];
  }

  lemma MisreadCallSendable()
    ensures Sendable(Call([102], MisreadWords, [Ints([5]), Ints([0])]))
  {
    MisreadWordsFacts();
    var words, mine := MisreadWords, [Ints([5]), Ints([0])];
    assert ArgsImage(words, mine, 1) == [] + Int32sImage([5]);
    assert ArgsImage(words, mine, 2) == [] + Int32sImage([5]) + Int32sImage([0]);
    assert |ExecuteRequestPayload([102], words, mine)| == 30;
  }

  /** The server's reply in the counterexample: the name, the three words, then the input's 5 and the output's 7. */
  lemma MisreadPayloadLayout()
    ensures ArgsFit(MisreadWords, [Ints([5]), Ints([7])], 2) && TypesLength(MisreadWords) == 3
    ensures ExecuteResponsePayload([102, 0], MisreadWords, [Ints([5]), Ints([7])]) ==
      StringImage([102, 0]) + Int32sImage(MisreadWords) + (Int32sImage([5]) + Int32sImage([7]))
  {
    MisreadWordsFacts();
    var words, theirs := MisreadWords, [Ints([5]), Ints([7])];
    assert ArgsImage(words, theirs, 1) == [] + Int32sImage([5]);
    assert ArgsImage(words, theirs, 2) == Int32sImage([5]) + Int32sImage([7]);
  }

  /** Reading that reply back the way the client does: the output takes the input's bytes. */
  lemma MisreadResponse(payload: seq<Byte>)
    requires payload == StringImage([102, 0]) + Int32sImage(MisreadWords) + (Int32sImage([5]) + Int32sImage([7]))
    ensures ResponseAt(payload, 7, MisreadWords, [Ints([5]), Ints([0])], 3) ==
      Got((MisreadWords, [Ints([5]), Ints([5])]), 23)
  {
    MisreadWordsFacts();
    var words, mine := MisreadWords, [Ints([5]), Ints([0])];
    var head, wordImage, five, seven := StringImage([102, 0]), Int32sImage(words), Int32sImage([5]), Int32sImage([7]);
    assert Int32sAt(payload, 7, 3) == Got(words, 19) by {
      Int32sReadBack(head, words, five + seven);
    }
    assert words + words[3..] == words;
    assert ValuesAt(payload, 19, ARG_INT, 1) == Got(Ints([5]), 23) by {
      assert ArgImage(words[0], Ints([5])) == five;
      Assoc(head + wordImage, five, seven);
      ValuesReadBack(head + wordImage, words[0], Ints([5]), seven);
    }
    assert mine[1 := Ints([5])] == [Ints([5]), Ints([5])];
  }

  /** The reply as written, read by the client: the output comes back holding the input's 5, not the 7. */
  lemma ResponseMisreadsOutput()
    ensures var input, output := ArgWord(true, false, ARG_INT, 0), ArgWord(false, true, ARG_INT, 0);
      var c := Call([102], [input, output, 0], [Ints([5]), Ints([0])]);
      Sendable(c) &&
      ExecuteReply(c, Received(EXECUTE_SUCCESS, ExecuteResponsePayload([102, 0], c.words, [Ints([5]), Ints([7])]))) ==
        Executed(SUCCESS, c.words, [Ints([5]), Ints([5])])
  {
    MisreadCallSendable();
    MisreadPayloadLayout();
    MisreadReply(ExecuteResponsePayload([102, 0], MisreadWords, [Ints([5]), Ints([7])]));
  }

  /** The client's reading of the counterexample's reply, from its layout. */
  lemma MisreadReply(payload: seq<Byte>)
    requires payload == StringImage([102, 0]) + Int32sImage(MisreadWords) + (Int32sImage([5]) + Int32sImage([7]))
    ensures Sendable(Call([102], MisreadWords, [Ints([5]), Ints([0])]))
    ensures ExecuteReply(Call([102], MisreadWords, [Ints([5]), Ints([0])]), Received(EXECUTE_SUCCESS, payload)) ==
      Executed(SUCCESS, MisreadWords, [Ints([5]), Ints([5])])
  {
    MisreadWordsFacts();
    MisreadCallSendable();
    MisreadName(payload);
    MisreadResponse(payload);
    assert |payload| < TWO31;
    SuccessReplyReads(Call([102], MisreadWords, [Ints([5]), Ints([0])]), payload, [102, 0, 0], 7,
                      (MisreadWords, [Ints([5]), Ints([5])]), 23);
  }

  /** The name at the head of the counterexample's reply reads back as the caller's. */
  lemma MisreadName(payload: seq<Byte>)
    requires payload == StringImage([102, 0]) + Int32sImage(MisreadWords) + (Int32sImage([5]) + Int32sImage([7]))
    ensures StringAt(payload, 0) == Got([102, 0, 0], 7) && CStr([102, 0, 0]) == CStr([102])
  {
    var rest := Int32sImage(MisreadWords) + (Int32sImage([5]) + Int32sImage([7]));
    Assoc(StringImage([102, 0]), Int32sImage(MisreadWords), Int32sImage([5]) + Int32sImage([7]));
    NoPrefix(StringImage([102, 0]), rest);
    StringReadsBack([], [102, 0], rest);
    assert payload == [] + StringImage([102, 0]) + rest;
    assert [102, 0] + [0] == [102, 0, 0];
    CStrOfPadded([102], [0, 0]);
    assert [102] + [0, 0] == [102, 0, 0];
  }

  // ---------------------------------------------------------------- rpcCacheCall

  /** What rpcCacheCall comes to: its status, the cache and binder descriptor afterwards and the caller's
      words and values, or the end of the client process. */
  datatype CacheCalled =
    | CacheCalled(status: int, cache: map<Key, seq<ServerInfo>>, socket: int, words: seq<Int32>, args: seq<ArgValue>)
    | CacheCrashed

  /** The cache key of a call: the `<`-equivalence class of its rpc_info. */
  function CallKey(c: Call): (k: Key)
    requires Sendable(c)
    ensures k.cname == CStr(c.name)
  {
    KeyOf(RpcIdent(c.name, c.words))
  }

  /** rpcCacheCall on values: the cached servers first, by sendExecuteToAvailable; when that does not return 0
      the entry is erased and the binder asked for a fresh list, which is stored and tried in its turn. */
  function CacheCall(cache: map<Key, seq<ServerInfo>>, socket: int, c: Call, binder: Link, peers: ServerInfo -> Link)
    : (r: CacheCalled)
    requires Sendable(c) && Delivers(binder.reply) && AllDeliver(peers)
    ensures r.CacheCalled? ==> r.cache - {CallKey(c)} == cache - {CallKey(c)}
    ensures r.CacheCalled? && r.status != SUCCESS ==> r.words == c.words && r.args == c.args
  {
    var key := CallKey(c);
    if key !in cache then Refresh(cache, socket, c, binder, peers)
    else match Failover(c, cache[key], peers)
      case Crashed => CacheCrashed
      case Executed(status, words, args) =>
        if status == SUCCESS then CacheCalled(SUCCESS, cache, socket, words, args)
        else Refresh(cache, socket, c, binder, peers)
  }

  /** The part of rpcCacheCall after a miss: erase the call's entry, connect, ask the binder for every server of
      the procedure, store the list under the call's key and try it. The cache request's own send status is not
      looked at. */
  function Refresh(cache: map<Key, seq<ServerInfo>>, socket: int, c: Call, binder: Link, peers: ServerInfo -> Link)
    : (r: CacheCalled)
    requires Sendable(c) && Delivers(binder.reply) && AllDeliver(peers)
    ensures r.CacheCalled? ==> r.socket == Connect(socket, binder.fd).1
    ensures r.CacheCalled? ==> r.cache - {CallKey(c)} == cache - {CallKey(c)}
    ensures r.CacheCalled? && CallKey(c) in r.cache ==> CacheReply(Receive(binder.reply)).Listed?
    ensures r.CacheCalled? && r.status != SUCCESS ==> r.words == c.words && r.args == c.args
  {
    var (connected, fd) := Connect(socket, binder.fd);
    if connected != 0 then CacheCalled(connected, cache - {CallKey(c)}, fd, c.words, c.args)
    else AfterListing(cache - {CallKey(c)}, fd, c, CacheReply(Receive(binder.reply)), peers)
  }

  /** Refresh once the binder has answered: its list is stored under the call's key and tried in order. */
  function AfterListing(cache: map<Key, seq<ServerInfo>>, fd: int, c: Call, listing: Listing, peers: ServerInfo -> Link)
    : (r: CacheCalled)
    requires Sendable(c) && AllDeliver(peers)
    ensures r.CacheCalled? ==> r.socket == fd && r.cache - {CallKey(c)} == cache - {CallKey(c)}
    ensures r.CacheCalled? && CallKey(c) in r.cache ==> listing.Listed? || CallKey(c) in cache
    ensures r.CacheCalled? && r.status != SUCCESS ==> r.words == c.words && r.args == c.args
  {
    match listing
    case ListCrashed => CacheCrashed
    case ListCode(status) => CacheCalled(status, cache, fd, c.words, c.args)
    case Listed(services) =>
      match Failover(c, services, peers)
      case Crashed => CacheCrashed
      case Executed(status, words, args) => CacheCalled(status, cache[CallKey(c) := services], fd, words, args)
  }

  /** A cached server that answers settles the call: the first cached server whose execute returns 0 gives the
      result, the cache is kept as it is and the binder is not contacted. */
  lemma CacheHitSkipsBinder(cache: map<Key, seq<ServerInfo>>, socket: int, c: Call, binder: Link, peers: ServerInfo -> Link)
    requires Sendable(c) && Delivers(binder.reply) && AllDeliver(peers)
    requires CallKey(c) in cache && NoCrash(c, cache[CallKey(c)], peers)
    requires FirstSuccess(c, cache[CallKey(c)], peers) >= 0
    ensures var e := Execute(c, peers(cache[CallKey(c)][FirstSuccess(c, cache[CallKey(c)], peers)]));
      e.Executed? && CacheCall(cache, socket, c, binder, peers) == CacheCalled(SUCCESS, cache, socket, e.words, e.args)
  {
    FailoverTakesFirstSuccess(c, cache[CallKey(c)], peers);
  }

  /** When no cached server answers, the binder's list replaces the cache entry and is tried from its start:
      the call gives the execute at the first listed server that succeeds, and -1 when none does. */
  lemma CacheMissAsksBinder(cache: map<Key, seq<ServerInfo>>, socket: int, c: Call, binder: Link, peers: ServerInfo -> Link,
                            bindings: seq<FunctionInfo>)
    requires Sendable(c) && Delivers(binder.reply) && AllDeliver(peers) && WireServices(bindings)
    requires CallKey(c) in cache ==> NoCrash(c, cache[CallKey(c)], peers) && FirstSuccess(c, cache[CallKey(c)], peers) < 0
    requires Connect(socket, binder.fd).0 == SUCCESS
    requires Receive(binder.reply) == Received(LOC_CACHE_SUCCESS, CacheResponsePayload(bindings))
    requires |CacheResponsePayload(bindings)| < TWO31
    requires NoCrash(c, Dialled(bindings), peers)
    ensures var servers := Dialled(bindings);
      var j := FirstSuccess(c, servers, peers);
      var e := if j < 0 then Executed(-1, c.words, c.args) else Execute(c, peers(servers[j]));
      e.Executed? &&
      CacheCall(cache, socket, c, binder, peers) ==
        CacheCalled(e.status, cache[CallKey(c) := servers], Connect(socket, binder.fd).1, e.words, e.args)
  {
    MissAsksBinder(cache, socket, c, binder, peers);
    CacheReplyRoundTrip(bindings, 0);
    ListedTried(cache, Connect(socket, binder.fd).1, c, Dialled(bindings), peers);
  }

  /** With no cached server answering and the binder reachable, the call comes down to the binder's reply. */
  lemma MissAsksBinder(cache: map<Key, seq<ServerInfo>>, socket: int, c: Call, binder: Link, peers: ServerInfo -> Link)
    requires Sendable(c) && Delivers(binder.reply) && AllDeliver(peers)
    requires CallKey(c) in cache ==> NoCrash(c, cache[CallKey(c)], peers) && FirstSuccess(c, cache[CallKey(c)], peers) < 0
    requires Connect(socket, binder.fd).0 == SUCCESS
    ensures CacheCall(cache, socket, c, binder, peers)
      == AfterListing(cache - {CallKey(c)}, Connect(socket, binder.fd).1, c, CacheReply(Receive(binder.reply)), peers)
  {
    if CallKey(c) in cache {
      FailoverTakesFirstSuccess(c, cache[CallKey(c)], peers);
    }
  }

  /** A list from the binder replaces the call's entry and the first of its servers that succeeds answers. */
  lemma ListedTried(cache: map<Key, seq<ServerInfo>>, fd: int, c: Call, servers: seq<ServerInfo>, peers: ServerInfo -> Link)
    requires Sendable(c) && AllDeliver(peers) && NoCrash(c, servers, peers)
    ensures var j := FirstSuccess(c, servers, peers);
      var e := if j < 0 then Executed(-1, c.words, c.args) else Execute(c, peers(servers[j]));
      e.Executed? && AfterListing(cache - {CallKey(c)}, fd, c, Listed(servers), peers)
        == CacheCalled(e.status, cache[CallKey(c) := servers], fd, e.words, e.args)
  {
    FailoverTakesFirstSuccess(c, servers, peers);
    assert (cache - {CallKey(c)})[CallKey(c) := servers] == cache[CallKey(c) := servers];
  }

  /** The failover scenario: of three listed servers the first two cannot be reached and the third answers;
      the call gives the third server's result. */
  lemma ThirdServerAnswers(c: Call, s1: ServerInfo, s2: ServerInfo, s3: ServerInfo, peers: ServerInfo -> Link)
    requires Sendable(c) && AllDeliver(peers)
    requires peers(s1).fd < 0 && peers(s2).fd < 0 && Succeeds(c, peers(s3))
    ensures Failover(c, [s1, s2, s3], peers) == Execute(c, peers(s3))
  {
    var services := [s1, s2, s3];
    assert services[1..] == [s2, s3] && [s2, s3][1..] == [s3];
    assert Failover(c, services, peers) == Failover(c, [s2, s3], peers);
    assert Failover(c, [s2, s3], peers) == Failover(c, [s3], peers);
  }

  // ---------------------------------------------------------------- rpcTerminate

  /** rpcTerminate on values: (status, binder descriptor afterwards). Connect if there is no binder connection,
      then send the empty TERMINATE frame; the status is 0 exactly when a connection exists and the whole
      frame went out. */
  function Terminate(socket: int, binder: Link): (r: (int, int))
    ensures r.1 == Connect(socket, binder.fd).1
    ensures r.0 == SUCCESS <==> r.1 >= 0 && Transmit(FrameOf(TERMINATE, []), binder.send).1 == FrameOf(TERMINATE, [])
  {
    var (connected, fd) := Connect(socket, binder.fd);
    if connected != 0 then (connected, fd) else (Transmit(FrameOf(TERMINATE, []), binder.send).0, fd)
  }

  /** The frame rpcTerminate sends reaches the binder as a TERMINATE with no payload. */
  lemma TerminateReachesBinder(ex: Exchange)
    requires ex.size.peer == FrameOf(TERMINATE, [])[..4] && ex.kind.peer == FrameOf(TERMINATE, [])[4..8]
    requires ex.body.peer == FrameOf(TERMINATE, [])[8..]
    requires Completes(ex.size.recv, 4) && Completes(ex.kind.recv, 4)
    ensures Delivers(ex) && Receive(ex) == Received(TERMINATE, [])
  {
    ReceiveFrame(TERMINATE, [], ex);
  }

  // ---------------------------------------------------------------- the library's state

  /** The client library's two statics: the per-procedure server cache and the binder descriptor. */
  class Client {
    var serviceMap: map<Key, seq<ServerInfo>>
    var binderSocket: int

    /** No servers known, no binder connection. */
    constructor ()
      ensures serviceMap == map[] && binderSocket == -1
    {
      serviceMap := map[];
      binderSocket := -1;
    }

    /** binder_connect; `created` is what socket_create returns if it is called. */
    method BinderConnect(created: int) returns (status: int)
      modifies this
      ensures (status, binderSocket) == Connect(old(binderSocket), created)
      ensures serviceMap == old(serviceMap)
    {
      if binderSocket >= 0 {
        return 0;
      }
      binderSocket := created;
      if binderSocket < 0 {
        return INIT_BINDER_SOCKET_ERROR;
      }
      return 0;
    }

    /** rpcCall. */
    method RpcCall(name: seq<Byte>, argTypes: array<Int32>, args: array<ArgValue>, binder: Link,
                   peers: ServerInfo -> Link, unset: UInt16) returns (status: int, crashed: bool)
      requires Sendable(Call(name, argTypes[..], args[..])) && Delivers(binder.reply) && AllDeliver(peers)
      modifies this, argTypes, args
      ensures serviceMap == old(serviceMap)
      ensures var r := RemoteCall(old(binderSocket), Call(name, old(argTypes[..]), old(args[..])), binder, peers, unset);
        crashed == r.CallCrashed? &&
        (r.Called? ==> status == r.status && binderSocket == r.socket && argTypes[..] == r.words && args[..] == r.args)
    {
      ghost var c := Call(name, argTypes[..], args[..]);
      status := BinderConnect(binder.fd);
      if status != 0 {
        return status, false;
      }
      SendableRequests(c);
      var handler := new Protocol(binderSocket);
      var wire;
      status, wire := handler.SendLocationRequest(name, argTypes[..], binder.send);
      if status < 0 {
        return status, false;
      }
      var located := ProcessLocationResponse(handler, binder.reply);
      var server: ServerInfo;
      match located {
        case LocCrashed =>
          return 0, true;
        case LocCode(code) =>
          if code < 0 {
            return code, false;
          }
          server := ServerInfo([], unset);
        case Located(host, port) =>
          server := ServerInfo(host, port);
      }
      status, crashed := SendExecuteRequest(peers(server), name, argTypes, args);
    }

    /** processLocationCacheCall: read the server list and store it under `key`. */
    method ProcessLocationCacheCall(stream: BinaryStream, key: Key) returns (ok: bool)
      modifies this, stream
      ensures stream.bytes == old(stream.bytes) && binderSocket == old(binderSocket)
      ensures var o := ServiceListAt(old(stream.bytes), old(stream.position));
        ok == o.Got? && serviceMap == if ok then old(serviceMap)[key := o.value] else old(serviceMap)
    {
      var count := stream.ReadUInt32();
      if count == None {
        return false;
      }
      var list := ReadServices(stream, count.value);
      if list == None {
        return false;
      }
      serviceMap := serviceMap[key := list.value];
      return true;
    }

    /** rpcCacheCall. */
    method RpcCacheCall(name: seq<Byte>, argTypes: array<Int32>, args: array<ArgValue>, binder: Link,
                        peers: ServerInfo -> Link) returns (status: int, crashed: bool)
      requires Sendable(Call(name, argTypes[..], args[..])) && Delivers(binder.reply) && AllDeliver(peers)
      modifies this, argTypes, args
      ensures var r := CacheCall(old(serviceMap), old(binderSocket), Call(name, old(argTypes[..]), old(args[..])), binder, peers);
        crashed == r.CacheCrashed? &&
        (r.CacheCalled? ==> status == r.status && serviceMap == r.cache && binderSocket == r.socket &&
                            argTypes[..] == r.words && args[..] == r.args)
    {
      ghost var c := Call(name, argTypes[..], args[..]);
      var key := KeyOf(RpcIdent(name, argTypes[..]));
      if key in serviceMap {
        var service := serviceMap[key];
        status, crashed := SendExecuteToAvailable(name, argTypes, args, service, peers);
        if crashed || status == SUCCESS {
          return;
        }
      }
      status, crashed := RefreshFromBinder(name, argTypes, args, binder, peers);
    }

    /** rpcCacheCall from the erase of the call's entry on. */
    method RefreshFromBinder(name: seq<Byte>, argTypes: array<Int32>, args: array<ArgValue>, binder: Link,
                             peers: ServerInfo -> Link) returns (status: int, crashed: bool)
      requires Sendable(Call(name, argTypes[..], args[..])) && Delivers(binder.reply) && AllDeliver(peers)
      modifies this, argTypes, args
      ensures var r := Refresh(old(serviceMap), old(binderSocket), Call(name, old(argTypes[..]), old(args[..])), binder, peers);
        crashed == r.CacheCrashed? &&
        (r.CacheCalled? ==> status == r.status && serviceMap == r.cache && binderSocket == r.socket &&
                            argTypes[..] == r.words && args[..] == r.args)
    {
      ghost var c := Call(name, argTypes[..], args[..]);
      var key := KeyOf(RpcIdent(name, argTypes[..]));
      serviceMap := serviceMap - {key};
      status := BinderConnect(binder.fd);
      if status != 0 {
        return status, false;
      }
      status, crashed := AskBinder(name, argTypes, args, binder, peers);
    }

    /** rpcCacheCall once connected to the binder: send the cache request, take the reply and try the list. */
    method AskBinder(name: seq<Byte>, argTypes: array<Int32>, args: array<ArgValue>, binder: Link,
                     peers: ServerInfo -> Link) returns (status: int, crashed: bool)
      requires Sendable(Call(name, argTypes[..], args[..])) && Delivers(binder.reply) && AllDeliver(peers)
      modifies this, argTypes, args
      ensures var c := Call(name, old(argTypes[..]), old(args[..]));
        var r := AfterListing(old(serviceMap), old(binderSocket), c, CacheReply(Receive(binder.reply)), peers);
        crashed == r.CacheCrashed? &&
        (r.CacheCalled? ==> status == r.status && serviceMap == r.cache && binderSocket == r.socket &&
                            argTypes[..] == r.words && args[..] == r.args)
    {
      ghost var c := Call(name, argTypes[..], args[..]);
      var key := KeyOf(RpcIdent(name, argTypes[..]));
      SendableRequests(c);
      var handler := new Protocol(binderSocket);
      var sent, wire := handler.SendLocationCacheRequest(name, argTypes[..], binder.send);
      // receiveMessageSize, receiveMessageType, the zero-length check, receiveMessage: a zero-length body
      // always arrives, so checking the length after the body gives the same outcome
      var reply, stream := handler.ReceiveReply(binder.reply);
      var listing := TakeCacheReply(reply, stream, key);
      match listing
      case ListCrashed =>
        return 0, true;
      case ListCode(code) =>
        return code, false;
      case Listed(services) =>
        status, crashed := SendExecuteToAvailable(name, argTypes, args, services, peers);
    }

    /** rpcCacheCall on the binder's cache reply: the checks of the reply, then processLocationCacheCall, which
        stores the list it reads under the call's key. */
    method TakeCacheReply(reply: Reception, stream: BinaryStream, key: Key) returns (listing: Listing)
      requires reply.Received? ==> stream.bytes == StreamOf(reply.payload) && stream.position == 0
      modifies this, stream
      ensures listing == CacheReply(reply) && binderSocket == old(binderSocket)
      ensures serviceMap == if listing.Listed? then old(serviceMap)[key := listing.services] else old(serviceMap)
    {
      if reply.Failed? {
        return ListCode(reply.status);
      }
      if |reply.payload| == 0 {
        return ListCode(RECEIVE_INVALID_MESSAGE);
      }
      if reply.messageType == LOC_CACHE_FAILURE {
        var code := stream.ReadInt32();
        if code == None {
          return ListCrashed;
        }
        return ListCode(code.value);
      }
      if reply.messageType != LOC_CACHE_SUCCESS {
        return ListCode(RECEIVE_INVALID_MESSAGE_TYPE);
      }
      var ok := ProcessLocationCacheCall(stream, key);
      if !ok {
        return ListCrashed;
      }
      return Listed(serviceMap[key]);
    }

    /** rpcTerminate. */
    method RpcTerminate(binder: Link) returns (status: int)
      modifies this
      ensures (status, binderSocket) == Terminate(old(binderSocket), binder)
      ensures serviceMap == old(serviceMap)
    {
      status := 0;
      if binderSocket < 0 {
        status := BinderConnect(binder.fd);
      }
      if status != 0 {
        return;
      }
      var handler := new Protocol(binderSocket);
      var wire;
      status, wire := handler.SendTerminate(binder.send);
    }
  }
}

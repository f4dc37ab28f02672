// Wire messages (src/protocol.cpp). Every message is a frame
//   uint32 payload length | int32 message type | payload
// and each send* fixes one payload layout, built by appending to a BinaryStream.
// The socket is outside the model: the result of the k-th `send` or `recv`
// call an operation makes is the parameter `send(k)` / `recv(k)`, and the bytes
// the peer delivers are the parameter `peer`.
module Protocol {
  import opened Ints
  import opened Wrappers
  import opened Constants
  import opened Helpers
  import opened Conversion
  import opened BStream
  import opened RpcInfo

  /** A string whose writeString count (length + 1) fits in an int32. */
  predicate WireString(s: seq<Byte>)
  {
    |s| + 1 < TWO31
  }

  /** The port, an unsigned short, converted to int16_t for writeInt16. */
  function PortAsShort(port: UInt16): (v: Int16)
    ensures (v - port) % TWO16 == 0
  {
    if port < TWO15 then port else port - TWO16
  }

  /** A type list getArgTypesLength can count: it has its 0 terminator and the count fits an int. */
  predicate TypeList(argTypes: seq<Int32>)
  {
    0 in argTypes && TypesLength(argTypes) < TWO31
  }

  // ---------------------------------------------------------------- argument values

  /** How many values an argument carries: the array length read as an unsigned short, or 1 for a scalar. */
  function ValueCount(w: Int32): (n: nat)
    ensures 1 <= n < TWO16
    ensures IsScalar(w) ==> n == 1
    ensures !IsScalar(w) ==> n == w % TWO16
  {
    var length := GetArgTypeArrayLength(w) % TWO16;
    if length == 0 then 1 else length
  }

  /** The values behind one `args[i]` pointer, by base type. A float or double is carried as the
      decimal text `std::to_string` makes of it; the conversion itself is not modelled. */
  datatype ArgValue =
    | Chars(chars: seq<Byte>)
    | Shorts(shorts: seq<Int16>)
    | Ints(ints: seq<Int32>)
    | Longs(longs: seq<Int64>)
    | Reals(texts: seq<seq<Byte>>)
    | Untyped

  /** `v` holds exactly `n` values of base type `t`; anything fits an unknown base type. */
  predicate Holds(t: int, n: nat, v: ArgValue)
  {
    if t == ARG_CHAR then v.Chars? && |v.chars| == n
    else if t == ARG_SHORT then v.Shorts? && |v.shorts| == n
    else if t == ARG_INT then v.Ints? && |v.ints| == n
    else if t == ARG_LONG then v.Longs? && |v.longs| == n
    else if t == ARG_DOUBLE || t == ARG_FLOAT then
      v.Reals? && |v.texts| == n && forall k :: 0 <= k < n ==> 0 !in v.texts[k]
    else true
  }

  /** `v` holds exactly the values that word `w` says the pointer refers to. */
  predicate ValueFits(w: Int32, v: ArgValue)
  {
    Holds(GetArgType(w), ValueCount(w), v)
  }

  /** Every one of the first n arguments fits its word. */
  predicate ArgsFit(words: seq<Int32>, args: seq<ArgValue>, n: nat)
  {
    n <= |words| && n <= |args| && forall i :: 0 <= i < n ==> ValueFits(words[i], args[i])
  }

  /** The bytes one argument's values take on the wire; nothing for an unknown base type. */
  function ArgImage(w: Int32, v: ArgValue): (bs: seq<Byte>)
    requires ValueFits(w, v)
  {
    var t := GetArgType(w);
    if t == ARG_CHAR then v.chars
    else if t == ARG_SHORT then Int16sImage(v.shorts)
    else if t == ARG_INT then Int32sImage(v.ints)
    else if t == ARG_LONG then Int64sImage(v.longs)
    else if t == ARG_DOUBLE || t == ARG_FLOAT then TextsImage(v.texts)
    else []
  }

  /** The values of the first n arguments, in order. */
  function ArgsImage(words: seq<Int32>, args: seq<ArgValue>, n: nat): (bs: seq<Byte>)
    requires ArgsFit(words, args, n)
  {
    if n == 0 then [] else ArgsImage(words, args, n - 1) + ArgImage(words[n - 1], args[n - 1])
  }

  /** An integer-typed argument takes count * type_sizeof bytes; a float or double is text instead. */
  lemma IntegerArgWidth(w: Int32, v: ArgValue)
    requires ValueFits(w, v)
    requires GetArgType(w) in {ARG_CHAR, ARG_SHORT, ARG_INT, ARG_LONG}
    ensures |ArgImage(w, v)| == ValueCount(w) * TypeSizeof(GetArgType(w))
  {
  }

  /** Reading `n` values of base type `t` into a fresh array, as the readChar/readInt16/readInt32/
      readInt64/readFloat/readDouble calls of the decoders do. */
  function ValuesAt(bs: seq<Byte>, p: int, t: int, n: nat): (o: Outcome<ArgValue>)
    requires IsArgBaseType(t)
    ensures o.Got? ==> Holds(t, n, o.value)
  {
    if t == ARG_CHAR then
      match CharsAt(bs, p, n) case Got(v, q) => Got(Chars(v), q) case OutOfRange(e) => OutOfRange(e)
    else if t == ARG_SHORT then
      match Int16sAt(bs, p, n) case Got(v, q) => Got(Shorts(v), q) case OutOfRange(e) => OutOfRange(e)
    else if t == ARG_INT then
      match Int32sAt(bs, p, n) case Got(v, q) => Got(Ints(v), q) case OutOfRange(e) => OutOfRange(e)
    else if t == ARG_LONG then
      match Int64sAt(bs, p, n) case Got(v, q) => Got(Longs(v), q) case OutOfRange(e) => OutOfRange(e)
    else
      match TextsAt(bs, p, n) case Got(v, q) => Got(Reals(v), q) case OutOfRange(e) => OutOfRange(e)
  }

  /** Reading one argument where its values were written gives them back and moves past them. */
  lemma ValuesReadBack(prefix: seq<Byte>, w: Int32, v: ArgValue, rest: seq<Byte>)
    requires ValueFits(w, v) && IsArgBaseType(GetArgType(w))
    ensures ValuesAt(prefix + ArgImage(w, v) + rest, |prefix|, GetArgType(w), ValueCount(w)) ==
      Got(v, |prefix| + |ArgImage(w, v)|)
  {
    var t := GetArgType(w);
    if t == ARG_CHAR {
      CharsReadBack(prefix, v.chars, rest);
    } else if t == ARG_SHORT {
      Int16sReadBack(prefix, v.shorts, rest);
    } else if t == ARG_INT {
      Int32sReadBack(prefix, v.ints, rest);
    } else if t == ARG_LONG {
      Int64sReadBack(prefix, v.longs, rest);
    } else {
      TextsReadBack(prefix, v.texts, rest);
    }
  }

  // ---------------------------------------------------------------- payloads

  /** sendRegister: host string, port as int16, name string, uint32 count, count words. */
  function RegisterPayload(host: seq<Byte>, port: UInt16, name: seq<Byte>, argTypes: seq<Int32>): (p: seq<Byte>)
    requires WireString(host) && WireString(name) && TypeList(argTypes)
  {
    var count := TypesLength(argTypes);
    StringImage(host) + Int16Bytes(PortAsShort(port)) + StringImage(name) +
    UInt32Bytes(count) + Int32sImage(argTypes[..count])
  }

  /** A payload that is one int32 reason code (register, location, execute and cache replies). */
  function CodePayload(code: Int32): (p: seq<Byte>)
    ensures |p| == 4
  {
    Int32Bytes(code)
  }

  /** sendLocationRequest and sendLocationCacheRequest: name string, uint32 count, count words. */
  function LocationRequestPayload(name: seq<Byte>, argTypes: seq<Int32>): (p: seq<Byte>)
    requires WireString(name) && TypeList(argTypes)
  {
    var count := TypesLength(argTypes);
    StringImage(name) + UInt32Bytes(count) + Int32sImage(argTypes[..count])
  }

  /** sendLocationResponse: host string, port as int16. */
  function LocationResponsePayload(host: seq<Byte>, port: UInt16): (p: seq<Byte>)
    requires WireString(host)
    ensures |p| == |host| + 7
  {
    StringImage(host) + Int16Bytes(PortAsShort(port))
  }

  /** The port goes out through writeInt16 and comes back unchanged through readUInt16. */
  lemma PortBytes(port: UInt16)
    ensures Int16Bytes(PortAsShort(port)) == UInt16Bytes(port)
  {
  }

  /** readUInt16 where a port was written with writeInt16 gives the port back. */
  lemma PortAt(prefix: seq<Byte>, port: UInt16, rest: seq<Byte>)
    ensures UInt16At(prefix + Int16Bytes(PortAsShort(port)) + rest, |prefix|) == Got(port, |prefix| + 2)
  {
    PortBytes(port);
    IntsReadBack(prefix, rest, 0, 0, 0, port, 0, 0);
  }

  /** sendExecuteRequest: name, uint32 count, count words, then the values of every argument. */
  function ExecuteRequestPayload(name: seq<Byte>, argTypes: seq<Int32>, args: seq<ArgValue>): (p: seq<Byte>)
    requires WireString(name) && TypeList(argTypes) && ArgsFit(argTypes, args, TypesLength(argTypes) - 1)
  {
    var count := TypesLength(argTypes);
    StringImage(name) + UInt32Bytes(count) + Int32sImage(argTypes[..count]) +
    ArgsImage(argTypes, args, count - 1)
  }

  /** sendExecuteResponse: as the request but without the count field, so it carries the values of every
      argument, inputs included. */
  function ExecuteResponsePayload(name: seq<Byte>, argTypes: seq<Int32>, args: seq<ArgValue>): (p: seq<Byte>)
    requires WireString(name) && TypeList(argTypes) && ArgsFit(argTypes, args, TypesLength(argTypes) - 1)
    ensures |name| + 5 <= |p|
    ensures ExecuteRequestPayload(name, argTypes, args) == p[..|name| + 5] + UInt32Bytes(TypesLength(argTypes)) + p[|name| + 5..]
  {
    var count := TypesLength(argTypes);
    StringImage(name) + Int32sImage(argTypes[..count]) + ArgsImage(argTypes, args, count - 1)
  }

  /** Whether an argument's values belong in an execute response: an output argument of a known base type. */
  predicate ReturnsValues(w: Int32)
  {
    IsArgTypeOutput(w) && IsArgBaseType(GetArgType(w))
  }

  /** The values of those arguments among i..n-1 that ReturnsValues, in order. */
  function OutputsImage(words: seq<Int32>, args: seq<ArgValue>, i: nat, n: nat): (bs: seq<Byte>)
    requires i <= n && ArgsFit(words, args, n)
    decreases n - i
  {
    if i == n then []
    else (if ReturnsValues(words[i]) then ArgImage(words[i], args[i]) else []) + OutputsImage(words, args, i + 1, n)
  }

  /** One argument's share of an execute response: its values if it returns any, else nothing. */
  function OutputImage(w: Int32, v: ArgValue): (bs: seq<Byte>)
    requires ValueFits(w, v)
  {
    if ReturnsValues(w) then ArgImage(w, v) else []
  }

  /** Writing one more argument extends the output image by that argument's values, if it returns any. */
  lemma {:induction false} OutputsImageSnoc(words: seq<Int32>, args: seq<ArgValue>, j: nat, i: nat)
    requires j <= i && ArgsFit(words, args, i + 1)
    ensures ArgsFit(words, args, i)
    ensures OutputsImage(words, args, j, i + 1) ==
      OutputsImage(words, args, j, i) + OutputImage(words[i], args[i])
    decreases i - j
  {
    if j < i {
      OutputsImageSnoc(words, args, j + 1, i);
    }
  }

  /** The output values are a selection of the argument values: never more bytes, and the same bytes when
      every argument returns values. */
  lemma {:induction false} OutputsWithinArgs(words: seq<Int32>, args: seq<ArgValue>, n: nat)
    requires ArgsFit(words, args, n)
    ensures |OutputsImage(words, args, 0, n)| <= |ArgsImage(words, args, n)|
    ensures (forall i :: 0 <= i < n ==> ReturnsValues(words[i])) ==> OutputsImage(words, args, 0, n) == ArgsImage(words, args, n)
  {
    if n > 0 {
      OutputsImageSnoc(words, args, 0, n - 1);
      OutputsWithinArgs(words, args, n - 1);
    }
  }

  /** The execute response as the protocol means it and as processExecuteResponse reads it:
      name, words, then the values of the output arguments only. */
  function OutputResponsePayload(name: seq<Byte>, argTypes: seq<Int32>, args: seq<ArgValue>): (p: seq<Byte>)
    requires WireString(name) && TypeList(argTypes) && ArgsFit(argTypes, args, TypesLength(argTypes) - 1)
    ensures var head := |name| + 5 + 4 * TypesLength(argTypes);
      head <= |p| <= |ExecuteResponsePayload(name, argTypes, args)| &&
      p[..head] == ExecuteResponsePayload(name, argTypes, args)[..head]
    ensures (forall i :: 0 <= i < TypesLength(argTypes) - 1 ==> ReturnsValues(argTypes[i])) ==>
      p == ExecuteResponsePayload(name, argTypes, args)
  {
    var count := TypesLength(argTypes);
    OutputsWithinArgs(argTypes, args, count - 1);
    StringImage(name) + Int32sImage(argTypes[..count]) + OutputsImage(argTypes, args, 0, count - 1)
  }

  /** Every binding's host can be framed. */
  predicate WireHosts(services: seq<FunctionInfo>)
  {
    forall k :: 0 <= k < |services| ==> WireString(services[k].host)
  }

  predicate WireServices(services: seq<FunctionInfo>)
  {
    |services| < TWO32 && WireHosts(services)
  }

  /** One service in sendLocationCacheResponse: host string and port, laid out as a location reply. */
  function ServiceImage(service: FunctionInfo): (bs: seq<Byte>)
    requires WireString(service.host)
    ensures |bs| == |service.host| + 7
  {
    LocationResponsePayload(service.host, service.port)
  }

  /** The per-service part of sendLocationCacheResponse: host string and port for each, in list order. */
  function ServicesImage(services: seq<FunctionInfo>): (bs: seq<Byte>)
    requires WireHosts(services)
  {
    if services == [] then []
    else
      var last := services[|services| - 1];
      ServicesImage(services[..|services| - 1]) + ServiceImage(last)
  }

  /** sendLocationCacheResponse: uint32 service count, then each service. */
  function CacheResponsePayload(services: seq<FunctionInfo>): (p: seq<Byte>)
    requires WireServices(services)
  {
    UInt32Bytes(|services|) + ServicesImage(services)
  }

  // ---------------------------------------------------------------- frames and the socket loops

  /** sendMessage's stream: uint32 size, int32 type, then `size` bytes of the message
      (none once the size no longer fits writeChar's int count). */
  function Frame(size: UInt32, messageType: Int32, message: seq<Byte>): (f: seq<Byte>)
    requires size <= |message|
  {
    UInt32Bytes(size) + Int32Bytes(messageType) + (if size < TWO31 then message[..size] else [])
  }

  /** A whole payload framed with its own length. */
  function FrameOf(messageType: Int32, payload: seq<Byte>): (f: seq<Byte>)
    requires |payload| < TWO31
    ensures |f| == |payload| + 8
  {
    Frame(|payload|, messageType, payload)
  }

  /** The send loop from call k with `remaining` bytes to go: what sendMessage returns and how many bytes were taken. */
  function SendSteps(send: nat -> int, k: nat, remaining: nat): (r: (int, nat))
    ensures r.1 <= remaining
    ensures r.0 >= 0 ==> r.0 == remaining - r.1
    ensures r.0 == 0 <==> r.1 == remaining
    decreases remaining
  {
    if remaining == 0 then (0, 0)
    else
      var n := send(k);
      if n == 0 then (remaining, 0)
      else if n < 0 then (n, 0)
      else
        var c := if n > remaining then remaining else n;
        var rest := SendSteps(send, k + 1, remaining - c);
        (rest.0, c + rest.1)
  }

  /** What a send of `frame` returns and the prefix of it the socket accepted. */
  function Transmit(frame: seq<Byte>, send: nat -> int): (r: (int, seq<Byte>))
    ensures r.1 <= frame
    ensures r.0 == 0 <==> r.1 == frame
  {
    var steps := SendSteps(send, 0, |frame|);
    (steps.0, frame[..steps.1])
  }

  /** One turn of the receive loop, seen from its start: a failed call fixes the outcome with what has
      arrived so far. */
  lemma RecvStepsFail(recv: nat -> int, k: nat, remaining: nat, got: nat, total: (int, nat))
    requires remaining > 0 && recv(k) <= 0
    requires total == (RecvSteps(recv, k, remaining).0, got + RecvSteps(recv, k, remaining).1)
    ensures total == (if recv(k) == 0 then SOCKET_CONNECTION_ERROR else SOCKET_RECEIVE_ERROR, got)
  {
  }

  /** A successful call moves the c bytes it delivered (at most what is left) into the count. */
  lemma RecvStepsAdvance(recv: nat -> int, k: nat, remaining: nat, got: nat, total: (int, nat), c: nat)
    requires remaining > 0 && recv(k) > 0 && c == (if recv(k) > remaining then remaining else recv(k))
    requires total == (RecvSteps(recv, k, remaining).0, got + RecvSteps(recv, k, remaining).1)
    ensures total == (RecvSteps(recv, k + 1, remaining - c).0, got + c + RecvSteps(recv, k + 1, remaining - c).1)
  {
  }

  /** The receive loop from call k with `remaining` bytes to go: a status and how many bytes arrived. */
  function RecvSteps(recv: nat -> int, k: nat, remaining: nat): (r: (int, nat))
    ensures r.1 <= remaining
    ensures r.0 == SUCCESS || r.0 == SOCKET_CONNECTION_ERROR || r.0 == SOCKET_RECEIVE_ERROR
    ensures r.0 == SUCCESS <==> r.1 == remaining
    decreases remaining
  {
    if remaining == 0 then (SUCCESS, 0)
    else
      var n := recv(k);
      if n == 0 then (SOCKET_CONNECTION_ERROR, 0)
      else if n < 0 then (SOCKET_RECEIVE_ERROR, 0)
      else
        var c := if n > remaining then remaining else n;
        var rest := RecvSteps(recv, k + 1, remaining - c);
        (rest.0, c + rest.1)
  }

  /** The header of a frame gives back its length and type, and the payload follows it unchanged. */
  lemma FrameLayout(messageType: Int32, payload: seq<Byte>)
    requires |payload| < TWO31
    ensures ParseUInt32(FrameOf(messageType, payload)) == |payload|
    ensures ParseInt32(FrameOf(messageType, payload)[4..]) == messageType
    ensures FrameOf(messageType, payload)[8..] == payload
  {
    var f := FrameOf(messageType, payload);
    ParseSerialized32(0, |payload|, Int32Bytes(messageType) + payload);
    assert f == UInt32Bytes(|payload|) + (Int32Bytes(messageType) + payload);
    ParseSerialized32(messageType, 0, payload);
    assert f[4..] == Int32Bytes(messageType) + payload;
  }

  /** One reason-code payload, five message types: the frames differ only in the type field. */
  lemma CodeFramesDifferOnlyInType(code: Int32, t1: Int32, t2: Int32)
    ensures FrameOf(t1, CodePayload(code))[..4] == FrameOf(t2, CodePayload(code))[..4]
    ensures FrameOf(t1, CodePayload(code))[8..] == FrameOf(t2, CodePayload(code))[8..] == Int32Bytes(code)
    ensures FrameOf(t1, CodePayload(code)) == FrameOf(t2, CodePayload(code)) <==> t1 == t2
  {
    var f1, f2 := FrameOf(t1, CodePayload(code)), FrameOf(t2, CodePayload(code));
    FrameLayout(t1, CodePayload(code));
    FrameLayout(t2, CodePayload(code));
    assert f1[..4] == UInt32Bytes(4) == f2[..4];
  }

  /** The location request and the execute request begin alike: name, count, words. */
  lemma ExecuteRequestExtendsLocationRequest(name: seq<Byte>, argTypes: seq<Int32>, args: seq<ArgValue>)
    requires WireString(name) && TypeList(argTypes) && ArgsFit(argTypes, args, TypesLength(argTypes) - 1)
    ensures ExecuteRequestPayload(name, argTypes, args) ==
      LocationRequestPayload(name, argTypes) + ArgsImage(argTypes, args, TypesLength(argTypes) - 1)
  {
  }

  // ---------------------------------------------------------------- receiving a reply

  /** Bytes the socket offers to one receiveMessage: its per-call results and the data those calls deliver. */
  datatype Incoming = Incoming(recv: nat -> int, peer: seq<Byte>)

  /** The three receives a reply takes: the size, the type, then the payload. */
  datatype Exchange = Exchange(size: Incoming, kind: Incoming, body: Incoming)

  /** The peer has four bytes for the size, four for the type and as many payload bytes as the size says. */
  predicate Delivers(ex: Exchange)
  {
    4 <= |ex.size.peer| && 4 <= |ex.kind.peer| && ParseUInt32(ex.size.peer) <= |ex.body.peer|
  }

  /** A receive `recv` carries through to the end of `n` bytes. */
  predicate Completes(recv: nat -> int, n: nat)
  {
    RecvSteps(recv, 0, n).0 == SUCCESS
  }

  /** receiveMessageSize then receiveMessageType: the size and type, or the first failing status. */
  function HeaderOf(ex: Exchange): (r: Result<(UInt32, Int32), int>)
    requires 4 <= |ex.size.peer| && 4 <= |ex.kind.peer|
    ensures r.Err? ==> r.error < 0
    ensures r.Ok? <==> Completes(ex.size.recv, 4) && Completes(ex.kind.recv, 4)
    ensures r.Ok? ==> r.value == (ParseUInt32(ex.size.peer), ParseInt32(ex.kind.peer))
  {
    var sizeRead := RecvSteps(ex.size.recv, 0, 4).0;
    if sizeRead != SUCCESS then Err(sizeRead)
    else
      var typeRead := RecvSteps(ex.kind.recv, 0, 4).0;
      if typeRead != SUCCESS then Err(typeRead)
      else Ok((ParseUInt32(ex.size.peer), ParseInt32(ex.kind.peer)))
  }

  /** What a whole reply comes to. */
  datatype Reception = Received(messageType: Int32, payload: seq<Byte>) | Failed(status: int)

  /** The header, then receiveMessage of the payload; a failed receive gives its (negative) status. */
  function Receive(ex: Exchange): (r: Reception)
    requires Delivers(ex)
    ensures r.Failed? ==> r.status < 0
    ensures r.Received? <==> HeaderOf(ex).Ok? && Completes(ex.body.recv, ParseUInt32(ex.size.peer))
    ensures r.Received? ==> r.messageType == ParseInt32(ex.kind.peer)
    ensures r.Received? ==> r.payload == ex.body.peer[..ParseUInt32(ex.size.peer)]
  {
    match HeaderOf(ex)
    case Err(status) => Failed(status)
    case Ok((size, messageType)) =>
      var bodyRead := RecvSteps(ex.body.recv, 0, size).0;
      if bodyRead != SUCCESS then Failed(bodyRead) else Received(messageType, ex.body.peer[..size])
  }

  /** Whether BinaryStream(size) can be made from the header: a header that fails leaves nothing to
      allocate, and a size below 2^31 is a valid `int` length. */
  predicate StreamAllocates(ex: Exchange)
    requires Delivers(ex)
  {
    HeaderOf(ex).Err? || HeaderOf(ex).value.0 < TWO31
  }

  /** A size that allocates bounds the payload received under it; a larger one is never received. */
  lemma AllocatedPayload(ex: Exchange)
    requires Delivers(ex)
    ensures Receive(ex).Received? ==> (StreamAllocates(ex) <==> |Receive(ex).payload| < TWO31)
  {
  }

  /** A frame delivered by receives that all complete is received as the type and payload it was sent with. */
  lemma ReceiveFrame(messageType: Int32, payload: seq<Byte>, ex: Exchange)
    requires |payload| < TWO31
    requires ex.size.peer == FrameOf(messageType, payload)[..4] && ex.kind.peer == FrameOf(messageType, payload)[4..8]
    requires ex.body.peer == FrameOf(messageType, payload)[8..]
    requires Completes(ex.size.recv, 4) && Completes(ex.kind.recv, 4) && Completes(ex.body.recv, |payload|)
    ensures Delivers(ex) && Receive(ex) == Received(messageType, payload)
  {
    var f := FrameOf(messageType, payload);
    FrameLayout(messageType, payload);
    assert f[..4][..4] == f[..4];
    assert f[4..8][..4] == f[4..][..4];
  }

  /** The peer offers exactly `frame`, cut into its size, its type and its payload, and every receive
      runs to the end. */
  predicate Carries(ex: Exchange, frame: seq<Byte>)
  {
    8 <= |frame| && ex.size.peer == frame[..4] && ex.kind.peer == frame[4..8] && ex.body.peer == frame[8..] &&
    Completes(ex.size.recv, 4) && Completes(ex.kind.recv, 4) && Completes(ex.body.recv, |frame| - 8)
  }

  /** A frame carried whole is received as what was sent. */
  lemma CarriedFrame(messageType: Int32, payload: seq<Byte>, ex: Exchange)
    requires |payload| < TWO31 && Carries(ex, FrameOf(messageType, payload))
    ensures Delivers(ex) && Receive(ex) == Received(messageType, payload)
    ensures HeaderOf(ex) == Ok((|payload|, messageType))
  {
    FrameLayout(messageType, payload);
    ReceiveFrame(messageType, payload, ex);
  }

  // ---------------------------------------------------------------- the protocol object

  class Protocol {
    const sfd: int

    constructor (socketfd: int)
      ensures sfd == socketfd
    {
      sfd := socketfd;
    }

    /** sendMessage: frames the first `messageSize` bytes of `message` and pushes the frame through
        `send` until it is all taken, `send` reports 0 (returns the bytes left) or an error (returned). */
    method SendMessage(messageSize: UInt32, messageType: Int32, message: seq<Byte>, send: nat -> int)
      returns (status: int, wire: seq<Byte>)
      requires messageSize <= |message|
      ensures (status, wire) == Transmit(Frame(messageSize, messageType, message), send)
    {
      var stream := new BinaryStream();
      stream.WriteUInt32(messageSize);
      stream.WriteInt32(messageType);
      stream.WriteChars(message, AsInt(messageSize));
      assert stream.bytes == Frame(messageSize, messageType, message);
      status, wire := SendAll(stream.bytes, send);
    }

    /** The send loop of sendMessage over a built frame. */
    method SendAll(frame: seq<Byte>, send: nat -> int) returns (status: int, wire: seq<Byte>)
      ensures (status, wire) == Transmit(frame, send)
    {
      var bytesRemaining: nat := |frame|;
      var sent: nat := 0;
      var k: nat := 0;
      while bytesRemaining > 0
        invariant sent + bytesRemaining == |frame|
        invariant SendSteps(send, 0, |frame|) == (SendSteps(send, k, bytesRemaining).0, sent + SendSteps(send, k, bytesRemaining).1)
        decreases bytesRemaining
      {
        var bytesRead := send(k);
        if bytesRead == 0 {
          break;
        } else if bytesRead < 0 {
          return bytesRead, frame[..sent];
        }
        var c := if bytesRead > bytesRemaining then bytesRemaining else bytesRead;
        bytesRemaining := bytesRemaining - c;
        sent := sent + c;
        k := k + 1;
      }
      return bytesRemaining, frame[..sent];
    }

    /** receiveMessage: nothing to do for size 0; otherwise clears what is left and receives into it until
        `size` bytes have arrived, a 0 result (connection error) or a negative one (receive error). */
    method ReceiveMessage(size: UInt32, message: array<Byte>, recv: nat -> int, peer: seq<Byte>) returns (status: int)
      requires size <= message.Length && size <= |peer|
      modifies message
      ensures status == RecvSteps(recv, 0, size).0
      ensures var got := RecvSteps(recv, 0, size).1;
        message[..got] == peer[..got] &&
        (size > 0 ==> forall j :: got <= j < size ==> message[j] == 0) &&
        message[size..] == old(message[size..])
      ensures size == 0 ==> message[..] == old(message[..])
    {
      if size == 0 {
        return SUCCESS;
      }
      var bytesRemaining: nat := size;
      var got := 0;
      var k := 0;
      ghost var total := RecvSteps(recv, 0, size);
      ghost var rest := total;
      while bytesRemaining > 0
        invariant got + bytesRemaining == size
        invariant rest == RecvSteps(recv, k, bytesRemaining) && total == (rest.0, got + rest.1)
        invariant message[..got] == peer[..got]
        invariant message[size..] == old(message[size..])
        decreases bytesRemaining
      {
        var bytesRead := ReceiveOnce(message, recv, k, peer, got, size);
        if bytesRead == 0 {
          assert total == (SOCKET_CONNECTION_ERROR, got) by { RecvStepsFail(recv, k, bytesRemaining, got, total); }
          return SOCKET_CONNECTION_ERROR;
        } else if bytesRead < 0 {
          assert total == (SOCKET_RECEIVE_ERROR, got) by { RecvStepsFail(recv, k, bytesRemaining, got, total); }
          return SOCKET_RECEIVE_ERROR;
        }
        var c := if bytesRead > bytesRemaining then bytesRemaining else bytesRead;
        rest := RecvSteps(recv, k + 1, bytesRemaining - c);
        assert total == (rest.0, got + c + rest.1) by { RecvStepsAdvance(recv, k, bytesRemaining, got, total, c); }
        bytesRemaining := bytesRemaining - c;
        got := got + c;
        k := k + 1;
      }
      assert got == size && total == (SUCCESS, size);
      return SUCCESS;
    }

    /** receiveMessageSize: four bytes received and parsed as a uint32. */
    method ReceiveMessageSize(recv: nat -> int, peer: seq<Byte>) returns (r: Result<UInt32, int>)
      requires |peer| >= 4
      ensures RecvSteps(recv, 0, 4).0 == SUCCESS ==> r == Ok(ParseUInt32(peer))
      ensures RecvSteps(recv, 0, 4).0 != SUCCESS ==> r == Err(RecvSteps(recv, 0, 4).0)
    {
      var buffer := new Byte[4];
      var status := ReceiveMessage(4, buffer, recv, peer);
      if status != 0 {
        return Err(status);
      }
      assert buffer[..] == peer[..4];
      return Ok(ParseUInt32(buffer[..]));
    }

    /** receiveMessageType: four bytes received and parsed as an int32. */
    method ReceiveMessageType(recv: nat -> int, peer: seq<Byte>) returns (r: Result<Int32, int>)
      requires |peer| >= 4
      ensures RecvSteps(recv, 0, 4).0 == SUCCESS ==> r == Ok(ParseInt32(peer))
      ensures RecvSteps(recv, 0, 4).0 != SUCCESS ==> r == Err(RecvSteps(recv, 0, 4).0)
    {
      var buffer := new Byte[4];
      var status := ReceiveMessage(4, buffer, recv, peer);
      if status != 0 {
        return Err(status);
      }
      assert buffer[..] == peer[..4];
      return Ok(ParseInt32(buffer[..]));
    }

    /** A whole reply as rpcRegister and rpcCacheCall read one: receiveMessageSize, receiveMessageType, then
        receiveMessage of the payload into a buffer, and BinaryStream(buffer, size) over it; the first
        failing status ends it. */
    method ReceiveReply(ex: Exchange) returns (r: Reception, stream: BinaryStream)
      requires Delivers(ex)
      ensures r == Receive(ex) && fresh(stream) && stream.position == 0
      ensures r.Received? ==> stream.bytes == StreamOf(r.payload)
    {
      stream := new BinaryStream();
      var size := ReceiveMessageSize(ex.size.recv, ex.size.peer);
      if size.Err? {
        return Failed(size.error), stream;
      }
      var kind := ReceiveMessageType(ex.kind.recv, ex.kind.peer);
      if kind.Err? {
        return Failed(kind.error), stream;
      }
      var buffer := new Byte[size.value];
      var status := ReceiveMessage(size.value, buffer, ex.body.recv, ex.body.peer);
      if status != SUCCESS {
        return Failed(status), stream;
      }
      assert buffer[..] == buffer[..size.value] == ex.body.peer[..size.value];
      stream := new BinaryStream.FromBuffer(buffer, AsInt(size.value));
      r := Received(kind.value, buffer[..]);
    }

    /** A whole reply as sendExecuteRequest and processLocationResponse read one: after the header,
        BinaryStream(size) is made before the payload arrives. From 2^31 on its `int` size is negative and
        vector::resize throws std::length_error, which nothing catches: `made` is false and nothing
        more is received. */
    method ReceiveSizedReply(ex: Exchange) returns (r: Reception, stream: BinaryStream, made: bool)
      requires Delivers(ex)
      ensures fresh(stream) && stream.position == 0
      ensures made == StreamAllocates(ex)
      ensures made ==> r == Receive(ex) && (r.Received? ==> stream.bytes == r.payload)
    {
      stream := new BinaryStream();
      var size := ReceiveMessageSize(ex.size.recv, ex.size.peer);
      if size.Err? {
        return Failed(size.error), stream, true;
      }
      var kind := ReceiveMessageType(ex.kind.recv, ex.kind.peer);
      if kind.Err? {
        return Failed(kind.error), stream, true;
      }
      if AsInt(size.value) < 0 {
        return Failed(0), stream, false;
      }
      stream := new BinaryStream.OfSize(size.value);
      var buffer := new Byte[size.value];
      var status := ReceiveMessage(size.value, buffer, ex.body.recv, ex.body.peer);
      if status != SUCCESS {
        return Failed(status), stream, true;
      }
      assert buffer[..] == buffer[..size.value] == ex.body.peer[..size.value];
      stream := new BinaryStream.FromBuffer(buffer, size.value);
      r := Received(kind.value, buffer[..]);
      return r, stream, true;
    }

    // ------------------------------------------------------------ the send* builders

    method SendTerminate(send: nat -> int) returns (status: int, wire: seq<Byte>)
      ensures (status, wire) == Transmit(FrameOf(TERMINATE, []), send)
    {
      status, wire := SendMessage(0, TERMINATE, [], send);
    }

    method SendRegister(host: seq<Byte>, port: UInt16, name: seq<Byte>, argTypes: seq<Int32>, send: nat -> int)
      returns (status: int, wire: seq<Byte>)
      requires WireString(host) && WireString(name) && TypeList(argTypes)
      requires |RegisterPayload(host, port, name, argTypes)| < TWO31
      ensures (status, wire) == Transmit(FrameOf(REGISTER, RegisterPayload(host, port, name, argTypes)), send)
    {
      var count := GetArgTypesLength(argTypes);
      ghost var location := LocationResponsePayload(host, port);
      var stream := new BinaryStream();
      stream.WriteString(host);
      stream.WriteInt16(PortAsShort(port));
      assert stream.bytes == location;
      stream.WriteString(name);
      stream.WriteUInt32(count);
      stream.WriteInt32s(argTypes, count);
      assert stream.bytes == location + StringImage(name) + UInt32Bytes(count) + Int32sImage(argTypes[..count]);
      assert stream.bytes == RegisterPayload(host, port, name, argTypes);
      status, wire := SendMessage(stream.Size(), REGISTER, stream.bytes, send);
    }

    /** The reply frames that carry only a reason code. */
    method SendCode(messageType: Int32, code: Int32, send: nat -> int) returns (status: int, wire: seq<Byte>)
      ensures (status, wire) == Transmit(FrameOf(messageType, CodePayload(code)), send)
    {
      var stream := new BinaryStream();
      stream.WriteInt32(code);
      assert stream.bytes == CodePayload(code);
      status, wire := SendMessage(stream.Size(), messageType, stream.bytes, send);
    }

    method SendRegisterResponse(code: Int32, send: nat -> int) returns (status: int, wire: seq<Byte>)
      ensures (status, wire) == Transmit(FrameOf(REGISTER_SUCCESS, CodePayload(code)), send)
    {
      status, wire := SendCode(REGISTER_SUCCESS, code, send);
    }

    method SendRegisterError(code: Int32, send: nat -> int) returns (status: int, wire: seq<Byte>)
      ensures (status, wire) == Transmit(FrameOf(REGISTER_FAILURE, CodePayload(code)), send)
    {
      status, wire := SendCode(REGISTER_FAILURE, code, send);
    }

    method SendLocationError(code: Int32, send: nat -> int) returns (status: int, wire: seq<Byte>)
      ensures (status, wire) == Transmit(FrameOf(LOC_FAILURE, CodePayload(code)), send)
    {
      status, wire := SendCode(LOC_FAILURE, code, send);
    }

    method SendExecuteError(code: Int32, send: nat -> int) returns (status: int, wire: seq<Byte>)
      ensures (status, wire) == Transmit(FrameOf(EXECUTE_FAILURE, CodePayload(code)), send)
    {
      status, wire := SendCode(EXECUTE_FAILURE, code, send);
    }

    method SendLocationCacheError(code: Int32, send: nat -> int) returns (status: int, wire: seq<Byte>)
      ensures (status, wire) == Transmit(FrameOf(LOC_CACHE_FAILURE, CodePayload(code)), send)
    {
      status, wire := SendCode(LOC_CACHE_FAILURE, code, send);
    }

    /** The name/count/words layout shared by the location and cache requests. */
    method SendNameAndTypes(messageType: Int32, name: seq<Byte>, argTypes: seq<Int32>, send: nat -> int)
      returns (status: int, wire: seq<Byte>)
      requires WireString(name) && TypeList(argTypes) && |LocationRequestPayload(name, argTypes)| < TWO31
      ensures (status, wire) == Transmit(FrameOf(messageType, LocationRequestPayload(name, argTypes)), send)
    {
      var count := GetArgTypesLength(argTypes);
      var stream := new BinaryStream();
      stream.WriteString(name);
      stream.WriteUInt32(count);
      stream.WriteInt32s(argTypes, count);
      assert stream.bytes == LocationRequestPayload(name, argTypes);
      status, wire := SendMessage(stream.Size(), messageType, stream.bytes, send);
    }

    method SendLocationRequest(name: seq<Byte>, argTypes: seq<Int32>, send: nat -> int) returns (status: int, wire: seq<Byte>)
      requires WireString(name) && TypeList(argTypes) && |LocationRequestPayload(name, argTypes)| < TWO31
      ensures (status, wire) == Transmit(FrameOf(LOC_REQUEST, LocationRequestPayload(name, argTypes)), send)
    {
      status, wire := SendNameAndTypes(LOC_REQUEST, name, argTypes, send);
    }

    method SendLocationCacheRequest(name: seq<Byte>, argTypes: seq<Int32>, send: nat -> int) returns (status: int, wire: seq<Byte>)
      requires WireString(name) && TypeList(argTypes) && |LocationRequestPayload(name, argTypes)| < TWO31
      ensures (status, wire) == Transmit(FrameOf(LOC_CACHE_REQUEST, LocationRequestPayload(name, argTypes)), send)
    {
      status, wire := SendNameAndTypes(LOC_CACHE_REQUEST, name, argTypes, send);
    }

    method SendLocationResponse(host: seq<Byte>, port: UInt16, send: nat -> int) returns (status: int, wire: seq<Byte>)
      requires |host| < TWO31 - 8
      ensures (status, wire) == Transmit(FrameOf(LOC_SUCCESS, LocationResponsePayload(host, port)), send)
    {
      var stream := new BinaryStream();
      stream.WriteString(host);
      stream.WriteInt16(PortAsShort(port));
      assert stream.bytes == LocationResponsePayload(host, port);
      status, wire := SendMessage(stream.Size(), LOC_SUCCESS, stream.bytes, send);
    }

    method SendExecuteRequest(name: seq<Byte>, argTypes: seq<Int32>, args: seq<ArgValue>, send: nat -> int)
      returns (status: int, wire: seq<Byte>)
      requires WireString(name) && TypeList(argTypes) && ArgsFit(argTypes, args, TypesLength(argTypes) - 1)
      requires |ExecuteRequestPayload(name, argTypes, args)| < TWO31
      ensures (status, wire) == Transmit(FrameOf(EXECUTE, ExecuteRequestPayload(name, argTypes, args)), send)
    {
      var stream := WriteExecuteRequest(name, argTypes, args);
      status, wire := SendMessage(stream.Size(), EXECUTE, stream.bytes, send);
    }

    method SendExecuteResponse(name: seq<Byte>, argTypes: seq<Int32>, args: seq<ArgValue>, send: nat -> int)
      returns (status: int, wire: seq<Byte>)
      requires WireString(name) && TypeList(argTypes) && ArgsFit(argTypes, args, TypesLength(argTypes) - 1)
      requires |ExecuteResponsePayload(name, argTypes, args)| < TWO31
      ensures (status, wire) == Transmit(FrameOf(EXECUTE_SUCCESS, ExecuteResponsePayload(name, argTypes, args)), send)
    {
      var stream := WriteExecuteResponse(name, argTypes, args);
      status, wire := SendMessage(stream.Size(), EXECUTE_SUCCESS, stream.bytes, send);
    }

    /** sendExecuteResponse with its argument loop writing output values only: the layout
        processExecuteResponse reads. */
    method SendOutputResponse(name: seq<Byte>, argTypes: seq<Int32>, args: seq<ArgValue>, send: nat -> int)
      returns (status: int, wire: seq<Byte>)
      requires WireString(name) && TypeList(argTypes) && ArgsFit(argTypes, args, TypesLength(argTypes) - 1)
      requires |OutputResponsePayload(name, argTypes, args)| < TWO31
      ensures (status, wire) == Transmit(FrameOf(EXECUTE_SUCCESS, OutputResponsePayload(name, argTypes, args)), send)
    {
      var stream := WriteOutputResponse(name, argTypes, args);
      status, wire := SendMessage(stream.Size(), EXECUTE_SUCCESS, stream.bytes, send);
    }

    method SendLocationCacheResponse(services: seq<FunctionInfo>, send: nat -> int) returns (status: int, wire: seq<Byte>)
      requires WireServices(services) && |CacheResponsePayload(services)| < TWO31
      ensures (status, wire) == Transmit(FrameOf(LOC_CACHE_SUCCESS, CacheResponsePayload(services)), send)
    {
      var stream := new BinaryStream();
      stream.WriteUInt32(|services|);
      WriteServices(stream, services);
      assert stream.bytes == CacheResponsePayload(services);
      status, wire := SendMessage(stream.Size(), LOC_CACHE_SUCCESS, stream.bytes, send);
    }
  }

  /** sendLocationCacheResponse's loop: host and port of every service, in list order. */
  method WriteServices(stream: BinaryStream, services: seq<FunctionInfo>)
    requires WireHosts(services)
    modifies stream
    ensures stream.bytes == old(stream.bytes) + ServicesImage(services)
    ensures stream.position == old(stream.position)
  {
    var i := 0;
    while i < |services|
      invariant i <= |services| && WireHosts(services[..i])
      invariant stream.bytes == old(stream.bytes) + ServicesImage(services[..i])
      invariant stream.position == old(stream.position)
    {
      ServicesImageStep(old(stream.bytes), services, i);
      ghost var before := stream.bytes;
      stream.WriteString(services[i].host);
      stream.WriteInt16(PortAsShort(services[i].port));
      assert stream.bytes == before + ServiceImage(services[i]);
      i := i + 1;
    }
    assert services[..i] == services;
  }

  /** Writing one more service extends the image by that service's host and port. */
  lemma ServicesImageStep(written: seq<Byte>, services: seq<FunctionInfo>, i: nat)
    requires WireHosts(services) && i < |services|
    ensures WireHosts(services[..i]) && WireHosts(services[..i + 1]) && WireString(services[i].host)
    ensures written + ServicesImage(services[..i + 1]) ==
      written + ServicesImage(services[..i]) + ServiceImage(services[i])
  {
    assert services[..i + 1][..i] == services[..i];
  }

  /** The body sendExecuteRequest builds: name, count, the words and every argument's values. */
  method WriteExecuteRequest(name: seq<Byte>, argTypes: seq<Int32>, args: seq<ArgValue>) returns (stream: BinaryStream)
    requires WireString(name) && TypeList(argTypes) && ArgsFit(argTypes, args, TypesLength(argTypes) - 1)
    ensures fresh(stream) && stream.bytes == ExecuteRequestPayload(name, argTypes, args)
  {
    var count := GetArgTypesLength(argTypes);
    ghost var values := ArgsImage(argTypes, args, count - 1);
    assert ExecuteRequestPayload(name, argTypes, args) ==
      StringImage(name) + UInt32Bytes(count) + Int32sImage(argTypes[..count]) + values;
    stream := new BinaryStream();
    stream.WriteString(name);
    assert stream.bytes == StringImage(name);
    stream.WriteUInt32(count);
    stream.WriteInt32s(argTypes, count);
    assert stream.bytes == StringImage(name) + UInt32Bytes(count) + Int32sImage(argTypes[..count]);
    WriteArgs(stream, argTypes, args, count - 1);
  }

  /** The body sendExecuteResponse builds: name, the words and every argument's values. */
  method WriteExecuteResponse(name: seq<Byte>, argTypes: seq<Int32>, args: seq<ArgValue>) returns (stream: BinaryStream)
    requires WireString(name) && TypeList(argTypes) && ArgsFit(argTypes, args, TypesLength(argTypes) - 1)
    ensures fresh(stream) && stream.bytes == ExecuteResponsePayload(name, argTypes, args)
  {
    var count := GetArgTypesLength(argTypes);
    ghost var values := ArgsImage(argTypes, args, count - 1);
    assert ExecuteResponsePayload(name, argTypes, args) == StringImage(name) + Int32sImage(argTypes[..count]) + values;
    stream := new BinaryStream();
    stream.WriteString(name);
    assert stream.bytes == StringImage(name);
    stream.WriteInt32s(argTypes, count);
    assert stream.bytes == StringImage(name) + Int32sImage(argTypes[..count]);
    WriteArgs(stream, argTypes, args, count - 1);
  }

  /** The corrected response body: name, the words and the output values only. */
  method WriteOutputResponse(name: seq<Byte>, argTypes: seq<Int32>, args: seq<ArgValue>) returns (stream: BinaryStream)
    requires WireString(name) && TypeList(argTypes) && ArgsFit(argTypes, args, TypesLength(argTypes) - 1)
    ensures fresh(stream) && stream.bytes == OutputResponsePayload(name, argTypes, args)
  {
    var count := GetArgTypesLength(argTypes);
    ghost var outputs := OutputsImage(argTypes, args, 0, count - 1);
    assert OutputResponsePayload(name, argTypes, args) == StringImage(name) + Int32sImage(argTypes[..count]) + outputs;
    stream := new BinaryStream();
    stream.WriteString(name);
    assert stream.bytes == StringImage(name);
    stream.WriteInt32s(argTypes, count);
    assert stream.bytes == StringImage(name) + Int32sImage(argTypes[..count]);
    WriteOutputs(stream, argTypes, args, count - 1);
  }

  /** The argument loop shared by sendExecuteRequest and sendExecuteResponse. */
  method WriteArgs(stream: BinaryStream, argTypes: seq<Int32>, args: seq<ArgValue>, n: nat)
    requires ArgsFit(argTypes, args, n)
    modifies stream
    ensures stream.bytes == old(stream.bytes) + ArgsImage(argTypes, args, n)
    ensures stream.position == old(stream.position)
  {
    var i := 0;
    ghost var written := stream.bytes;
    while i < n
      invariant i <= n && ArgsFit(argTypes, args, i)
      invariant stream.bytes == written + ArgsImage(argTypes, args, i)
      invariant stream.position == old(stream.position)
    {
      ghost var before := stream.bytes;
      WriteArg(stream, argTypes[i], args[i]);
      ArgsImageStep(written, before, stream.bytes, argTypes, args, i, n);
      i := i + 1;
    }
  }

  /** sendExecuteRequest's loop writes one more argument's values after those of the arguments before it. */
  lemma ArgsImageStep(written: seq<Byte>, before: seq<Byte>, after: seq<Byte>, words: seq<Int32>, args: seq<ArgValue>, i: nat, n: nat)
    requires i < n && ArgsFit(words, args, n) && ArgsFit(words, args, i)
    requires before == written + ArgsImage(words, args, i) && after == before + ArgImage(words[i], args[i])
    ensures ArgsFit(words, args, i + 1) && after == written + ArgsImage(words, args, i + 1)
  {
    assert ArgsImage(words, args, i + 1) == ArgsImage(words, args, i) + ArgImage(words[i], args[i]);
    Assoc(written, ArgsImage(words, args, i), ArgImage(words[i], args[i]));
  }

  /** The argument loop of the corrected execute response: output values only. */
  method WriteOutputs(stream: BinaryStream, argTypes: seq<Int32>, args: seq<ArgValue>, n: nat)
    requires ArgsFit(argTypes, args, n)
    modifies stream
    ensures stream.bytes == old(stream.bytes) + OutputsImage(argTypes, args, 0, n)
    ensures stream.position == old(stream.position)
  {
    var i := 0;
    while i < n
      invariant i <= n && ArgsFit(argTypes, args, i)
      invariant stream.bytes == old(stream.bytes) + OutputsImage(argTypes, args, 0, i)
      invariant stream.position == old(stream.position)
    {
      OutputsImageSnoc(argTypes, args, 0, i);
      ghost var before := stream.bytes;
      if ReturnsValues(argTypes[i]) {
        WriteArg(stream, argTypes[i], args[i]);
      } else {
        assert OutputImage(argTypes[i], args[i]) == [];
      }
      assert stream.bytes == before + OutputImage(argTypes[i], args[i]);
      Assoc(old(stream.bytes), OutputsImage(argTypes, args, 0, i), OutputImage(argTypes[i], args[i]));
      i := i + 1;
    }
  }

  /** One argument's values, written by base type as the two send loops do. */
  method WriteArg(stream: BinaryStream, argType: Int32, value: ArgValue)
    requires ValueFits(argType, value)
    modifies stream
    ensures stream.bytes == old(stream.bytes) + ArgImage(argType, value)
    ensures stream.position == old(stream.position)
  {
    var ctype := GetArgType(argType);
    var length := ValueCount(argType);
    if ctype == ARG_CHAR {
      assert value.chars[..length] == value.chars;
      stream.WriteChars(value.chars, length);
    } else if ctype == ARG_SHORT {
      assert value.shorts[..length] == value.shorts;
      stream.WriteInt16s(value.shorts, length);
    } else if ctype == ARG_INT {
      assert value.ints[..length] == value.ints;
      stream.WriteInt32s(value.ints, length);
    } else if ctype == ARG_LONG {
      assert value.longs[..length] == value.longs;
      stream.WriteInt64s(value.longs, length);
    } else if ctype == ARG_DOUBLE || ctype == ARG_FLOAT {
      assert value.texts[..length] == value.texts;
      stream.WriteTexts(value.texts, length);
    }
  }

  /** One argument's values read into a fresh buffer by base type, as the decoders' read switches do
      (a scalar is the one-value case of the array readers). */
  method ReadValues(stream: BinaryStream, t: int, n: UInt32) returns (r: Option<ArgValue>)
    requires IsArgBaseType(t)
    modifies stream
    ensures stream.bytes == old(stream.bytes)
    ensures r.Some? <==> ValuesAt(old(stream.bytes), old(stream.position), t, n).Got?
    ensures r.Some? ==> r.value == ValuesAt(old(stream.bytes), old(stream.position), t, n).value
    ensures r.Some? ==> stream.position == ValuesAt(old(stream.bytes), old(stream.position), t, n).next
  {
    if t == ARG_CHAR {
      var buffer := new Byte[n];
      var ok := stream.ReadChars(buffer, n);
      if !ok { return None; }
      assert buffer[..] == buffer[..n];
      return Some(Chars(buffer[..]));
    } else if t == ARG_SHORT {
      var buffer := new Int16[n];
      var ok := stream.ReadInt16s(buffer, n);
      if !ok { return None; }
      assert buffer[..] == buffer[..n];
      return Some(Shorts(buffer[..]));
    } else if t == ARG_INT {
      var buffer := new Int32[n];
      var ok := stream.ReadInt32s(buffer, n);
      if !ok { return None; }
      assert buffer[..] == buffer[..n];
      return Some(Ints(buffer[..]));
    } else if t == ARG_LONG {
      var buffer := new Int64[n];
      var ok := stream.ReadInt64s(buffer, n);
      if !ok { return None; }
      assert buffer[..] == buffer[..n];
      return Some(Longs(buffer[..]));
    } else {
      var texts := stream.ReadTexts(n);
      if texts == None { return None; }
      return Some(Reals(texts.value));
    }
  }

  /** One turn of receiveMessage's loop: clear what is left of the buffer, make receive call k and, when it
      delivers bytes, store them (at most what is left) after those already received. */
  method ReceiveOnce(message: array<Byte>, recv: nat -> int, k: nat, peer: seq<Byte>, got: nat, size: nat)
    returns (bytesRead: int)
    requires got < size <= message.Length && size <= |peer| && message[..got] == peer[..got]
    modifies message
    ensures bytesRead == recv(k) && message[size..] == old(message[size..])
    ensures bytesRead <= 0 ==> message[..got] == peer[..got] && forall j :: got <= j < size ==> message[j] == 0
    ensures bytesRead > 0 ==>
      var c := if bytesRead > size - got then size - got else bytesRead;
      message[..got + c] == peer[..got + c]
  {
    Clear(message, got, size);
    bytesRead := recv(k);
    if bytesRead > 0 {
      var c := if bytesRead > size - got then size - got else bytesRead;
      Fill(message, peer, got, got + c, size);
    }
  }

  /** Overwrites message[from..to] with zeros (the memset before each recv). */
  method Clear(message: array<Byte>, from: nat, to: nat)
    requires from <= to <= message.Length
    modifies message
    ensures message[..from] == old(message[..from]) && message[to..] == old(message[to..])
    ensures forall j :: from <= j < to ==> message[j] == 0
  {
    var j := from;
    while j < to
      invariant from <= j <= to
      invariant message[..from] == old(message[..from]) && message[to..] == old(message[to..])
      invariant forall i :: from <= i < j ==> message[i] == 0
    {
      message[j] := 0;
      j := j + 1;
    }
  }

  /** Stores the bytes a recv delivered, peer[from..to], after the ones already received, leaving the
      buffer from `end` on as it was. */
  method Fill(message: array<Byte>, peer: seq<Byte>, from: nat, to: nat, end: nat)
    requires from <= to <= end <= message.Length && to <= |peer|
    requires message[..from] == peer[..from]
    modifies message
    ensures message[..to] == peer[..to] && message[end..] == old(message[end..])
  {
    var j := from;
    while j < to
      invariant from <= j <= to
      invariant message[..j] == peer[..j] && message[end..] == old(message[end..])
    {
      message[j] := peer[j];
      j := j + 1;
    }
  }

}

// The server library (src/rpcserver.cpp). rpcRegister announces a procedure to the binder and, once the
// binder accepts it, files the procedure's skeleton under the procedure's identity; rpcExecute serves:
// every EXECUTE message is decoded, run through the skeleton filed under its identity and answered, and a
// TERMINATE from the binder ends the serving, after which every connection still being served is told so.
// Sockets are Links and Exchanges as in the client. A skeleton is an opaque handle; running one is the
// parameter `run`, which gives the skeleton's result and the argument values it leaves behind.
module Server {
  import opened Ints
  import opened Wrappers
  import opened Constants
  import opened Helpers
  import opened Conversion
  import opened RpcInfo
  import opened BStream
  import opened Protocol
  import Client
  import Binder

  /** A registered skeleton: a handle standing for the function pointer. */
  type Skeleton = nat

  /** A thread of the thread pool, as pthread_create names it. */
  type ThreadId = int

  /** Calling a skeleton on (argTypes, args): its int result and the argument values it leaves behind. */
  type Runner = (Skeleton, seq<Int32>, seq<ArgValue>) -> (Int32, seq<ArgValue>)

  // ---------------------------------------------------------------- rpcRegister

  /** What rpcRegister comes to: its status and the skeleton map afterwards, or the end of the server
      process (a read past the end of the binder's reply throws std::out_of_range, which nothing catches). */
  datatype Registration = Registration(status: int, skeletons: map<Key, Skeleton>) | RegisterCrashed

  /** rpcRegister once its request is out: REGISTER_SUCCESS files the skeleton under `key` and returns the
      binder's code, REGISTER_FAILURE returns the code and files nothing, any other type is
      RECEIVE_INVALID_MESSAGE_TYPE, and a failed receive returns its status. The stream is
      BinaryStream(msg, msgSize), empty for a payload of 2^31 bytes or more. */
  function RegisterReply(skeletons: map<Key, Skeleton>, key: Key, skeleton: Skeleton, reply: Reception): (r: Registration)
    ensures reply.Failed? ==> r == Registration(reply.status, skeletons)
    ensures r.Registration? && r.skeletons != skeletons ==>
      reply.Received? && reply.messageType == REGISTER_SUCCESS && r.skeletons == skeletons[key := skeleton]
    ensures reply.Received? && reply.messageType != REGISTER_SUCCESS && reply.messageType != REGISTER_FAILURE ==>
      r == Registration(RECEIVE_INVALID_MESSAGE_TYPE, skeletons)
    ensures r.RegisterCrashed? <==>
      reply.Received? && (reply.messageType == REGISTER_SUCCESS || reply.messageType == REGISTER_FAILURE) &&
      (|reply.payload| < 4 || |reply.payload| >= TWO31)
  {
    match reply
    case Failed(status) => Registration(status, skeletons)
    case Received(messageType, payload) =>
      var bs := StreamOf(payload);
      if messageType == REGISTER_SUCCESS then
        match Int32At(bs, 0)
        case OutOfRange(_) => RegisterCrashed
        case Got(code, _) => Registration(code, skeletons[key := skeleton])
      else if messageType == REGISTER_FAILURE then
        match Int32At(bs, 0)
        case OutOfRange(_) => RegisterCrashed
        case Got(code, _) => Registration(code, skeletons)
      else Registration(RECEIVE_INVALID_MESSAGE_TYPE, skeletons)
  }

  /** The two answers the binder gives are read back as their codes; only REGISTER_SUCCESS files the skeleton. */
  lemma RegisterReplyRoundTrip(skeletons: map<Key, Skeleton>, key: Key, skeleton: Skeleton, code: Int32)
    ensures RegisterReply(skeletons, key, skeleton, Received(REGISTER_SUCCESS, CodePayload(code))) ==
      Registration(code, skeletons[key := skeleton])
    ensures RegisterReply(skeletons, key, skeleton, Received(REGISTER_FAILURE, CodePayload(code))) ==
      Registration(code, skeletons)
  {
    assert CodePayload(code) == [] + Int32Bytes(code) + [];
    IntsReadBack([], [], 0, code, 0, 0, 0, 0);
  }

  /** A request rpcRegister can put on the wire: a C-string name, a zero-terminated word list, and a
      payload that fits a frame. */
  predicate Announceable(host: seq<Byte>, port: UInt16, name: seq<Byte>, argTypes: seq<Int32>)
  {
    0 !in name && WireString(host) && WireString(name) && TypeList(argTypes) &&
    |RegisterPayload(host, port, name, argTypes)| < TWO31
  }

  /** rpcRegister on values: sendRegister with this server's host and port; a negative send status is the
      result; otherwise the binder's reply decides, the skeleton going under the identity's key. */
  function Register(skeletons: map<Key, Skeleton>, host: seq<Byte>, port: UInt16, name: seq<Byte>,
                    argTypes: seq<Int32>, skeleton: Skeleton, binder: Client.Link): (r: Registration)
    requires Announceable(host, port, name, argTypes) && Delivers(binder.reply)
    ensures r.Registration? ==> r.skeletons - {KeyOf(RpcIdent(name, argTypes))} == skeletons - {KeyOf(RpcIdent(name, argTypes))}
    ensures Transmit(FrameOf(REGISTER, RegisterPayload(host, port, name, argTypes)), binder.send).0 < 0 ==>
      r == Registration(Transmit(FrameOf(REGISTER, RegisterPayload(host, port, name, argTypes)), binder.send).0, skeletons)
  {
    var sent := Transmit(FrameOf(REGISTER, RegisterPayload(host, port, name, argTypes)), binder.send).0;
    if sent < 0 then Registration(sent, skeletons)
    else RegisterReply(skeletons, KeyOf(RpcIdent(name, argTypes)), skeleton, Receive(binder.reply))
  }

  /** Registration with the binder end to end: when the register frame goes out whole and the binder's answer
      to it comes back whole, the skeleton is filed under the key of the identity that clients look up, and
      the status is SUCCESS or FUNCTION_OVERRIDDEN. */
  lemma RegisterWithBinder(reg: Binder.Registry, fd: int, skeletons: map<Key, Skeleton>, host: seq<Byte>, port: UInt16,
                           name: seq<Byte>, argTypes: seq<Int32>, skeleton: Skeleton, binder: Client.Link)
    requires Binder.RegistryValid(reg) && Announceable(host, port, name, argTypes)
    requires Transmit(FrameOf(REGISTER, RegisterPayload(host, port, name, argTypes)), binder.send).0 == SUCCESS
    requires var answer := Binder.RegisterHandled(reg, RegisterPayload(host, port, name, argTypes), fd).1;
      answer.Send? && Carries(binder.reply, answer.frame)
    ensures Delivers(binder.reply)
    ensures var r := Register(skeletons, host, port, name, argTypes, skeleton, binder);
      r.Registration? && (r.status == SUCCESS || r.status == FUNCTION_OVERRIDDEN) &&
      r.skeletons == skeletons[KeyOf(RpcIdent(name, argTypes)) := skeleton]
  {
    var payload := RegisterPayload(host, port, name, argTypes);
    Binder.RegisterReplyCodes(reg, payload, fd);
    var key := KeyOf(RpcIdent(name, argTypes));
    var code: Int32 := if Binder.RegisterHandled(reg, payload, fd).1.frame == FrameOf(REGISTER_SUCCESS, CodePayload(SUCCESS))
      then SUCCESS else FUNCTION_OVERRIDDEN;
    assert Binder.RegisterHandled(reg, payload, fd).1.frame == FrameOf(REGISTER_SUCCESS, CodePayload(code));
    CarriedFrame(REGISTER_SUCCESS, CodePayload(code), binder.reply);
    RegisterReplyRoundTrip(skeletons, key, skeleton, code);
  }

  // ---------------------------------------------------------------- handleRequest

  /** What handleRequest does with one readable connection. */
  datatype Handling =
    | Dropped                      // cleared from the master set and closed; handleRequest returns 0
    | Stopped                      // a TERMINATE from the binder; handleRequest returns -1
    | Spawned(payload: seq<Byte>)  // a thread is started on the EXECUTE payload; handleRequest returns 0

  /** handleRequest: a failed size or type receive drops the connection; TERMINATE stops the server only on
      the binder's connection; any other type but EXECUTE drops the connection, as does a failed payload
      receive; an EXECUTE payload received whole goes to a new thread. */
  function RequestHandled(fd: int, binderfd: int, ex: Exchange): (h: Handling)
    requires Delivers(ex)
    ensures h.Stopped? <==> fd == binderfd && HeaderOf(ex).Ok? && HeaderOf(ex).value.1 == TERMINATE
    ensures !h.Stopped? ==> (h.Spawned? <==> Receive(ex).Received? && Receive(ex).messageType == EXECUTE)
    ensures h.Spawned? ==> h.payload == Receive(ex).payload
  {
    match HeaderOf(ex)
    case Err(_) => Dropped
    case Ok((_, messageType)) =>
      if fd == binderfd && messageType == TERMINATE then Stopped
      else if messageType != EXECUTE then Dropped
      else match Receive(ex)
        case Failed(_) => Dropped
        case Received(_, payload) => Spawned(payload)
  }

  /** The binder's shutdown notice (the empty TERMINATE frame) stops the server on the binder's connection
      and only drops any other connection it arrives on. */
  lemma BinderNoticeStops(fd: int, binderfd: int, ex: Exchange)
    requires Carries(ex, FrameOf(TERMINATE, []))
    ensures Delivers(ex)
    ensures RequestHandled(fd, binderfd, ex) == if fd == binderfd then Stopped else Dropped
  {
    CarriedFrame(TERMINATE, [], ex);
  }

  /** A client's execute request, carried whole, is handed to a thread as the payload the client wrote. */
  lemma ExecuteRequestSpawns(c: Client.Call, fd: int, binderfd: int, ex: Exchange)
    requires Client.Sendable(c) && Carries(ex, FrameOf(EXECUTE, ExecuteRequestPayload(c.name, c.words, c.args)))
    ensures Delivers(ex)
    ensures RequestHandled(fd, binderfd, ex) == Spawned(ExecuteRequestPayload(c.name, c.words, c.args))
  {
    CarriedFrame(EXECUTE, ExecuteRequestPayload(c.name, c.words, c.args), ex);
  }

  // ---------------------------------------------------------------- thread_exec: decoding the request

  /** thread_exec's count for one argument: getArgTypeArrayLength as an int, 0 meaning a scalar (1 value).
      An array length of 2^15 or more comes out negative. */
  function ServerCount(w: Int32): (n: int)
    ensures n >= 0 <==> w % TWO16 < TWO15
    ensures n >= 0 ==> n == ValueCount(w)
  {
    var length := GetArgTypeArrayLength(w);
    if length == 0 then 1 else length
  }

  /** thread_exec's argument loop over slots i..n-1 from cursor p: a slot of a known base type gets its
      values read into a fresh array; any other slot is left unset (Untyped) without a read. A negative
      count makes `new T[length]` throw std::bad_array_new_length, which ends the process like a read past
      the end does; both are OutOfRange here. */
  function ArgsAt(bs: seq<Byte>, p: int, words: seq<Int32>, i: nat, n: nat): (o: Outcome<seq<ArgValue>>)
    requires i <= n <= |words|
    ensures o.Got? ==> |o.value| == n - i
    ensures o.Got? ==> forall k :: 0 <= k < n - i ==> ValueFits(words[i + k], o.value[k])
    decreases n - i
  {
    if i == n then Got([], p)
    else
      var t := GetArgType(words[i]);
      if !IsArgBaseType(t) then Extend([Untyped], ArgsAt(bs, p, words, i + 1, n))
      else
        var count := ServerCount(words[i]);
        if count < 0 then OutOfRange(p)
        else match ValuesAt(bs, p, t, count)
          case OutOfRange(s) => OutOfRange(s)
          case Got(v, q) => Extend([v], ArgsAt(bs, q, words, i + 1, n))
  }

  /** An execute request as thread_exec holds it: the name as readString returns it (with its NUL), the
      argLen words, and one value per slot but the last. */
  datatype Request = Request(name: seq<Byte>, words: seq<Int32>, args: seq<ArgValue>)

  /** What decoding comes to. DecodeUndefined: argLen is 0, so `argLen - 1` wraps and the loop indexes an
      empty array, which C++ leaves undefined. */
  datatype Decoding = Decoded(request: Request) | DecodeAborted | DecodeUndefined

  /** thread_exec's decoding: readString, readUInt32 for argLen, argLen words, then the argument loop. */
  function RequestAt(bs: seq<Byte>): (d: Decoding)
    ensures d.Decoded? ==> 1 <= |d.request.words| && |d.request.args| == |d.request.words| - 1
    ensures d.Decoded? ==> ArgsFit(d.request.words, d.request.args, |d.request.words| - 1)
  {
    match StringAt(bs, 0)
    case OutOfRange(_) => DecodeAborted
    case Got(name, p) =>
      match UInt32At(bs, p)
      case OutOfRange(_) => DecodeAborted
      case Got(argLen, q) =>
        match Int32sAt(bs, q, argLen)
        case OutOfRange(_) => DecodeAborted
        case Got(words, r) =>
          if argLen == 0 then DecodeUndefined
          else match ArgsAt(bs, r, words, 0, argLen - 1)
            case OutOfRange(_) => DecodeAborted
            case Got(args, _) => Decoded(Request(name, words, args))
  }

  /** thread_exec's decoding over the stream it builds on the received buffer. */
  method DecodeRequest(stream: BinaryStream) returns (d: Decoding)
    requires stream.position == 0
    modifies stream
    ensures d == RequestAt(old(stream.bytes))
  {
    ghost var bs := stream.bytes;
    var name := stream.ReadString();
    if name == None {
      return DecodeAborted;
    }
    var argLen := stream.ReadUInt32();
    if argLen == None {
      return DecodeAborted;
    }
    var argTypes := new Int32[argLen.value];
    var got := stream.ReadInt32s(argTypes, argLen.value);
    if !got {
      return DecodeAborted;
    }
    assert argTypes[..] == argTypes[..argLen.value];
    var words := argTypes[..];
    if argLen.value == 0 {
      return DecodeUndefined;
    }
    var args := ReadArgs(stream, words, argLen.value - 1);
    if args == None {
      return DecodeAborted;
    }
    return Decoded(Request(name.value, words, args.value));
  }

  /** thread_exec's argument loop: the values of slots 0..n-1 read from the stream's cursor on. */
  method ReadArgs(stream: BinaryStream, words: seq<Int32>, n: nat) returns (r: Option<seq<ArgValue>>)
    requires n <= |words|
    modifies stream
    ensures stream.bytes == old(stream.bytes)
    ensures r.Some? <==> ArgsAt(old(stream.bytes), old(stream.position), words, 0, n).Got?
    ensures r.Some? ==> r.value == ArgsAt(old(stream.bytes), old(stream.position), words, 0, n).value
    ensures r.Some? ==> stream.position == ArgsAt(old(stream.bytes), old(stream.position), words, 0, n).next
  {
    ghost var bs := stream.bytes;
    ghost var start := stream.position;
    var args: seq<ArgValue> := [];
    var i := 0;
    while i < n
      invariant 0 <= i <= n && |args| == i && stream.bytes == bs
      invariant ArgsAt(bs, start, words, 0, n) == Extend(args, ArgsAt(bs, stream.position, words, i, n))
    {
      var t := GetArgType(words[i]);
      if IsArgBaseType(t) {
        var count := ServerCount(words[i]);
        if count < 0 {
          return None;
        }
        var v := ReadValues(stream, t, count);
        if v == None {
          return None;
        }
        ExtendTwice(args, [v.value], ArgsAt(bs, stream.position, words, i + 1, n));
        args := args + [v.value];
      } else {
        ExtendTwice(args, [Untyped], ArgsAt(bs, stream.position, words, i + 1, n));
        args := args + [Untyped];
      }
      i := i + 1;
    }
    assert args + [] == args;
    return Some(args);
  }

  // ---------------------------------------------------------------- what the server reads back

  /** The values of arguments i..n-1, front to back (ArgsImage builds the same bytes back to front). */
  function ArgsImageFrom(words: seq<Int32>, args: seq<ArgValue>, i: nat, n: nat): (bs: seq<Byte>)
    requires i <= n && ArgsFit(words, args, n)
    decreases n - i
  {
    if i == n then [] else ArgImage(words[i], args[i]) + ArgsImageFrom(words, args, i + 1, n)
  }

  lemma {:induction false} ArgsImageFromSnoc(words: seq<Int32>, args: seq<ArgValue>, j: nat, i: nat)
    requires j <= i && ArgsFit(words, args, i + 1)
    ensures ArgsFit(words, args, i)
    ensures ArgsImageFrom(words, args, j, i + 1) == ArgsImageFrom(words, args, j, i) + ArgImage(words[i], args[i])
    decreases i - j
  {
    if j < i {
      ArgsImageFromSnoc(words, args, j + 1, i);
    }
  }

  /** The two ways of laying out the argument values agree. */
  lemma {:induction false} ArgsImageIsFrom(words: seq<Int32>, args: seq<ArgValue>, n: nat)
    requires ArgsFit(words, args, n)
    ensures ArgsImage(words, args, n) == ArgsImageFrom(words, args, 0, n)
  {
    if n > 0 {
      ArgsImageFromSnoc(words, args, 0, n - 1);
      ArgsImageIsFrom(words, args, n - 1);
    }
  }

  /** Only the first n words shape the argument values' bytes. */
  lemma {:induction false} ImageOfPrefix(words: seq<Int32>, other: seq<Int32>, args: seq<ArgValue>, i: nat, n: nat)
    requires i <= n <= |other| && ArgsFit(words, args, n) && other[..n] == words[..n]
    ensures ArgsFit(other, args, n)
    ensures ArgsImageFrom(other, args, i, n) == ArgsImageFrom(words, args, i, n)
    ensures OutputsImage(other, args, i, n) == OutputsImage(words, args, i, n)
    decreases n - i
  {
    assert forall k :: 0 <= k < n ==> other[k] == other[..n][k];
    if i < n {
      ImageOfPrefix(words, other, args, i + 1, n);
    }
  }

  /** Every array length the server reads is below 2^15, so that its count stays positive. */
  predicate ReadableLengths(words: seq<Int32>, n: nat)
    requires n <= |words|
  {
    forall k :: 0 <= k < n && IsArgBaseType(GetArgType(words[k])) ==> words[k] % TWO16 < TWO15
  }

  /** The values the server holds after decoding: the client's for each slot of a known base type; an unset
      pointer (Untyped) for any other slot, whose values the client did not send either. */
  function Typed(words: seq<Int32>, args: seq<ArgValue>, n: nat): (typed: seq<ArgValue>)
    requires n <= |words| && n <= |args|
    ensures |typed| == n
  {
    seq(n, k requires 0 <= k < n => if IsArgBaseType(GetArgType(words[k])) then args[k] else Untyped)
  }

  /** thread_exec's argument loop over values written by sendExecuteRequest reads back every value sent. */
  lemma {:induction false} ArgsReadBack(prefix: seq<Byte>, words: seq<Int32>, args: seq<ArgValue>, rest: seq<Byte>,
                                        i: nat, n: nat)
    requires i <= n && ArgsFit(words, args, n) && ReadableLengths(words, n)
    ensures ArgsAt(prefix + ArgsImageFrom(words, args, i, n) + rest, |prefix|, words, i, n) ==
      Got(Typed(words, args, n)[i..], |prefix + ArgsImageFrom(words, args, i, n)|)
    decreases n - i
  {
    var typed := Typed(words, args, n);
    if i == n {
      assert typed[i..] == [];
    } else {
      var image := ArgImage(words[i], args[i]);
      var later := ArgsImageFrom(words, args, i + 1, n);
      var bs := prefix + ArgsImageFrom(words, args, i, n) + rest;
      assert bs == prefix + image + (later + rest) && |prefix + ArgsImageFrom(words, args, i, n)| == |prefix + image + later| by {
        Regroup(prefix, image, later, rest);
      }
      var q := |prefix + image + later|;
      assert ArgsAt(bs, |prefix + image|, words, i + 1, n) == Got(typed[i + 1..], q) by {
        assert bs == prefix + image + later + rest by {
          Regroup(prefix, image, later, rest);
        }
        ArgsReadBack(prefix + image, words, args, rest, i + 1, n);
      }
      assert ArgsAt(bs, |prefix|, words, i, n) == Extend([typed[i]], ArgsAt(bs, |prefix + image|, words, i + 1, n)) by {
        SlotReadBack(prefix, words, args, later + rest, i, n);
      }
      assert Extend([typed[i]], Got(typed[i + 1..], q)) == Got(typed[i..], q) by {
        ConsSlice(typed, i);
      }
    }
  }

  /** One slot of the argument loop over the values written for it: a known base type reads them back, any
      other slot reads nothing. */
  lemma SlotReadBack(prefix: seq<Byte>, words: seq<Int32>, args: seq<ArgValue>, tail: seq<Byte>, i: nat, n: nat)
    requires i < n <= |words| && i < |args| && ValueFits(words[i], args[i])
    requires IsArgBaseType(GetArgType(words[i])) ==> words[i] % TWO16 < TWO15
    ensures var image := ArgImage(words[i], args[i]);
      var bs := prefix + image + tail;
      ArgsAt(bs, |prefix|, words, i, n) ==
        Extend([if IsArgBaseType(GetArgType(words[i])) then args[i] else Untyped], ArgsAt(bs, |prefix + image|, words, i + 1, n))
  {
    if IsArgBaseType(GetArgType(words[i])) {
      ValuesReadBack(prefix, words[i], args[i], tail);
    } else {
      assert ArgImage(words[i], args[i]) == [];
      assert prefix + [] == prefix;
    }
  }

  /** A client's execute request decodes as the client meant it: the name (with the NUL readString keeps),
      the words up to the terminator, and every value of a known base type. */
  lemma RequestRoundTrip(c: Client.Call)
    requires Client.Sendable(c) && ReadableLengths(c.words, TypesLength(c.words) - 1)
    ensures var count := TypesLength(c.words);
      var words := c.words[..count];
      RequestAt(ExecuteRequestPayload(c.name, c.words, c.args)) ==
        Decoded(Request(c.name + [0], words, Typed(words, c.args, count - 1)))
  {
    var count := TypesLength(c.words);
    var words := c.words[..count];
    RequestFields(c.name, c.words, c.args);
    var payload := ExecuteRequestPayload(c.name, c.words, c.args);
    assert |payload| < TWO31;
    assert payload == StringImage(c.name) + UInt32Bytes(count) + Int32sImage(words) + ArgsImageFrom(words, c.args, 0, count - 1);
    assert ReadableLengths(words, count - 1) by {
      assert forall k :: 0 <= k < count - 1 ==> words[k] == c.words[k];
    }
    RequestReadsBack(c.name, words, c.args);
  }

  /** sendExecuteRequest's payload, field by field, with the values laid out front to back. */
  lemma RequestFields(name: seq<Byte>, argTypes: seq<Int32>, args: seq<ArgValue>)
    requires WireString(name) && TypeList(argTypes) && ArgsFit(argTypes, args, TypesLength(argTypes) - 1)
    ensures var count := TypesLength(argTypes);
      var words := argTypes[..count];
      |words| == count && ArgsFit(words, args, count - 1) &&
      ExecuteRequestPayload(name, argTypes, args) ==
        StringImage(name) + UInt32Bytes(count) + Int32sImage(words) + ArgsImageFrom(words, args, 0, count - 1)
  {
    var count := TypesLength(argTypes);
    var words := argTypes[..count];
    assert ArgsImage(argTypes, args, count - 1) == ArgsImageFrom(words, args, 0, count - 1) by {
      ArgsImageIsFrom(argTypes, args, count - 1);
      ImageOfPrefix(argTypes, words, args, 0, count - 1);
    }
  }

  /** A request laid out field by field decodes as its name, its words and the values of its typed slots. */
  lemma RequestReadsBack(name: seq<Byte>, words: seq<Int32>, args: seq<ArgValue>)
    requires WireString(name) && 1 <= |words| < TWO32
    requires ArgsFit(words, args, |words| - 1) && ReadableLengths(words, |words| - 1)
    ensures var n := |words| - 1;
      RequestAt(StringImage(name) + UInt32Bytes(|words|) + Int32sImage(words) + ArgsImageFrom(words, args, 0, n)) ==
        Decoded(Request(name + [0], words, Typed(words, args, n)))
  {
    var n := |words| - 1;
    var head, size, list := StringImage(name), UInt32Bytes(|words|), Int32sImage(words);
    var values := ArgsImageFrom(words, args, 0, n);
    var payload := head + size + list + values;
    RequestHeadReads(name, words, values);
    assert ArgsAt(payload, |head + size + list|, words, 0, n) == Got(Typed(words, args, n), |payload|) by {
      assert payload == (head + size + list) + values + [];
      ArgsReadBack(head + size + list, words, args, [], 0, n);
      assert Typed(words, args, n)[0..] == Typed(words, args, n);
    }
  }

  /** The fields in front of the argument values read back as written. */
  lemma RequestHeadReads(name: seq<Byte>, words: seq<Int32>, values: seq<Byte>)
    requires WireString(name) && |words| < TWO32
    ensures var head, size, list := StringImage(name), UInt32Bytes(|words|), Int32sImage(words);
      var payload := head + size + list + values;
      StringAt(payload, 0) == Got(name + [0], |head|) &&
      UInt32At(payload, |head|) == Got(|words|, |head + size|) &&
      Int32sAt(payload, |head + size|, |words|) == Got(words, |head + size + list|)
  {
    var head, size, list := StringImage(name), UInt32Bytes(|words|), Int32sImage(words);
    var payload := head + size + list + values;
    assert StringAt(payload, 0) == Got(name + [0], |head|) by {
      assert payload == [] + head + (size + list + values);
      StringReadsBack([], name, size + list + values);
    }
    assert UInt32At(payload, |head|) == Got(|words|, |head + size|) by {
      assert payload == head + size + (list + values);
      IntsReadBack(head, list + values, 0, 0, 0, 0, |words|, 0);
    }
    assert Int32sAt(payload, |head + size|, |words|) == Got(words, |head + size + list|) by {
      assert payload == (head + size) + list + values;
      Int32sReadBack(head + size, words, values);
    }
  }

  /** The decoded identity, NUL and all, is filed under the key the procedure was registered with. */
  lemma DecodedKey(name: seq<Byte>, argTypes: seq<Int32>)
    requires 0 !in name && 0 in argTypes
    ensures var words := argTypes[..TypesLength(argTypes)];
      0 in words && TypesLength(words) == TypesLength(argTypes) &&
      KeyOf(RpcIdent(name + [0], words)) == KeyOf(RpcIdent(name, argTypes))
  {
    var count := TypesLength(argTypes);
    var words := argTypes[..count];
    assert words[count - 1] == 0;
    TypesLengthUnique(words, count);
    WireNameSameKey(name, words);
    assert words[..count - 1] == argTypes[..count - 1];
  }

  // ---------------------------------------------------------------- thread_exec: the answer

  /** What thread_exec puts on the connection. Aborted: a read past the payload or a negative array count
      ended the process; Undefined: behaviour C++ leaves undefined (argLen 0, a word list without its 0
      compared against a skeleton's, or a skeleton that leaves values that do not fit the words); Oversized:
      a response whose length the frame header cannot carry. */
  datatype Answer = Answered(messageType: Int32, payload: seq<Byte>) | Aborted | Undefined | Oversized

  /** No skeleton is filed under the request's identity. For a word list without its 0 the map's find can
      only tell this by names, so the identity is unknown exactly when no filed key has its C-string name. */
  predicate Unknown(skeletons: map<Key, Skeleton>, req: Request)
  {
    if 0 in req.words then KeyOf(RpcIdent(req.name, req.words)) !in skeletons
    else !NameFiled(skeletons.Keys, req.name)
  }

  /** The skeleton filed under the request's identity ran and returned 0. */
  predicate Succeeded(skeletons: map<Key, Skeleton>, run: Runner, req: Request)
  {
    0 in req.words && KeyOf(RpcIdent(req.name, req.words)) in skeletons &&
    run(skeletons[KeyOf(RpcIdent(req.name, req.words))], req.words, req.args).0 == 0
  }

  /** The arguments as the skeleton that Succeeded left them. */
  function After(skeletons: map<Key, Skeleton>, run: Runner, req: Request): seq<ArgValue>
    requires Succeeded(skeletons, run, req)
  {
    run(skeletons[KeyOf(RpcIdent(req.name, req.words))], req.words, req.args).1
  }

  /** thread_exec once the request is decoded: the skeleton filed under the request's identity runs on it; an
      unknown identity is answered EXECUTE_UNKNOWN_SKELETON; a non-zero result is sent back as the reason of
      an EXECUTE_FAILURE; a zero result is answered by sendExecuteResponse, which writes the name, the words
      and the values of every argument as the skeleton left them, inputs included. */
  function Dispatch(skeletons: map<Key, Skeleton>, run: Runner, req: Request): (a: Answer)
    requires 1 <= |req.words| && ArgsFit(req.words, req.args, |req.words| - 1)
    ensures a.Answered? ==> |a.payload| < TWO31 && (a.messageType == EXECUTE_SUCCESS || a.messageType == EXECUTE_FAILURE)
    ensures Unknown(skeletons, req) ==> a == Answered(EXECUTE_FAILURE, CodePayload(EXECUTE_UNKNOWN_SKELETON))
    ensures 0 !in req.words && !Unknown(skeletons, req) ==> a == Undefined
    ensures a.Answered? && a.messageType == EXECUTE_SUCCESS ==>
      Succeeded(skeletons, run, req) && WireString(req.name) && TypeList(req.words) &&
      ArgsFit(req.words, After(skeletons, run, req), TypesLength(req.words) - 1) &&
      a.payload == ExecuteResponsePayload(req.name, req.words, After(skeletons, run, req))
  {
    if 0 !in req.words then
      if NameFiled(skeletons.Keys, req.name) then Undefined
      else Answered(EXECUTE_FAILURE, CodePayload(EXECUTE_UNKNOWN_SKELETON))
    else
      var key := KeyOf(RpcIdent(req.name, req.words));
      if key !in skeletons then Answered(EXECUTE_FAILURE, CodePayload(EXECUTE_UNKNOWN_SKELETON))
      else
        var out := run(skeletons[key], req.words, req.args);
        if out.0 != 0 then Answered(EXECUTE_FAILURE, CodePayload(out.0))
        else if !ArgsFit(req.words, out.1, TypesLength(req.words) - 1) then Undefined
        else if TypesLength(req.words) >= TWO31 || !WireString(req.name) then Oversized
        else
          var response := ExecuteResponsePayload(req.name, req.words, out.1);
          if |response| >= TWO31 then Oversized else Answered(EXECUTE_SUCCESS, response)
  }

  /** Dispatch with the response the client reads: a zero result is answered with the name, the words and the
      values of the output arguments only. Every other answer is Dispatch's. */
  function CorrectedDispatch(skeletons: map<Key, Skeleton>, run: Runner, req: Request): (a: Answer)
    requires 1 <= |req.words| && ArgsFit(req.words, req.args, |req.words| - 1)
    ensures a.Answered? ==> |a.payload| < TWO31 && (a.messageType == EXECUTE_SUCCESS || a.messageType == EXECUTE_FAILURE)
    ensures a != Dispatch(skeletons, run, req) ==> Succeeded(skeletons, run, req)
    ensures a.Answered? && a.messageType == EXECUTE_SUCCESS ==>
      Succeeded(skeletons, run, req) && WireString(req.name) && TypeList(req.words) &&
      ArgsFit(req.words, After(skeletons, run, req), TypesLength(req.words) - 1) &&
      a.payload == OutputResponsePayload(req.name, req.words, After(skeletons, run, req))
  {
    if Succeeded(skeletons, run, req) && ArgsFit(req.words, After(skeletons, run, req), TypesLength(req.words) - 1) &&
       TypesLength(req.words) < TWO31 && WireString(req.name) then
      var response := OutputResponsePayload(req.name, req.words, After(skeletons, run, req));
      if |response| >= TWO31 then Oversized else Answered(EXECUTE_SUCCESS, response)
    else Dispatch(skeletons, run, req)
  }

  /** thread_exec on the payload handleRequest received, through BinaryStream(buffer, msgSize): a payload of
      2^31 bytes or more gives an empty stream, and its first readString throws. */
  function ThreadAnswer(skeletons: map<Key, Skeleton>, run: Runner, payload: seq<Byte>): (a: Answer)
    ensures a.Answered? ==> RequestAt(payload).Decoded? && a == Dispatch(skeletons, run, RequestAt(payload).request)
    ensures |payload| >= TWO31 ==> a == Aborted
  {
    match RequestAt(StreamOf(payload))
    case DecodeAborted => Aborted
    case DecodeUndefined => Undefined
    case Decoded(req) => Dispatch(skeletons, run, req)
  }

  /** The request a client's call decodes to, and the identity the server looks it up by. */
  function CallRequest(c: Client.Call): (req: Request)
    requires Client.Sendable(c)
    ensures 1 <= |req.words| && ArgsFit(req.words, req.args, |req.words| - 1)
  {
    var count := TypesLength(c.words);
    var words := c.words[..count];
    Request(c.name + [0], words, Typed(words, c.args, count - 1))
  }

  /** thread_exec on a client's request dispatches the request the client meant, under the key the client's
      identity has. */
  lemma DecodedCall(skeletons: map<Key, Skeleton>, run: Runner, c: Client.Call)
    requires Client.Sendable(c) && ReadableLengths(c.words, TypesLength(c.words) - 1)
    ensures var req := CallRequest(c);
      0 in req.words && TypesLength(req.words) == TypesLength(c.words) &&
      KeyOf(RpcIdent(req.name, req.words)) == KeyOf(RpcIdent(c.name, c.words)) &&
      RequestAt(ExecuteRequestPayload(c.name, c.words, c.args)) == Decoded(req) &&
      ThreadAnswer(skeletons, run, ExecuteRequestPayload(c.name, c.words, c.args)) == Dispatch(skeletons, run, req)
  {
    var req, payload := CallRequest(c), ExecuteRequestPayload(c.name, c.words, c.args);
    RequestRoundTrip(c);
    assert RequestAt(payload) == Decoded(req);
    assert ThreadAnswer(skeletons, run, payload) == Dispatch(skeletons, run, req);
    DecodedKey(c.name, c.words);
  }

  /** A call to an identity no skeleton is filed under comes back to the caller as EXECUTE_UNKNOWN_SKELETON,
      with nothing of the caller's changed. */
  lemma ServedUnknown(skeletons: map<Key, Skeleton>, run: Runner, c: Client.Call)
    requires Client.Sendable(c) && ReadableLengths(c.words, TypesLength(c.words) - 1)
    requires KeyOf(RpcIdent(c.name, c.words)) !in skeletons
    ensures var answer := ThreadAnswer(skeletons, run, ExecuteRequestPayload(c.name, c.words, c.args));
      answer == Answered(EXECUTE_FAILURE, CodePayload(EXECUTE_UNKNOWN_SKELETON)) &&
      Client.ExecuteReply(c, Received(answer.messageType, answer.payload)) ==
        Client.Executed(EXECUTE_UNKNOWN_SKELETON, c.words, c.args)
  {
    DecodedCall(skeletons, run, c);
    Client.ExecuteFailureReported(c, EXECUTE_UNKNOWN_SKELETON);
  }

  /** A skeleton's non-zero result comes back to the caller as the call's status, with nothing of the
      caller's changed. */
  lemma ServedFailure(skeletons: map<Key, Skeleton>, run: Runner, c: Client.Call)
    requires Client.Sendable(c) && ReadableLengths(c.words, TypesLength(c.words) - 1)
    requires var key := KeyOf(RpcIdent(c.name, c.words));
      key in skeletons && run(skeletons[key], CallRequest(c).words, CallRequest(c).args).0 != 0
    ensures var key := KeyOf(RpcIdent(c.name, c.words));
      var result := run(skeletons[key], CallRequest(c).words, CallRequest(c).args).0;
      var answer := ThreadAnswer(skeletons, run, ExecuteRequestPayload(c.name, c.words, c.args));
      answer == Answered(EXECUTE_FAILURE, CodePayload(result)) &&
      Client.ExecuteReply(c, Received(answer.messageType, answer.payload)) == Client.Executed(result, c.words, c.args)
  {
    DecodedCall(skeletons, run, c);
    var key := KeyOf(RpcIdent(c.name, c.words));
    Client.ExecuteFailureReported(c, run(skeletons[key], CallRequest(c).words, CallRequest(c).args).0);
  }

  /** A skeleton that returns 0 is answered, as written, with EXECUTE_SUCCESS and the response
      sendExecuteResponse lays out over the caller's name and words: every argument's values, inputs included. */
  lemma SuccessAnswered(skeletons: map<Key, Skeleton>, run: Runner, c: Client.Call)
    requires Client.Sendable(c) && ReadableLengths(c.words, TypesLength(c.words) - 1)
    requires var key := KeyOf(RpcIdent(c.name, c.words));
      key in skeletons && run(skeletons[key], CallRequest(c).words, CallRequest(c).args).0 == 0
    requires var after := run(skeletons[KeyOf(RpcIdent(c.name, c.words))], CallRequest(c).words, CallRequest(c).args).1;
      ArgsFit(c.words, after, TypesLength(c.words) - 1) && |ExecuteResponsePayload(c.name + [0], c.words, after)| < TWO31
    ensures var after := run(skeletons[KeyOf(RpcIdent(c.name, c.words))], CallRequest(c).words, CallRequest(c).args).1;
      ThreadAnswer(skeletons, run, ExecuteRequestPayload(c.name, c.words, c.args))
        == Answered(EXECUTE_SUCCESS, ExecuteResponsePayload(c.name + [0], c.words, after))
  {
    var req := CallRequest(c);
    var after := run(skeletons[KeyOf(RpcIdent(c.name, c.words))], req.words, req.args).1;
    DecodedCall(skeletons, run, c);
    assert Succeeded(skeletons, run, req) && After(skeletons, run, req) == after;
    assert WireString(req.name) by {
      assert |ExecuteRequestPayload(c.name, c.words, c.args)| >= |c.name| + 5;
    }
    ResponseOfPrefix(c.name + [0], c.words, after);
    DispatchSucceeds(skeletons, run, req);
  }

  /** Dispatch on a request whose skeleton returned 0 and whose response fits a frame. */
  lemma DispatchSucceeds(skeletons: map<Key, Skeleton>, run: Runner, req: Request)
    requires 1 <= |req.words| && ArgsFit(req.words, req.args, |req.words| - 1)
    requires Succeeded(skeletons, run, req) && WireString(req.name) && TypeList(req.words)
    requires ArgsFit(req.words, After(skeletons, run, req), TypesLength(req.words) - 1)
    requires |ExecuteResponsePayload(req.name, req.words, After(skeletons, run, req))| < TWO31
    ensures Dispatch(skeletons, run, req) ==
      Answered(EXECUTE_SUCCESS, ExecuteResponsePayload(req.name, req.words, After(skeletons, run, req)))
  {
  }

  /** CorrectedDispatch on a request whose skeleton returned 0 and whose output response fits a frame. */
  lemma CorrectedDispatchSucceeds(skeletons: map<Key, Skeleton>, run: Runner, req: Request)
    requires 1 <= |req.words| && ArgsFit(req.words, req.args, |req.words| - 1)
    requires Succeeded(skeletons, run, req) && WireString(req.name) && TypeList(req.words)
    requires ArgsFit(req.words, After(skeletons, run, req), TypesLength(req.words) - 1)
    requires |OutputResponsePayload(req.name, req.words, After(skeletons, run, req))| < TWO31
    ensures CorrectedDispatch(skeletons, run, req) ==
      Answered(EXECUTE_SUCCESS, OutputResponsePayload(req.name, req.words, After(skeletons, run, req)))
  {
  }

  /** The corrected dispatch answers a skeleton that returns 0 with EXECUTE_SUCCESS and the output response
      over the caller's name and words. */
  lemma CorrectedSuccessAnswered(skeletons: map<Key, Skeleton>, run: Runner, c: Client.Call)
    requires Client.Sendable(c) && ReadableLengths(c.words, TypesLength(c.words) - 1)
    requires var key := KeyOf(RpcIdent(c.name, c.words));
      key in skeletons && run(skeletons[key], CallRequest(c).words, CallRequest(c).args).0 == 0
    requires var after := run(skeletons[KeyOf(RpcIdent(c.name, c.words))], CallRequest(c).words, CallRequest(c).args).1;
      ArgsFit(c.words, after, TypesLength(c.words) - 1) && |OutputResponsePayload(c.name + [0], c.words, after)| < TWO31
    ensures var after := run(skeletons[KeyOf(RpcIdent(c.name, c.words))], CallRequest(c).words, CallRequest(c).args).1;
      CorrectedDispatch(skeletons, run, CallRequest(c)) == Answered(EXECUTE_SUCCESS, OutputResponsePayload(c.name + [0], c.words, after))
  {
    var req := CallRequest(c);
    var after := run(skeletons[KeyOf(RpcIdent(c.name, c.words))], req.words, req.args).1;
    DecodedCall(skeletons, run, c);
    assert Succeeded(skeletons, run, req) && After(skeletons, run, req) == after;
    assert WireString(req.name) by {
      assert |ExecuteRequestPayload(c.name, c.words, c.args)| >= |c.name| + 5;
    }
    OutputResponseOfPrefix(c.name + [0], c.words, after);
    CorrectedDispatchSucceeds(skeletons, run, req);
  }

  /** With the corrected dispatch, a client's request is decoded as sent, and a skeleton that returns 0 gives
      the caller its output values, every input staying as the caller had it. */
  lemma CorrectedServedSuccess(skeletons: map<Key, Skeleton>, run: Runner, c: Client.Call)
    requires Client.Sendable(c) && ReadableLengths(c.words, TypesLength(c.words) - 1)
    requires var key := KeyOf(RpcIdent(c.name, c.words));
      key in skeletons && run(skeletons[key], CallRequest(c).words, CallRequest(c).args).0 == 0
    requires var after := run(skeletons[KeyOf(RpcIdent(c.name, c.words))], CallRequest(c).words, CallRequest(c).args).1;
      ArgsFit(c.words, after, TypesLength(c.words) - 1) && |OutputResponsePayload(c.name + [0], c.words, after)| < TWO31
    ensures RequestAt(ExecuteRequestPayload(c.name, c.words, c.args)) == Decoded(CallRequest(c))
    ensures var key := KeyOf(RpcIdent(c.name, c.words));
      var after := run(skeletons[key], CallRequest(c).words, CallRequest(c).args).1;
      var answer := CorrectedDispatch(skeletons, run, CallRequest(c));
      answer == Answered(EXECUTE_SUCCESS, OutputResponsePayload(c.name + [0], c.words, after)) &&
      Client.ExecuteReply(c, Received(answer.messageType, answer.payload)) ==
        Client.Executed(SUCCESS, c.words, Client.MergedFrom(c.words, c.args, after, 0, TypesLength(c.words) - 1))
  {
    var count := TypesLength(c.words);
    var req := CallRequest(c);
    var key := KeyOf(RpcIdent(c.name, c.words));
    var after := run(skeletons[key], req.words, req.args).1;
    DecodedCall(skeletons, run, c);
    CorrectedSuccessAnswered(skeletons, run, c);
    assert Client.ShortLengths(c.words, count - 1);
    Client.CorrectedResponseRoundTrip(c, after);
  }

  /** Only the words up to the terminator shape the execute response sendExecuteResponse writes. */
  lemma ResponseOfPrefix(name: seq<Byte>, argTypes: seq<Int32>, args: seq<ArgValue>)
    requires WireString(name) && TypeList(argTypes) && ArgsFit(argTypes, args, TypesLength(argTypes) - 1)
    ensures var count := TypesLength(argTypes);
      var words := argTypes[..count];
      TypeList(words) && TypesLength(words) == count && ArgsFit(words, args, count - 1) &&
      ExecuteResponsePayload(name, words, args) == ExecuteResponsePayload(name, argTypes, args)
  {
    var count := TypesLength(argTypes);
    var words := argTypes[..count];
    TypesLengthUnique(words, count);
    ImageOfPrefix(argTypes, words, args, 0, count - 1);
    ArgsImageIsFrom(argTypes, args, count - 1);
    ArgsImageIsFrom(words, args, count - 1);
    assert words[..count] == argTypes[..count];
  }

  /** Only the words up to the terminator shape the corrected execute response. */
  lemma OutputResponseOfPrefix(name: seq<Byte>, argTypes: seq<Int32>, args: seq<ArgValue>)
    requires WireString(name) && TypeList(argTypes) && ArgsFit(argTypes, args, TypesLength(argTypes) - 1)
    ensures var count := TypesLength(argTypes);
      var words := argTypes[..count];
      TypeList(words) && TypesLength(words) == count && ArgsFit(words, args, count - 1) &&
      OutputResponsePayload(name, words, args) == OutputResponsePayload(name, argTypes, args)
  {
    var count := TypesLength(argTypes);
    var words := argTypes[..count];
    TypesLengthUnique(words, count);
    ImageOfPrefix(argTypes, words, args, 0, count - 1);
    assert words[..count] == argTypes[..count];
  }

  // ---------------------------------------------------------------- rpcExecute

  /** rpcExecute's checks before serving: with nothing registered it returns FAILURE, with a listening socket
      rpcInit failed to open it returns SOCKET_RECEIVE_ERROR; otherwise it serves. */
  function ExecuteGuard(registered: map<Key, Skeleton>, serverfd: int): (r: Option<int>)
    ensures r == None <==> registered != map[] && serverfd >= 0
    ensures r == Some(FAILURE) <==> registered == map[]
  {
    if |registered| == 0 then Some(FAILURE) else if serverfd < 0 then Some(SOCKET_RECEIVE_ERROR) else None
  }

  /** FAILURE is the message type 0, so a server with nothing registered returns what a clean shutdown returns. */
  lemma EmptyRegistryReadsAsSuccess(serverfd: int)
    ensures ExecuteGuard(map[], serverfd) == Some(SUCCESS)
  {
  }

  /** One descriptor select reports ready, as the scan meets it: on the listening socket, the descriptor
      socket_accept returns; on a connection, the exchange it delivers and the id pthread_create gives the
      thread handleRequest starts for it. */
  datatype Ready = Ready(fd: int, accepted: int, ex: Exchange, thread: ThreadId)

  /** One pass of the serving loop: select's result, the result of the binder probe's socket_create, and the
      ready descriptors in ascending order. The ready list is taken as given: nothing here ties it to the
      master set or to max, which select(max + 1, ...) would. */
  datatype Round = Round(selected: int, probe: int, ready: seq<Ready>)

  /** The serving loop's variables: the master set, max, the thread pool, running and requestCode. */
  datatype Loop = Loop(master: set<int>, max: int, pool: map<ThreadId, int>, running: bool, requestCode: int)

  /** Every ready connection delivers its header and the payload the header announces. */
  predicate Delivered(ready: seq<Ready>)
  {
    forall i :: 0 <= i < |ready| ==> Delivers(ready[i].ex)
  }

  /** One ready descriptor: the listening socket accepts a connection into the master set (raising max);
      a connection goes through handleRequest, whose result becomes requestCode, a -1 also clearing running. */
  function ScanStep(serverfd: int, binderfd: int, st: Loop, r: Ready): (next: Loop)
    requires Delivers(r.ex)
    ensures r.fd == serverfd ==> next.master == st.master + {r.accepted} && next.max >= st.max && next.pool == st.pool
    ensures r.fd == serverfd ==> next.running == st.running && next.requestCode == st.requestCode
    ensures r.fd != serverfd ==> next.requestCode == (if RequestHandled(r.fd, binderfd, r.ex).Stopped? then -1 else 0)
    ensures r.fd != serverfd ==> next.running == (st.running && next.requestCode == 0)
    ensures next.running ==> st.running
    ensures next.master >= st.master - {r.fd} && next.pool.Keys >= st.pool.Keys
  {
    if r.fd == serverfd then
      st.(master := st.master + {r.accepted}, max := if r.accepted > st.max then r.accepted else st.max)
    else match RequestHandled(r.fd, binderfd, r.ex)
      case Dropped => st.(master := st.master - {r.fd}, requestCode := 0)
      case Stopped => st.(running := false, requestCode := -1)
      case Spawned(_) => st.(pool := st.pool[r.thread := r.fd], requestCode := 0)
  }

  /** The scan over the ready descriptors: after a connection's turn, a loop no longer running breaks out. */
  function Scan(serverfd: int, binderfd: int, st: Loop, ready: seq<Ready>): (after: Loop)
    requires Delivered(ready)
    ensures after.running ==> st.running
    ensures serverfd in st.master ==> serverfd in after.master
    ensures after.pool.Keys >= st.pool.Keys
    decreases |ready|
  {
    if ready == [] then st
    else
      var next := ScanStep(serverfd, binderfd, st, ready[0]);
      if ready[0].fd != serverfd && !next.running then next else Scan(serverfd, binderfd, next, ready[1..])
  }

  /** How the serving loop ends: select failing or timing out returns at once; running cleared ends the loop
      with the pool and requestCode as they are; Serving is the loop still going when the rounds run out.
      Each carries the loop's variables as they were when it stopped. */
  datatype Served = SelectFailed(loop: Loop) | TimedOut(loop: Loop) | Ended(loop: Loop) | Serving(loop: Loop)

  /** Every round's ready connections deliver. */
  predicate AllDelivered(rounds: seq<Round>)
  {
    forall k :: 0 <= k < |rounds| ==> Delivered(rounds[k].ready)
  }

  /** The serving loop over the rounds given: select, the binder probe (a failed socket_create clears running),
      the two early returns, then the scan; the loop goes on while running holds. */
  function Serve(serverfd: int, binderfd: int, st: Loop, rounds: seq<Round>): (s: Served)
    requires AllDelivered(rounds)
    ensures s.Ended? ==> !s.loop.running && s.loop.pool.Keys >= st.pool.Keys
    ensures s.Serving? ==> s.loop.running == st.running
    ensures serverfd in st.master ==> serverfd in s.loop.master
    decreases |rounds|
  {
    if rounds == [] then Serving(st)
    else
      var r := rounds[0];
      var probed := if r.probe < 0 then st.(running := false) else st;
      if r.selected < 0 then SelectFailed(st)
      else if r.selected == 0 then TimedOut(st)
      else
        var next := Scan(serverfd, binderfd, probed, r.ready);
        assert Delivered(r.ready);
        if !next.running then Ended(next) else Serve(serverfd, binderfd, next, rounds[1..])
  }

  /** The binder's shutdown notice among a round's ready descriptors stops the scan with requestCode -1,
      whatever comes before it in the round. */
  lemma {:induction false} ScanStopsAtNotice(serverfd: int, binderfd: int, st: Loop, ready: seq<Ready>, k: nat)
    requires st.running && Delivered(ready) && k < |ready|
    requires ready[k].fd == binderfd != serverfd && Carries(ready[k].ex, FrameOf(TERMINATE, []))
    ensures !Scan(serverfd, binderfd, st, ready).running && Scan(serverfd, binderfd, st, ready).requestCode == -1
    decreases k
  {
    var next := ScanStep(serverfd, binderfd, st, ready[0]);
    if k == 0 {
      BinderNoticeStops(binderfd, binderfd, ready[0].ex);
    } else if ready[0].fd == serverfd || next.running {
      assert Delivered(ready[1..]) && ready[1..][k - 1] == ready[k];
      ScanStopsAtNotice(serverfd, binderfd, next, ready[1..], k - 1);
    }
  }

  /** A round that delivers the binder's shutdown notice is the last: serving ends with requestCode -1 and the
      rounds after it are never reached. */
  lemma NoticeEndsServing(serverfd: int, binderfd: int, st: Loop, rounds: seq<Round>, k: nat)
    requires st.running && AllDelivered(rounds) && 1 <= |rounds| && rounds[0].selected > 0 && rounds[0].probe >= 0
    requires k < |rounds[0].ready| && rounds[0].ready[k].fd == binderfd != serverfd
    requires Carries(rounds[0].ready[k].ex, FrameOf(TERMINATE, []))
    ensures Serve(serverfd, binderfd, st, rounds).Ended? && Serve(serverfd, binderfd, st, rounds).loop.requestCode == -1
    ensures Serve(serverfd, binderfd, st, rounds) == Serve(serverfd, binderfd, st, rounds[..1])
  {
    assert Delivered(rounds[0].ready);
    ScanStopsAtNotice(serverfd, binderfd, st, rounds[0].ready, k);
    assert rounds[..1][0] == rounds[0];
  }

  /** A round in which the binder cannot be reached is the last one: the loop ends after its scan, and the
      rounds after it are never reached. */
  lemma ProbeFailureEndsServing(serverfd: int, binderfd: int, st: Loop, rounds: seq<Round>)
    requires AllDelivered(rounds) && 1 <= |rounds| && rounds[0].selected > 0 && rounds[0].probe < 0
    ensures Serve(serverfd, binderfd, st, rounds).Ended?
    ensures Serve(serverfd, binderfd, st, rounds) == Serve(serverfd, binderfd, st, rounds[..1])
  {
    assert Delivered(rounds[0].ready);
    assert rounds[..1][0] == rounds[0];
  }

  // ---------------------------------------------------------------- after the loop

  /** The frame rpcExecute sends each connection still being served once it stops. */
  function TerminatedNotice(): (f: seq<Byte>)
    ensures |f| == 12
  {
    FrameOf(EXECUTE_FAILURE, CodePayload(RECEIVED_TERMINATED))
  }

  /** The bytes of the notice each pooled thread's connection took: the connection, and what went out on it. */
  function Notices(pool: map<ThreadId, int>, threads: set<ThreadId>, sendTo: ThreadId -> (nat -> int))
    : (n: map<ThreadId, (int, seq<Byte>)>)
    requires threads <= pool.Keys
    ensures n.Keys == threads
    ensures forall t :: t in n ==> n[t].0 == pool[t] && n[t].1 <= TerminatedNotice()
  {
    map t | t in threads :: (pool[t], Transmit(TerminatedNotice(), sendTo(t)).1)
  }

  /** A client whose call was still being served when the server stopped reads the notice as
      RECEIVED_TERMINATED, with nothing of its own changed. */
  lemma NoticeReported(c: Client.Call, ex: Exchange)
    requires Client.Sendable(c) && Carries(ex, TerminatedNotice())
    ensures Delivers(ex)
    ensures Client.ExecuteReply(c, Receive(ex)) == Client.Executed(RECEIVED_TERMINATED, c.words, c.args)
  {
    CarriedFrame(EXECUTE_FAILURE, CodePayload(RECEIVED_TERMINATED), ex);
    Client.ExecuteFailureReported(c, RECEIVED_TERMINATED);
  }

  /** The drain loop of rpcExecute: every thread of the pool is cancelled and its connection sent the notice
      (the sends of thread t's notice are sendTo(t)). */
  method Drain(pool: map<ThreadId, int>, sendTo: ThreadId -> (nat -> int)) returns (notices: map<ThreadId, (int, seq<Byte>)>)
    ensures notices == Notices(pool, pool.Keys, sendTo)
  {
    notices := map[];
    var todo := pool.Keys;
    while todo != {}
      invariant todo <= pool.Keys
      invariant notices == Notices(pool, pool.Keys - todo, sendTo)
      decreases |todo|
    {
      SomeThread(todo);
      var t :| t in todo;
      var handler := new Protocol(pool[t]);
      var status, wire := handler.SendExecuteError(RECEIVED_TERMINATED, sendTo(t));
      NoticesStep(pool, pool.Keys - todo, t, sendTo);
      assert pool.Keys - todo + {t} == pool.Keys - (todo - {t});
      notices := notices[t := (pool[t], wire)];
      todo := todo - {t};
    }
  }

  lemma NoticesStep(pool: map<ThreadId, int>, done: set<ThreadId>, t: ThreadId, sendTo: ThreadId -> (nat -> int))
    requires done <= pool.Keys && t in pool
    ensures Notices(pool, done, sendTo)[t := (pool[t], Transmit(TerminatedNotice(), sendTo(t)).1)] ==
      Notices(pool, done + {t}, sendTo)
  {
  }

  /** A nonempty set of threads has a member to pick. */
  lemma SomeThread(todo: set<ThreadId>)
    requires todo != {}
    ensures exists t :: t in todo
  {
    if forall t :: t !in todo {
      assert false;
    }
  }

  // ---------------------------------------------------------------- the server's state

  /** The server library's globals once rpcInit has succeeded: the address it announces, the listening
      socket, the binder connection, the skeletons registered and the pool of threads serving calls. */
  class Server {
    const host: seq<Byte>
    const port: UInt16
    const serverfd: int
    const binderfd: int
    var registered: map<Key, Skeleton>
    var pool: map<ThreadId, int>

    constructor (host: seq<Byte>, port: UInt16, serverfd: int, binderfd: int)
      ensures this.host == host && this.port == port && this.serverfd == serverfd && this.binderfd == binderfd
      ensures registered == map[] && pool == map[]
    {
      this.host := host;
      this.port := port;
      this.serverfd := serverfd;
      this.binderfd := binderfd;
      registered := map[];
      pool := map[];
    }

    /** rpcRegister: announce the procedure to the binder and, on REGISTER_SUCCESS, file its skeleton. */
    method RpcRegister(name: seq<Byte>, argTypes: seq<Int32>, skeleton: Skeleton, binder: Client.Link)
      returns (status: int, crashed: bool)
      requires Announceable(host, port, name, argTypes) && Delivers(binder.reply)
      modifies this
      ensures var r := Register(old(registered), host, port, name, argTypes, skeleton, binder);
        crashed == r.RegisterCrashed? && (r.Registration? ==> status == r.status && registered == r.skeletons)
      ensures pool == old(pool)
    {
      var handler := new Protocol(binderfd);
      var sent, wire := handler.SendRegister(host, port, name, argTypes, binder.send);
      if sent < 0 {
        return sent, false;
      }
      var reply, stream := handler.ReceiveReply(binder.reply);
      if reply.Failed? {
        return reply.status, false;
      }
      if reply.messageType == REGISTER_SUCCESS {
        var code := stream.ReadInt32();
        if code == None {
          return 0, true;
        }
        registered := registered[KeyOf(RpcIdent(name, argTypes)) := skeleton];
        return code.value, false;
      } else if reply.messageType == REGISTER_FAILURE {
        var code := stream.ReadInt32();
        if code == None {
          return 0, true;
        }
        return code.value, false;
      }
      return RECEIVE_INVALID_MESSAGE_TYPE, false;
    }

    /** handleRequest on connection j: the new master set, the code returned, and the payload handed to the
        thread it starts (registered in the pool under `thread`, the id pthread_create gives it). */
    method HandleRequest(j: int, master: set<int>, ex: Exchange, thread: ThreadId)
      returns (code: int, newMaster: set<int>, spawned: Option<seq<Byte>>)
      requires Delivers(ex)
      modifies this
      ensures registered == old(registered)
      ensures var h := RequestHandled(j, binderfd, ex);
        code == (if h.Stopped? then -1 else 0) &&
        newMaster == (if h.Dropped? then master - {j} else master) &&
        pool == (if h.Spawned? then old(pool)[thread := j] else old(pool)) &&
        spawned == (if h.Spawned? then Some(h.payload) else None)
    {
      var handler := new Protocol(j);
      var size := handler.ReceiveMessageSize(ex.size.recv, ex.size.peer);
      if size.Err? {
        return 0, master - {j}, None;
      }
      var kind := handler.ReceiveMessageType(ex.kind.recv, ex.kind.peer);
      if kind.Err? {
        return 0, master - {j}, None;
      }
      if binderfd == j && kind.value == TERMINATE {
        return -1, master, None;
      }
      if kind.value != EXECUTE {
        return 0, master - {j}, None;
      }
      var buffer := new Byte[size.value];
      var status := handler.ReceiveMessage(size.value, buffer, ex.body.recv, ex.body.peer);
      if status != 0 {
        return 0, master - {j}, None;
      }
      assert buffer[..] == ex.body.peer[..size.value];
      pool := pool[thread := j];
      return 0, master, Some(buffer[..]);
    }

    /** thread_exec: decode the payload, run the skeleton filed under its identity, answer on the
        connection, and leave the pool. An answer that ends the process leaves everything as it was. */
    method ThreadExec(thread: ThreadId, fd: int, payload: seq<Byte>, run: Runner, send: nat -> int)
      returns (answer: Answer, wire: seq<Byte>)
      requires |payload| < TWO32
      modifies this
      ensures answer == ThreadAnswer(old(registered), run, payload)
      ensures answer.Answered? ==> wire == Transmit(FrameOf(answer.messageType, answer.payload), send).1
      ensures !answer.Answered? ==> wire == []
      ensures registered == old(registered)
      ensures pool == if answer.Answered? then old(pool) - {thread} else old(pool)
    {
      var buffer := new Byte[|payload|](k requires 0 <= k < |payload| => payload[k]);
      var stream := new BinaryStream.FromBuffer(buffer, AsInt(|payload|));
      assert stream.bytes == StreamOf(payload);
      var decoded := DecodeRequest(stream);
      if decoded.DecodeAborted? {
        return Aborted, [];
      } else if decoded.DecodeUndefined? {
        return Undefined, [];
      }
      answer, wire := Respond(fd, decoded.request, run, send);
      if answer.Answered? {
        pool := pool - {thread};
      }
    }

    /** thread_exec after decoding: the skeleton lookup, the call and the reply it sends. */
    method Respond(fd: int, req: Request, run: Runner, send: nat -> int) returns (answer: Answer, wire: seq<Byte>)
      requires 1 <= |req.words| && ArgsFit(req.words, req.args, |req.words| - 1)
      ensures answer == Dispatch(registered, run, req)
      ensures answer.Answered? ==> wire == Transmit(FrameOf(answer.messageType, answer.payload), send).1
      ensures !answer.Answered? ==> wire == []
    {
      var handler := new Protocol(fd);
      var status;
      if 0 !in req.words {
        if NameFiled(registered.Keys, req.name) {
          return Undefined, [];
        }
        answer := Answered(EXECUTE_FAILURE, CodePayload(EXECUTE_UNKNOWN_SKELETON));
        status, wire := handler.SendExecuteError(EXECUTE_UNKNOWN_SKELETON, send);
        return;
      }
      var key := KeyOf(RpcIdent(req.name, req.words));
      if key !in registered {
        answer := Answered(EXECUTE_FAILURE, CodePayload(EXECUTE_UNKNOWN_SKELETON));
        status, wire := handler.SendExecuteError(EXECUTE_UNKNOWN_SKELETON, send);
      } else {
        var out := run(registered[key], req.words, req.args);
        if out.0 != 0 {
          answer := Answered(EXECUTE_FAILURE, CodePayload(out.0));
          status, wire := handler.SendExecuteError(out.0, send);
        } else {
          var count := GetArgTypesLength(req.words);
          if !ArgsFit(req.words, out.1, count - 1) {
            return Undefined, [];
          }
          if count >= TWO31 || !WireString(req.name) {
            return Oversized, [];
          }
          var response := ExecuteResponsePayload(req.name, req.words, out.1);
          if |response| >= TWO31 {
            return Oversized, [];
          }
          answer := Answered(EXECUTE_SUCCESS, response);
          status, wire := handler.SendExecuteResponse(req.name, req.words, out.1, send);
        }
      }
    }
  
    /** The for loop of rpcExecute over one round's ready descriptors. */
    method ScanReady(ready: seq<Ready>, st: Loop) returns (after: Loop)
      requires Delivered(ready) && st.pool == pool
      modifies this
      ensures after == Scan(serverfd, binderfd, st, ready) && pool == after.pool
      ensures registered == old(registered)
    {
      var master, max, running, requestCode := st.master, st.max, st.running, st.requestCode;
      var i := 0;
      while i < |ready|
        invariant 0 <= i <= |ready| && registered == old(registered)
        invariant Scan(serverfd, binderfd, st, ready) == Scan(serverfd, binderfd, Loop(master, max, pool, running, requestCode), ready[i..])
      {
        ghost var before := Loop(master, max, pool, running, requestCode);
        var e := ready[i];
        assert ready[i..][0] == e && ready[i..][1..] == ready[i + 1..];
        if e.fd == serverfd {
          var newfd := e.accepted;
          if newfd > max {
            max := newfd;
          }
          master := master + {newfd};
          assert Loop(master, max, pool, running, requestCode) == ScanStep(serverfd, binderfd, before, e);
        } else {
          var spawned;
          requestCode, master, spawned := HandleRequest(e.fd, master, e.ex, e.thread);
          if requestCode < 0 {
            running := false;
          }
          assert Loop(master, max, pool, running, requestCode) == ScanStep(serverfd, binderfd, before, e);
          if !running {
            return Loop(master, max, pool, running, requestCode);
          }
        }
        i := i + 1;
      }
      return Loop(master, max, pool, running, requestCode);
    }

    /** rpcExecute over the rounds given: the guard, the serving loop, then the drain. `code` is None when the
        rounds run out with the loop still serving. */
    method RpcExecute(rounds: seq<Round>, sendTo: ThreadId -> (nat -> int))
      returns (code: Option<int>, notices: map<ThreadId, (int, seq<Byte>)>)
      requires AllDelivered(rounds)
      modifies this
      ensures registered == old(registered)
      ensures ExecuteGuard(old(registered), serverfd).Some? ==>
        code == ExecuteGuard(old(registered), serverfd) && pool == old(pool) && notices == map[]
      ensures ExecuteGuard(old(registered), serverfd).None? ==>
        var s := Serve(serverfd, binderfd, Loop({serverfd, binderfd}, binderfd, old(pool), true, 0), rounds);
        pool == s.loop.pool &&
        code == (match s
                 case SelectFailed(_) => Some(SELECT_FAILURE)
                 case TimedOut(_) => Some(SELECT_TIMEOUT)
                 case Ended(loop) => Some(loop.requestCode)
                 case Serving(_) => None) &&
        notices == (if s.Ended? then Notices(pool, pool.Keys, sendTo) else map[])
    {
      if |registered| == 0 {
        return Some(FAILURE), map[];
      }
      if serverfd < 0 {
        return Some(SOCKET_RECEIVE_ERROR), map[];
      }
      var st := Loop({serverfd, binderfd}, binderfd, pool, true, 0);
      ghost var served := Serve(serverfd, binderfd, st, rounds);
      var k := 0;
      while k < |rounds|
        invariant 0 <= k <= |rounds| && registered == old(registered) && st.pool == pool && st.running
        invariant served == Serve(serverfd, binderfd, st, rounds[k..])
        decreases |rounds| - k
      {
        var r := rounds[k];
        assert rounds[k..][0] == r && rounds[k..][1..] == rounds[k + 1..];
        assert Delivered(r.ready);
        var probed := st;
        if r.probe < 0 {
          probed := probed.(running := false);
        }
        if r.selected < 0 {
          return Some(SELECT_FAILURE), map[];
        }
        if r.selected == 0 {
          return Some(SELECT_TIMEOUT), map[];
        }
        st := ScanReady(r.ready, probed);
        if !st.running {
          notices := Drain(pool, sendTo);
          return Some(st.requestCode), notices;
        }
        k := k + 1;
      }
      return None, map[];
    }
  }
}

# A verified model of a distributed RPC framework

This project models the core of a small C++ remote-procedure-call framework in Dafny. The framework has three processes:

- **The binder.** It keeps a registry: for each procedure identity (a name plus a zero-terminated array of argument-type words), the list of server bindings that serve it. It also keeps a round-robin queue of server locations and a socket-to-server map. Servers register with it; clients ask it for one server (a location request) or for every server of a procedure (a cache request); a terminate request makes it tell every server to stop.
- **The client runtime** (`rpcCall`, `rpcCacheCall`, `rpcTerminate`). It asks the binder, sends an execute request to the chosen server and copies the output arguments of the answer back into the caller's arrays. The cached variant keeps a per-procedure list of servers and fails over along it.
- **The server runtime** (`rpcRegister`, `rpcExecute`). It files skeletons under the identity they serve, registers them with the binder, and then runs a `select` loop that reads framed requests, runs each execute request on a worker and answers it, until the binder's TERMINATE arrives.

Underneath them sit:

- the wire protocol: each frame is an unsigned 32-bit payload size, a 32-bit message type, then the payload;
- a binary stream codec (a byte vector with a read cursor);
- host-order integer conversion;
- the argument-type word accessors;
- the identity comparison (`operator<`, `==`) that keys the registry's maps.

One Dafny module models each source file:

| module | source file | form |
|---|---|---|
| `Conversion` | `conversion.cpp` | pure functions, plus serializer methods over arrays |
| `Helpers` | `helpers.cpp` | pure functions, plus the counting and comparison loops as methods |
| `RpcInfo` | `rpcinfo.cpp` | pure functions and lemmas |
| `BStream` | `bstream.cpp` | the class `BinaryStream`: a byte sequence and a cursor |
| `Protocol` | `protocol.cpp` | the class `Protocol`: the send and receive operations, writing through a `BinaryStream` |
| `Binder` | `binder.cpp` | the class `Binder`, whose fields are the process's statics, plus value-level specification functions |
| `Client` | `rpcclient.cpp` | the class `Client`, holding the binder socket and the service cache |
| `Server` | `rpcserver.cpp` | the class `Server`, holding the skeleton map, the worker pool and the sockets |

`Constants`, `Ints` and `Wrappers` hold the message and reason codes, the fixed-width integer types and `Option`.

## Modelling choices

- **Host representation.** The model assumes an LP64 little-endian host: `short` is 2 bytes, `int` 4, `long` 8. Integers are unbounded in Dafny, so every C integer is a subset type of its range, and wrap-around is written out: the `short` returned by `getArgTypeArrayLength`, the client passing that `short` on as an `unsigned int` read count, and the server keeping it as an `int`. So is the `unsigned int` frame size handed to `BinaryStream`'s `int` size (`BStream.AsInt`): from 2^31 on it reads as negative. `BinaryStream(size)` then throws `std::length_error` and ends the client (`Crashed`), and `BinaryStream(buffer, size)` copies nothing, so the first read of the empty stream fails (`BStream.StreamOf`).
- **Types header.** The argument-type constants of `rpc.h` (`ARG_CHAR` … `ARG_FLOAT`, `ARG_INPUT`, `ARG_OUTPUT`) are not part of this model. The values used are the conventional 1 to 6 and bits 31 and 30.
- **Sockets.** A socket is a parameter.
  - A receive is a function from the call's index to the count `recv` returns.
  - The bytes the peer sent are a sequence.
  - A send is a function from the call's index to the count `send` returns.
  The framing loops of `receiveMessage` and `sendMessage` are modelled call by call against these.
- **Identity keys.** The registry's `std::map`s are modelled as Dafny maps keyed by the `Key` that `<`-equivalent identities share: the C-string name, the terminator-inclusive length, and each word's scalar/array shape (`RpcInfo.EquivalentIffSameKey`). A `std::map` finds an equivalent key only when its comparison is a strict weak order, and `operator<` on `rpc_info` is not one (`RpcInfo.LessNotTransitive`). The model assumes the lookup does find it; "## Left out" names the members this assumption affects.
- **Process state and runs.**
  - The binder's and server's global statics are the fields of one class object.
  - The server's `select` loop runs over a finite sequence of rounds: the ready sockets of each round and what they deliver.
  - Each specification function (`Binder.RequestStep`, `Server.Scan`, `Client.CacheCall`, …) says what one step does to a value of the state. The class method that changes the fields in place is proved against it.
- **Undefined behaviour.** Where the source has undefined behaviour or ends the process, the model returns a distinct outcome and does not guess a value. Cases covered:
  - A read past the end of a `BinaryStream` is an uncaught `out_of_range` (`Aborted`, `Crashed`).
  - A word array with no terminator is over-read by the binder's `function_add` copy, whatever is filed (`Unterminated`).
  - A map lookup for such an array over-reads only when a key with the same C-string name is filed, because `operator<` compares names before it counts words (`Unterminated`, `Undefined`). With no such key the lookup fails on the names alone, and the request gets the ordinary not-found answer.

## Model

| member | source | states |
|---|---|---|
| Conversion.DecodeEncode | src/conversion.cpp:27-55 | A value below 256^n read back from its n little-endian bytes is the value itself. |
| Conversion.EncodeDecode | src/conversion.cpp:27-55 | Every n-byte string is the little-endian image of the value it reads as, so the byte image is a bijection. |
| Conversion.ParseSerialized16 | src/conversion.cpp:21-43 | parseInt16 and parseUInt16 read back what serializeInt16 and serializeUInt16 wrote, whatever bytes follow. |
| Conversion.ParseSerialized32 | src/conversion.cpp:27-49 | parseInt32 and parseUInt32 read back what serializeInt32 and serializeUInt32 wrote, whatever bytes follow. |
| Conversion.ParseSerialized64 | src/conversion.cpp:33-55 | parseInt64 and parseUInt64 read back what serializeInt64 and serializeUInt64 wrote, whatever bytes follow. |
| Conversion.SerializeParsed | src/conversion.cpp:85-107 | Serializing a parsed value gives back exactly the bytes that were parsed, at every width, signed and unsigned. |
| Conversion.Int16ReadUnsigned | src/conversion.cpp:39-43 | A value serialized as int16 and parsed as uint16 comes back modulo 2^16. |
| Conversion.ParseBytes16 | src/conversion.cpp:21-43 | parseInt16 and parseUInt16 take the first byte as the low-order one and the second as the high-order one. The signed value is negative exactly when the high byte is 0x80 or more, and it equals the unsigned one modulo 2^16. |
| Conversion.ParseBytes32 | src/conversion.cpp:27-49 | parseInt32 and parseUInt32 take the first byte as the lowest and the fourth as the highest (weight 2^24). The signed value is negative exactly when the fourth byte is 0x80 or more, and it equals the unsigned one modulo 2^32. |
| Conversion.ParseBytes64 | src/conversion.cpp:33-55 | parseInt64 and parseUInt64 take the first byte as the lowest and the eighth as the highest (weight 2^56). The signed value is negative exactly when the eighth byte is 0x80 or more, and it equals the unsigned one modulo 2^64. |
| Conversion.LastByteMostSignificant | src/conversion.cpp:21-55 | In a little-endian byte string the last byte weighs 256 to the power of the number of bytes before it. |
| Conversion.SignedUnsignedSameBytes | src/conversion.cpp:85-107 | The signed and unsigned serializers of one width write the same bytes for every value both can hold. |
| Conversion.SerializeInt16 | src/conversion.cpp:85-87 | The buffer's first 2 bytes become the value's little-endian image; the rest of the buffer is unchanged. |
| Conversion.SerializeInt32 | src/conversion.cpp:89-91 | The buffer's first 4 bytes become the value's image; the rest is unchanged. |
| Conversion.SerializeInt64 | src/conversion.cpp:93-95 | The buffer's first 8 bytes become the value's image; the rest is unchanged. |
| Conversion.SerializeUInt16 | src/conversion.cpp:97-99 | The buffer's first 2 bytes become the unsigned value's image; the rest is unchanged. |
| Conversion.SerializeUInt32 | src/conversion.cpp:101-103 | The buffer's first 4 bytes become the unsigned value's image; the rest is unchanged. |
| Conversion.SerializeUInt64 | src/conversion.cpp:105-107 | The buffer's first 8 bytes become the unsigned value's image; the rest is unchanged. |
| Helpers.GetArgTypeArrayLength | src/helpers.cpp:30-36 | The result is the word's low 16 bits, read as a signed short: it is congruent to the word modulo 2^16, and it is 0 exactly when those bits are 0. |
| Helpers.GetArgType | src/helpers.cpp:38-44 | The base-type field is a value in [0, 256). |
| Helpers.IsArgTypeInput | src/helpers.cpp:53-57 | The input flag (bit 31) is set exactly when the word is negative. |
| Helpers.IsArgTypeOutput | src/helpers.cpp:59-63 | The output flag is bit 30: it is set exactly when the word's low 31 bits are 2^30 or more, whatever the sign bit. |
| Helpers.FieldsOfArgWord | src/helpers.cpp:30-63 | On a word built from its four fields, each accessor returns its own field: base type, input flag, output flag, and array length modulo 2^16. The word is scalar exactly when the length is 0. |
| Helpers.TypesLength | src/helpers.cpp:46-51 | The count ends at the first 0 word and includes it: every earlier word is non-zero. |
| Helpers.GetArgTypesLength | src/helpers.cpp:46-51 | The counting loop returns the terminator-inclusive count of the words. |
| Helpers.TypesLengthUnique | src/helpers.cpp:46-51 | Any count whose last word is 0 and whose earlier words are non-zero is the count. |
| Helpers.TypeSizeof | src/helpers.cpp:67-91 | The size is positive exactly for the six base types; it is one of 1, 2, 4 or 8, and -1 otherwise. |
| Helpers.SameIntArr | src/helpers.cpp:193-218 | The result is 0 or 1. It is 0 exactly when the two arrays agree on base type at every position before a position where both base types are 0. |
| Helpers.NotSame | src/helpers.cpp:193-218 | A first position where the base types differ rules out any common end. |
| RpcInfo.CStr | src/rpcinfo.cpp:59 | The C string of a name is its prefix before the first NUL. |
| RpcInfo.StringLessTrichotomy | src/rpcinfo.cpp:60 | std::string `<` is irreflexive, and on distinct strings exactly one direction holds. |
| RpcInfo.WordsEqualFrom | src/rpcinfo.cpp:32-36 | The element loop of `==` holds exactly when the word ranges coincide. |
| RpcInfo.FunctionInfoEq | src/rpcinfo.cpp:11-39 | Bindings found `==` share full name, host and port, terminator-inclusive length and every word up to the terminator. |
| RpcInfo.FunctionInfoEqMeans | src/rpcinfo.cpp:11-39 | Two bindings are `==` exactly when they share host, port, full name and zero-terminated word array. |
| RpcInfo.ServesAtOnlyItsLocation | src/rpcinfo.cpp:41-49 | A binding equals exactly one location: its own. |
| RpcInfo.ShapeScanMeans | src/rpcinfo.cpp:78-93 | The tie-break loop of `<` is never true both ways. It is false both ways exactly when every position has the same scalar/array shape on both sides. |
| RpcInfo.ShapeScan | src/rpcinfo.cpp:76-93 | The tie-break loop of `<` is false over a range of words that agree position by position. |
| RpcInfo.Less | src/rpcinfo.cpp:52-98 | No identity is less than itself. Between identities with the same C-string name, the smaller never has more words. |
| RpcInfo.NamesDifferDecide | src/rpcinfo.cpp:59-61 | When the C-string names differ, `<` is the full-string order and holds in exactly one direction. |
| RpcInfo.ShorterIsLess | src/rpcinfo.cpp:68-74 | With equal C-string names, the identity with fewer terminator-inclusive words is the smaller. |
| RpcInfo.LessAsymmetric | src/rpcinfo.cpp:52-98 | No two identities are each less than the other. |
| RpcInfo.EquivalentMeans | src/rpcinfo.cpp:52-98 | Two identities are `<`-equivalent exactly when C-string name, length and every word's shape agree. Base types, flags and array sizes are ignored. |
| RpcInfo.KeyOf | src/rpcinfo.cpp:52-98 | An identity's key holds its C-string name, its terminator-inclusive length and one shape per non-terminator word. |
| RpcInfo.EquivalentIffSameKey | src/rpcinfo.cpp:52-98 | Two identities are `<`-equivalent exactly when their keys are equal, in both directions. |
| RpcInfo.EqualBindingsShareKey | src/rpcinfo.cpp:11-39 | Bindings that are `==` name equivalent identities and so are filed under one key. |
| RpcInfo.WireNameSameKey | src/rpcinfo.cpp:59 | A name read from the wire, with its NUL, names the same procedure as the bare name, though the std::strings differ. |
| RpcInfo.LessNotTransitive | src/rpcinfo.cpp:78-93 | Concrete identities a, b, c with a < b and b < c, yet a and c equivalent: `<` is not a strict weak order. |
| BStream.BytesAt | src/bstream.cpp:317-321 | A read of n chars fails exactly when it runs outside the vector. Otherwise it returns the n bytes at the cursor and advances by n. |
| BStream.CStringAtSpans | src/bstream.cpp:87-97 | readCString returns the run from the cursor up to and including the first NUL, and the cursor ends just past it. |
| BStream.TextsAt | src/bstream.cpp:341-351 | An array of floats or doubles reads back as n texts, none of which contains a NUL. |
| BStream.StringImage | src/bstream.cpp:60-68 | writeString writes the int32 length + 1, the chars and a NUL: the string's length plus 5 bytes. |
| BStream.IntsReadBack | src/bstream.cpp:105-256 | Each fixed-width reader, at the offset where its writer wrote, returns the value and advances by the width, whatever surrounds it. |
| BStream.StringReadsBack | src/bstream.cpp:60-85 | readString after writeString(s) gives s followed by its NUL and consumes the string's length plus 5 bytes. |
| BStream.CStringReadsBack | src/bstream.cpp:70-97 | readCString after a NUL-free string and its NUL gives those bytes back and ends just past the NUL. |
| BStream.Int32sReadBack | src/bstream.cpp:291-333 | Reading n int32 words where writeInt32 wrote them returns the words and advances by 4n. |
| BStream.Int16sReadBack | src/bstream.cpp:285-327 | Reading n int16 values where they were written returns them and advances by 2n. |
| BStream.Int64sReadBack | src/bstream.cpp:297-339 | Reading n int64 values where they were written returns them and advances by 8n. |
| BStream.CharsReadBack | src/bstream.cpp:279-321 | Reading n chars where they were written returns them and advances by n. |
| BStream.TextsReadBack | src/bstream.cpp:303-351 | Numbers written as texts come back as the same texts, without their NULs. |
| BStream.ReadOutsideFails | src/bstream.cpp:198-256 | Each of the six fixed-width reads (int16, int32, int64 and their unsigned forms) fails exactly when it would run past either end of the vector. A string read that succeeds stays inside it. |
| BStream.BinaryStream.constructor | src/bstream.cpp:20-22 | A new stream is empty, with the cursor at 0. |
| BStream.BinaryStream.OfSize | src/bstream.cpp:24-27 | BinaryStream(size) holds size zero bytes, with the cursor at 0. |
| BStream.BinaryStream.FromBuffer | src/bstream.cpp:29-34 | BinaryStream(buffer, size) holds a copy of the buffer's first size bytes, with the cursor at 0. A size of 0 or less copies nothing. |
| BStream.AsInt | src/bstream.cpp:29-34 | An `unsigned int` passed as `int` keeps its bits modulo 2^32, and reads as negative exactly from 2^31 on. |
| BStream.StreamOfMeans | src/bstream.cpp:29-34 | A stream built over a received payload holds the payload when it is shorter than 2^31 bytes. Otherwise it is empty, and every read from it fails. |
| BStream.BinaryStream.Seek | src/bstream.cpp:46-48 | Only the cursor moves, to the given index. |
| BStream.BinaryStream.Reset | src/bstream.cpp:50-52 | Only the cursor moves, back to 0. |
| BStream.BinaryStream.WriteChar | src/bstream.cpp:101-103 | The char is appended; the cursor stays where it was. |
| BStream.BinaryStream.WriteInt16 | src/bstream.cpp:105-112 | The value's 2-byte image is appended; the cursor stays where it was. |
| BStream.BinaryStream.WriteInt32 | src/bstream.cpp:114-121 | The value's 4-byte image is appended; the cursor stays where it was. |
| BStream.BinaryStream.WriteInt64 | src/bstream.cpp:123-130 | The value's 8-byte image is appended; the cursor stays where it was. |
| BStream.BinaryStream.WriteUInt16 | src/bstream.cpp:132-139 | The unsigned value's 2-byte image is appended; the cursor stays where it was. |
| BStream.BinaryStream.WriteUInt32 | src/bstream.cpp:141-148 | The unsigned value's 4-byte image is appended; the cursor stays where it was. |
| BStream.BinaryStream.WriteUInt64 | src/bstream.cpp:150-157 | The unsigned value's 8-byte image is appended; the cursor stays where it was. |
| BStream.BinaryStream.WriteString | src/bstream.cpp:60-68 | The string's image (int32 length + 1, the chars, NUL) is appended. |
| BStream.BinaryStream.WriteCString | src/bstream.cpp:70-76 | The chars before the value's first NUL are appended, then one NUL. |
| BStream.BinaryStream.WriteChars | src/bstream.cpp:279-283 | The first `length` chars are appended; nothing is appended when `length` is not positive. |
| BStream.BinaryStream.WriteInt16s | src/bstream.cpp:285-289 | The images of the first `length` values are appended back to back. |
| BStream.BinaryStream.WriteInt32s | src/bstream.cpp:291-295 | The images of the first `length` words are appended back to back. |
| BStream.BinaryStream.WriteInt64s | src/bstream.cpp:297-301 | The images of the first `length` values are appended back to back. |
| BStream.BinaryStream.WriteTexts | src/bstream.cpp:303-313 | The texts of the first `length` numbers are appended, each followed by a NUL. |
| BStream.BinaryStream.ReadBytes | src/bstream.cpp:317-321 | Reads n chars one at a time. The result and the cursor are those of the byte-level read: a failure leaves the cursor at the first index outside the vector. |
| BStream.BinaryStream.ReadChar | src/bstream.cpp:192-196 | One char at the cursor, or a failure outside the vector; the bytes are unchanged. |
| BStream.BinaryStream.ReadInt16 | src/bstream.cpp:198-206 | The int16 at the cursor, or a failure, as the byte-level reader says. |
| BStream.BinaryStream.ReadInt32 | src/bstream.cpp:208-216 | The int32 at the cursor, or a failure, as the byte-level reader says. |
| BStream.BinaryStream.ReadInt64 | src/bstream.cpp:218-226 | The int64 at the cursor, or a failure, as the byte-level reader says. |
| BStream.BinaryStream.ReadUInt16 | src/bstream.cpp:228-236 | The uint16 at the cursor, or a failure, as the byte-level reader says. |
| BStream.BinaryStream.ReadUInt32 | src/bstream.cpp:238-246 | The uint32 at the cursor, or a failure, as the byte-level reader says. |
| BStream.BinaryStream.ReadUInt64 | src/bstream.cpp:248-256 | The uint64 at the cursor, or a failure, as the byte-level reader says. |
| BStream.BinaryStream.ReadString | src/bstream.cpp:78-85 | The int32 count, then that many chars, as the byte-level reader says. |
| BStream.BinaryStream.ReadCString | src/bstream.cpp:87-97 | The chars up to and including the next NUL, as the byte-level reader says. |
| BStream.BinaryStream.ReadChars | src/bstream.cpp:317-321 | Succeeds exactly when the byte-level read does. Then the first `length` slots of the array hold the chars and the cursor moves past them. Slots past `length` are untouched either way. |
| BStream.BinaryStream.ReadInt16s | src/bstream.cpp:323-327 | Succeeds exactly when the byte-level read does. Then the array's first `length` slots hold the values. Later slots are untouched. |
| BStream.BinaryStream.ReadInt32s | src/bstream.cpp:329-333 | Succeeds exactly when the byte-level read does. Then the array's first `length` slots hold the words. Later slots are untouched. |
| BStream.BinaryStream.ReadInt64s | src/bstream.cpp:335-339 | Succeeds exactly when the byte-level read does. Then the array's first `length` slots hold the values. Later slots are untouched. |
| BStream.BinaryStream.ReadTexts | src/bstream.cpp:341-351 | `length` numbers, each the text before its NUL, as the byte-level reader says. |
| Conversion.FromLittleEndian | src/conversion.cpp:21-55 | The value a little-endian byte string stands for lies below 256 to the power of its length. |
| Conversion.LittleEndian | src/conversion.cpp:85-107 | The n-byte image of a value has exactly n bytes. |
| Conversion.Int16Bytes | src/conversion.cpp:85-87 | serializeInt16 writes exactly 2 bytes. |
| Conversion.Int32Bytes | src/conversion.cpp:89-91 | serializeInt32 writes exactly 4 bytes. |
| Conversion.Int64Bytes | src/conversion.cpp:93-95 | serializeInt64 writes exactly 8 bytes. |
| Conversion.UInt16Bytes | src/conversion.cpp:97-99 | serializeUInt16 writes exactly 2 bytes. |
| Conversion.UInt32Bytes | src/conversion.cpp:101-103 | serializeUInt32 writes exactly 4 bytes. |
| Conversion.UInt64Bytes | src/conversion.cpp:105-107 | serializeUInt64 writes exactly 8 bytes. |
| RpcInfo.Terminated | src/binder.cpp:94-97 | The copied word list keeps the words up to the terminator and ends with its only 0. |
| RpcInfo.Shape | src/rpcinfo.cpp:83-91 | A word counts as a scalar for `<` exactly when its array-length field is 0. |
| RpcInfo.ShapesOf | src/rpcinfo.cpp:78-93 | The shape list has one entry per word, each entry being that word's shape. |
| RpcInfo.Location | src/rpcinfo.cpp:41-44 | A binding is served at the location it carries. |
| BStream.CharAt | src/bstream.cpp:192-196 | readChar succeeds exactly when the cursor is inside the vector. |
| BStream.CharsAt | src/bstream.cpp:317-321 | A successful read of n chars holds n chars. |
| BStream.Int16sAt | src/bstream.cpp:323-327 | A successful read of n int16 values holds n values. |
| BStream.Int32sAt | src/bstream.cpp:329-333 | A successful read of n int32 values holds n values. |
| BStream.Int64sAt | src/bstream.cpp:335-339 | A successful read of n int64 values holds n values. |
| BStream.Int16sImage | src/bstream.cpp:285-289 | An array of n int16 values takes 2n bytes. |
| BStream.Int32sImage | src/bstream.cpp:291-295 | An array of n int32 values takes 4n bytes. |
| BStream.Int64sImage | src/bstream.cpp:297-301 | An array of n int64 values takes 8n bytes. |
| BStream.TextAt | src/bstream.cpp:260-274 | A float or double reads as a text with no NUL in it. |
| BStream.TextReadBack | src/bstream.cpp:260-274 | A text written with its NUL reads back as itself, and the cursor moves past the NUL. |
| BStream.BinaryStream.Size | src/bstream.cpp:54-56 | The size is the number of bytes in the vector. |
| BStream.BinaryStream.Append | src/bstream.cpp:105-111 | The bytes go to the end of the vector in order, and the cursor stays where it was. |
| Protocol.PortAsShort | src/protocol.cpp:36 | The port handed to writeInt16 is the int16 congruent to it modulo 2^16. |
| Protocol.ValueCount | src/protocol.cpp:119-123 | The number of values is the array length read as an unsigned short, or 1 for a scalar. It lies in [1, 2^16). |
| Protocol.IntegerArgWidth | src/protocol.cpp:127-139 | An integer-typed argument takes count × type_sizeof bytes on the wire. |
| Protocol.ValuesAt | src/protocol.cpp:127-148 | A read of n values of a base type, when it succeeds, holds exactly n values of that type. |
| Protocol.ValuesReadBack | src/protocol.cpp:112-150 | Reading one argument's values where the send loop wrote them returns the same values and moves past them. |
| Protocol.CodePayload | src/protocol.cpp:47-53 | A reason-code payload is the 4 bytes of one int32. |
| Protocol.LocationResponsePayload | src/protocol.cpp:80-89 | The location reply is the host string and the port: 7 bytes more than the host. |
| Protocol.PortBytes | src/protocol.cpp:80-89 | A port written through writeInt16 has the same bytes as the port written as uint16. |
| Protocol.PortAt | src/protocol.cpp:80-89 | readUInt16 where writeInt16 wrote a port gives the port back and advances by 2. |
| Protocol.OutputsImageSnoc | src/protocol.cpp:164-202 | One more argument extends the output image by that argument's values exactly when it returns any. |
| Protocol.ServiceImage | src/protocol.cpp:236-238 | One service in a cache reply is its host string and its port: 7 bytes more than the host. |
| Protocol.FrameOf | src/protocol.cpp:319-325 | A framed payload is 8 bytes longer than the payload. |
| Protocol.SendSteps | src/protocol.cpp:330-349 | The send loop takes at most what remains. When it does not fail, it returns the count not taken. It returns 0 exactly when everything was taken. |
| Protocol.Transmit | src/protocol.cpp:319-350 | The bytes the socket accepted are a prefix of the frame. The status is 0 exactly when the whole frame went out. |
| Protocol.RecvSteps | src/protocol.cpp:286-315 | The receive loop returns 0, SOCKET_CONNECTION_ERROR or SOCKET_RECEIVE_ERROR. It returns 0 exactly when every remaining byte arrived, and never counts more than remain. |
| Protocol.RecvStepsFail | src/protocol.cpp:300-305 | A recv of 0 ends the loop with SOCKET_CONNECTION_ERROR and a negative one with SOCKET_RECEIVE_ERROR, keeping what had arrived. |
| Protocol.RecvStepsAdvance | src/protocol.cpp:308-310 | A positive recv moves the bytes it delivered, at most those remaining, into the count; the rest of the loop continues from the next call. |
| Protocol.FrameLayout | src/protocol.cpp:319-325 | A frame's first 4 bytes parse back to the payload length, the next 4 to the type, and the payload follows unchanged. |
| Protocol.CodeFramesDifferOnlyInType | src/protocol.cpp:47-251 | Two reason-code frames with the same code differ only in the type field. They are equal exactly when the types are. |
| Protocol.ExecuteResponsePayload | src/protocol.cpp:154-204 | The execute response as written carries every argument's values, inputs included. It is the execute request with the uint32 count after the name left out. |
| Protocol.OutputResponsePayload | src/protocol.cpp:154-204 | The output-only response shares the name and words with the response as written and is no longer than it. The two coincide when every argument returns values. |
| Protocol.OutputsWithinArgs | src/protocol.cpp:164-202 | The output values of the first n arguments take no more bytes than all of their values. They take the same bytes when every one of those arguments returns values. |
| Protocol.ExecuteRequestExtendsLocationRequest | src/protocol.cpp:66-152 | The execute request begins with the location request's name, count and words, followed by the argument values. |
| Protocol.HeaderOf | src/protocol.cpp:255-284 | The size and type are received exactly when both 4-byte receives complete; they are the parsed uint32 and int32. A failure is a negative status. |
| Protocol.Receive | src/protocol.cpp:255-315 | A message arrives exactly when its header and all `size` payload bytes arrive. It has the parsed type and the payload bytes; a failure is a negative status. |
| Protocol.ReceiveFrame | src/protocol.cpp:255-350 | A frame delivered by receives that all complete is received as the type and payload it was sent with. |
| Protocol.CarriedFrame | src/protocol.cpp:255-350 | A frame carried whole is received as sent, with the header giving the payload length and type. |
| Protocol.Protocol.constructor | src/protocol.cpp:20-22 | The handler holds the socket it was made for. |
| Protocol.Protocol.SendMessage | src/protocol.cpp:319-350 | The frame is the uint32 size, the int32 type and the first `size` bytes of the message. The status and the bytes that went out are those of sending that frame: everything, a short count, or an error. |
| Protocol.Protocol.SendAll | src/protocol.cpp:330-349 | The send loop's status and the prefix it pushed are those of the frame's transmission. |
| Protocol.Protocol.ReceiveMessage | src/protocol.cpp:286-315 | The status is the receive loop's. The buffer holds the bytes that arrived, zeros after them up to `size`, and is untouched past `size`; a size of 0 changes nothing. |
| Protocol.ReceiveOnce | src/protocol.cpp:297-310 | One turn clears what is left and makes one recv. Bytes it delivers are stored after those already received; a failed recv leaves zeros from there on. |
| Protocol.Protocol.ReceiveMessageSize | src/protocol.cpp:271-284 | Four bytes received and parsed as a uint32, or the failing status. |
| Protocol.Protocol.ReceiveMessageType | src/protocol.cpp:255-269 | Four bytes received and parsed as an int32, or the failing status. |
| Protocol.Protocol.ReceiveReply | src/protocol.cpp:255-315 | The size, the type and the payload are received in that order. The outcome is the reception's. On success the stream is `BinaryStream(buffer, size)` with the cursor at 0: the payload, or nothing when the size is 2^31 or more. |
| Protocol.AllocatedPayload | src/rpcclient.cpp:143-155 | A received payload gets its `BinaryStream(size)` exactly when it is shorter than 2^31 bytes. |
| Protocol.Protocol.ReceiveSizedReply | src/rpcclient.cpp:143-159 | A reply read the way `sendExecuteRequest` and `processLocationResponse` read it. A header announcing 2^31 bytes or more stops it at `BinaryStream stream(length)`. Otherwise the outcome is the reception's, and on success the stream holds the payload. |
| Protocol.Protocol.SendTerminate | src/protocol.cpp:26-28 | A TERMINATE frame with an empty payload. |
| Protocol.Protocol.SendRegister | src/protocol.cpp:32-45 | A REGISTER frame carrying the host string, the port as int16, the name string, the uint32 count and the words. |
| Protocol.Protocol.SendCode | src/protocol.cpp:47-62 | A frame of the given type carrying one int32 reason code. |
| Protocol.Protocol.SendRegisterResponse | src/protocol.cpp:47-53 | A REGISTER_SUCCESS frame carrying the code. |
| Protocol.Protocol.SendRegisterError | src/protocol.cpp:55-62 | A REGISTER_FAILURE frame carrying the code. |
| Protocol.Protocol.SendLocationError | src/protocol.cpp:91-98 | A LOC_FAILURE frame carrying the code. |
| Protocol.Protocol.SendExecuteError | src/protocol.cpp:206-213 | An EXECUTE_FAILURE frame carrying the code. |
| Protocol.Protocol.SendLocationCacheError | src/protocol.cpp:244-251 | A LOC_CACHE_FAILURE frame carrying the code. |
| Protocol.Protocol.SendNameAndTypes | src/protocol.cpp:66-78 | A frame carrying the name string, the uint32 count and the words. |
| Protocol.Protocol.SendLocationRequest | src/protocol.cpp:66-78 | A LOC_REQUEST frame carrying name, count and words. |
| Protocol.Protocol.SendLocationCacheRequest | src/protocol.cpp:217-229 | A LOC_CACHE_REQUEST frame carrying name, count and words. |
| Protocol.Protocol.SendLocationResponse | src/protocol.cpp:80-89 | A LOC_SUCCESS frame carrying the host string and the port. |
| Protocol.Protocol.SendExecuteRequest | src/protocol.cpp:102-152 | An EXECUTE frame carrying name, count, words and every argument's values. |
| Protocol.Protocol.SendExecuteResponse | src/protocol.cpp:154-204 | An EXECUTE_SUCCESS frame carrying name, words and every argument's values, with no count. |
| Protocol.Protocol.SendOutputResponse | src/protocol.cpp:154-204 | An EXECUTE_SUCCESS frame carrying name, words and the values of the output arguments only: the layout the client reads. |
| Protocol.Protocol.SendLocationCacheResponse | src/protocol.cpp:231-242 | A LOC_CACHE_SUCCESS frame carrying the uint32 service count and each service's host and port, in list order. |
| Protocol.WriteServices | src/protocol.cpp:234-239 | The loop appends every service's host and port in list order; the cursor does not move. |
| Protocol.WriteExecuteRequest | src/protocol.cpp:103-150 | The stream holds the execute request payload. |
| Protocol.WriteExecuteResponse | src/protocol.cpp:155-202 | The stream holds the execute response payload as written: every argument's values. |
| Protocol.WriteOutputResponse | src/protocol.cpp:155-202 | The stream holds the output-only response payload. |
| Protocol.WriteArgs | src/protocol.cpp:113-150 | The argument loop appends the values of the first n arguments, in order. |
| Protocol.WriteOutputs | src/protocol.cpp:164-202 | The output-only loop appends the values of the arguments that return values, in order. |
| Protocol.WriteArg | src/protocol.cpp:127-148 | One argument's values are appended by base type; nothing is appended for an unknown type. |
| Protocol.ReadValues | src/rpcclient.cpp:84-115 | Reads n values of a base type. It succeeds exactly when the byte-level read does, and then gives its values and cursor. |
| Protocol.Clear | src/protocol.cpp:298 | The memset zeroes the rest of the buffer and nothing else. |
| Protocol.Fill | src/protocol.cpp:301 | The bytes a recv delivered land after those already received; the buffer from `end` on is untouched. |
| Binder.FirstServing | src/binder.cpp:181-188 | The index found is the first binding located at the server, and no earlier binding is; -1 means none of the list is. |
| Binder.FirstEqual | src/binder.cpp:116-129 | The index found is the first binding `==` to the new one, and no earlier binding is; -1 means no binding is. |
| Binder.Without | src/binder.cpp:121 | Erasing entry i keeps everything before and after it in order and shortens the list by one; an index outside the list erases nothing. |
| Binder.RemoveValue | src/binder.cpp:170 | list::remove by value leaves no copy of the value, keeps every other element and adds none. |
| Binder.RemoveValueKeepsNoDuplicates | src/binder.cpp:170 | Removing a queued server from a queue without duplicates keeps it without duplicates and shortens it by exactly one. |
| Binder.Rotate | src/binder.cpp:75 | Moving the head to the tail n times keeps the queue's length. |
| Binder.RotateProperties | src/binder.cpp:61-81 | A rotated queue holds the same servers, a full rotation restores it, and the last entry is the last one moved. |
| Binder.FirstSupported | src/binder.cpp:61-81 | The index found is the first queued server with a binding in the list, and no earlier server has one. |
| Binder.Pick | src/binder.cpp:45-84 | getPriorityServer keeps the queue a permutation of itself. It finds nothing exactly when the key is unknown or no queued server serves it, and then leaves the queue alone. A found server is queued, serves the key and ends up last. |
| Binder.PickIsEarliest | src/binder.cpp:45-84 | The server picked is the earliest queued one that serves the key. Every server scanned before it moves, in order, behind it. |
| Binder.PickAlternates | src/binder.cpp:282-283 | Round robin: when a second queued server serves the key, two picks in a row return different servers. |
| Binder.Bindings | src/binder.cpp:52-57 | A key not in the function map has no bindings. |
| Binder.NewBinding | src/binder.cpp:89-112 | The stored identity is the word list cut after its first 0, and it falls under the same key as the one received. |
| Binder.AddMeans | src/binder.cpp:114-133 | function_add answers FUNCTION_OVERRIDDEN exactly when an `==` binding was listed, and SUCCESS otherwise. The list grows only on SUCCESS, and then by appending. The new binding is always last. |
| Binder.AddKeepsDistinct | src/binder.cpp:114-132 | A list with no two `==` bindings keeps that property after an add, and the new binding is the only one `==` to itself. |
| Binder.RemovedNoneEqual | src/binder.cpp:116-129 | Once the first `==` binding is erased, no binding `==` to the new one is left. |
| Binder.WithoutKeepsDistinct | src/binder.cpp:121 | Erasing one binding keeps a list free of `==` pairs. |
| Binder.MapAfterAdd | src/binder.cpp:99-108 | function_add creates the key's entry when it is missing and adds no other key. |
| Binder.MapAfterAddKeepsValid | src/binder.cpp:87-134 | function_add keeps the registry invariant, and every list under another key is unchanged. |
| Binder.ListAfterAddKeepsFiled | src/binder.cpp:87-134 | A list filed under a key stays filed there after a binding of that key is added. |
| Binder.RegisterServerMeans | src/binder.cpp:137-157 | server_register keeps the invariant and leaves the function map alone. Afterwards the location is queued exactly once. The registry changes exactly when the location was not yet queued; it is then the queue's tail and owned by the socket. |
| Binder.MapWithout | src/binder.cpp:178-189 | server_remove's walk keeps every key of the function map. |
| Binder.WithoutKeepsFiled | src/binder.cpp:178-189 | Erasing a binding keeps a list filed under its key. |
| Binder.RemoveServerMeans | src/binder.cpp:160-197 | server_remove keeps the invariant and every key. It changes nothing for an unknown socket. Otherwise the server leaves the queue, which shrinks by one, and the socket leaves the socket map while every other socket keeps its server. |
| Binder.RemoveClearsSingleBindings | src/binder.cpp:178-189 | When no list held two bindings at the removed location, no binding there is left. |
| Binder.FlagVariantsBothKept | src/binder.cpp:116-132 | Two registrations by one server that differ only in an argument's input/output flag share a key but are not `==`. Both are kept, and the second add answers SUCCESS. |
| Binder.RemoveLeavesSecondBinding | src/binder.cpp:178-189 | After the two registrations of FlagVariantsBothKept, server_remove erases only the first. The second stays listed at the departed location. |
| Binder.RegisterRoundTrip | src/binder.cpp:203-210 | The binder reads a sendRegister payload back as written: host and name with their NUL, the port, and the word list up to its terminator. |
| Binder.RegisterImageReads | src/binder.cpp:203-210 | Five fields laid out as the register payload are read back field by field. |
| Binder.RegisterReads | src/binder.cpp:203-210 | Five reads that succeed in a row yield the register request made of their values. |
| Binder.NameTypesRoundTrip | src/binder.cpp:272-277 | The binder reads a location or cache request payload back as the client wrote it. |
| Binder.ReadsOfThree | src/binder.cpp:233-238 | A name, a count and that many words, laid out in a row, are read back as the name with its NUL and the words. |
| Binder.RegisteredUnderClientKey | src/binder.cpp:203-214 | The identity the binder files a registration under has the same key as the identity the server sent. A lookup by that key, as the model performs it, finds the binding for a client asking for that identity. |
| Binder.ReadRegisterRequest | src/binder.cpp:203-210 | The stream reads of handleRegisterRequest give the register request at the payload's start, or None exactly when a read leaves the payload. |
| Binder.ReadNameTypes | src/binder.cpp:272-277 | The stream reads of the location and cache handlers give the name and word list, or None exactly when a read leaves the payload. |
| Binder.RegisterHandled | src/binder.cpp:200-227 | A register payload that fails to read ends the binder and changes nothing. Otherwise the server's location is queued afterwards. The queue only grows, at its tail, and no key leaves the function map. |
| Binder.LocationHandled | src/binder.cpp:269-296 | Only the queue changes, by a permutation. A read failure ends the binder. The answer is undefined exactly when the word list has no 0 and a key with the same C-string name is filed. |
| Binder.CacheHandled | src/binder.cpp:230-266 | A read failure ends the binder. The answer is undefined exactly when the word list has no 0 and a key with the same C-string name is filed. |
| Binder.RegisterKeepsValid | src/binder.cpp:200-227 | handleRegisterRequest keeps the registry invariant. |
| Binder.LocationKeepsValid | src/binder.cpp:269-296 | handleLocationRequest keeps the registry invariant. |
| Binder.ReorderKeepsValid | src/binder.cpp:75 | Any permutation of the queue keeps the registry invariant. |
| Binder.RegisterReplyCodes | src/binder.cpp:200-227 | A register request is never answered with REGISTER_FAILURE. A read failure ends the binder; otherwise the answer carries SUCCESS or FUNCTION_OVERRIDDEN. |
| Binder.LocationReplyMeans | src/binder.cpp:269-296 | A location request is answered FUNCTION_NOT_AVAILABLE exactly when no queued server serves its key. A word list without its 0 has no key and gets that answer too, unless a key with the same C-string name is filed; only then is the answer undefined. Either way the queue keeps its servers. |
| Binder.CacheReplyMeans | src/binder.cpp:230-266 | A cache request is answered FUNCTION_NOT_AVAILABLE exactly when nothing is filed under its key, and otherwise lists every binding filed there. A word list without its 0 gets FUNCTION_NOT_AVAILABLE unless a key with the same C-string name is filed; only then is the answer undefined. |
| Binder.RegisterThenLocate | src/binder.cpp:200-296 | After a server's register payload is handled, a client's location request for the same identity finds a server. |
| Binder.RegisterFilesBinding | src/binder.cpp:212-214 | After a register request, its location is queued and has a binding under its identity's key. |
| Binder.Pending | src/binder.cpp:364 | A socket not seen yet has no payload pending. |
| Binder.Recorded | src/binder.cpp:379 | A socket not seen yet reads the type FAILURE. |
| Binder.CloseMeans | src/binder.cpp:346-354 | handleServerClose keeps the invariant and leaves nothing pending on the socket. A registered socket loses its server and reads FAILURE afterwards. Every other socket keeps its pending size and type. |
| Binder.RequestStepKeepsValid | src/binder.cpp:357-430 | handleRequest keeps the registry invariant whatever arrives. |
| Binder.PayloadKeepsValid | src/binder.cpp:364-404 | The payload branch keeps the registry invariant. |
| Binder.FrameHeaderCall | src/binder.cpp:405-424 | The first call on a sent frame records its payload size as pending and its type. |
| Binder.FramePayloadCall | src/binder.cpp:364-394 | The second call hands exactly the payload to the handler for the recorded type, for a payload shorter than 2^31 bytes. An empty payload is never dispatched. |
| Binder.OversizedPayloadCall | src/binder.cpp:364-394 | A pending size of 2^31 or more reaches the handler as an empty stream. A register, location or cache request then ends the binder at its first read, with the registry unchanged. |
| Binder.HeaderCall | src/binder.cpp:405-424 | A header that arrives whole records its size and type and dispatches nothing. |
| Binder.PayloadCall | src/binder.cpp:364-385 | A pending payload that arrives whole is dispatched on the recorded type, with the pending size cleared. |
| Binder.Wires | src/binder.cpp:357-430 | One handleRequest call writes to the request's own socket only when it answers, and then a prefix of the answer frame. A terminate writes to every registered socket. Otherwise nothing is written. |
| Binder.NoticeWires | src/binder.cpp:304-310 | Every notified socket takes a prefix of the TERMINATE frame, and no other socket takes anything. |
| Binder.FindServing | src/binder.cpp:181-188 | The scan finds the first binding at the server. |
| Binder.FindEqual | src/binder.cpp:116-129 | The scan finds the first `==` binding. |
| Binder.AddToList | src/binder.cpp:114-133 | One list after function_add, and its code, are those of the value-level add, whose meaning AddMeans states. |
| Binder.DropFirstServing | src/binder.cpp:181-188 | One list loses its first binding at the server. |
| Binder.DropEverywhere | src/binder.cpp:178-189 | The walk over the function map erases each list's first binding at the server. |
| Binder.NotifyAll | src/binder.cpp:304-310 | Every socket of the socket-server map is sent a TERMINATE frame, and no other socket is. |
| Binder.CopyArguments | src/binder.cpp:94-97 | The heap copy holds the words up to and including the first 0, and ends with its only 0. |
| Binder.PriorityScan | src/binder.cpp:61-81 | The loop returns the server and the rotated queue that Pick describes. |
| Binder.PickFound | src/binder.cpp:61-81 | A scan stopping at entry i returns that server, with i + 1 entries rotated. |
| Binder.PickNone | src/binder.cpp:61-81 | A scan through the whole queue finds nothing and leaves the queue where it was. |
| Binder.Binder.constructor | src/binder.cpp:30-42 | Before main, every static is empty and the binder is not running. |
| Binder.Binder.GetPriorityServer | src/binder.cpp:45-84 | Returns Pick's server and leaves the queue rotated as Pick says. Nothing else changes. |
| Binder.Binder.FunctionAdd | src/binder.cpp:87-134 | The map becomes MapAfterAdd's map, the code is AddCode's, and the invariant is kept. |
| Binder.Binder.ServerRegister | src/binder.cpp:137-157 | The registry becomes RegisterServer's, whose meaning RegisterServerMeans states. |
| Binder.Binder.ServerRemove | src/binder.cpp:160-197 | The state becomes that of server_remove with its bookkeeping, and the invariant is kept. |
| Binder.Binder.HandleServerClose | src/binder.cpp:346-354 | The state becomes Close's, whose meaning CloseMeans states. |
| Binder.Binder.HandleRegisterRequest | src/binder.cpp:200-227 | The registry and the answer are those of RegisterHandled. The socket takes the answer frame's prefix that send delivers. |
| Binder.Binder.HandleLocationRequest | src/binder.cpp:269-296 | The registry and the answer are those of LocationHandled, and the invariant is kept. The socket takes the answer frame's prefix that send delivers. |
| Binder.Binder.HandleLocationCacheRequest | src/binder.cpp:230-266 | The answer is CacheHandled's, whose meaning CacheReplyMeans states. The socket takes the answer frame's prefix that send delivers. |
| Binder.Binder.HandleTerminateRequest | src/binder.cpp:299-310 | The binder stops running and notifies every registered socket. Nothing else changes. |
| Binder.Binder.HandleRequest | src/binder.cpp:357-430 | The new state and the outcome are RequestStep's. The sockets take exactly what Wires says, and the invariant is kept. |
| Binder.Binder.HandlePayload | src/binder.cpp:364-404 | The payload branch: the state and outcome are PayloadStep's, with the stream built over the payload's size as an `int`. |
| Binder.Binder.DispatchPayload | src/binder.cpp:382-403 | The switch over the recorded type: the state and outcome are Dispatch's. |
| Binder.Binder.HandleMessage | src/binder.cpp:385-394 | The three answering cases of the switch agree with Dispatch. |
| Binder.Binder.DispatchOther | src/binder.cpp:394-402 | The cases of the switch that answer nobody agree with Dispatch. TERMINATE notifies every registered socket, and any other type is ignored and writes nothing. |
| Binder.Binder.HandleHeader | src/binder.cpp:405-429 | The header branch: the state and outcome are HeaderStep's. |
| Binder.Binder.HandleType | src/binder.cpp:415-428 | The type half of the header branch: the state and outcome are TypeStep's. |
| Binder.Binder.RecordType | src/binder.cpp:422-428 | The received type is recorded, and TERMINATE is acted on at once, as Typed says. |
| Client.SendableRequests | src/rpcclient.cpp:286 | A call whose execute request fits a frame also has a location and cache request that fit one. |
| Client.Connect | src/rpcclient.cpp:28-48 | binder_connect keeps an open descriptor. Otherwise it stores what socket_create returned. The status is 0 exactly when the stored descriptor is not negative, and INIT_BINDER_SOCKET_ERROR otherwise. |
| Client.ClientCount | src/rpcclient.cpp:68-118 | An output scalar reads one value and an array reads its length. A `short` length of 2^15 or more turns into a count of at least 2^32 - 2^15 once passed as unsigned. |
| Client.OutputsAtKeeps | src/rpcclient.cpp:58-120 | The response loop writes only into the slots of output arguments it has reached. Every other slot keeps the caller's value. |
| Client.ResponseAt | src/rpcclient.cpp:53-122 | A successful read keeps the number of words and arguments. The caller's words past the count are kept. |
| Client.ExecuteReply | src/rpcclient.cpp:143-186 | A reply the client cannot receive is its receive status, with nothing changed. Any status but 0 leaves the caller's words and values as they were. A payload of 2^31 bytes or more ends the client at `BinaryStream stream(length)`. |
| Client.Execute | src/rpcclient.cpp:125-187 | A failed call, for any reason, leaves the caller's words and values as they were, and a successful one keeps their sizes. After a complete send, a received reply decides the call. A header announcing 2^31 bytes or more either ends the client or fails the call. |
| Client.ExecuteFailureReported | src/rpcclient.cpp:164-167 | A server's EXECUTE_FAILURE code reaches the caller unchanged, with nothing else changed. |
| Client.ProcessExecuteResponse | src/rpcclient.cpp:53-122 | The array reads leave the caller's words and arguments as ResponseAt describes. It reports failure exactly when a read leaves the payload. |
| Client.SendExecuteRequest | src/rpcclient.cpp:125-187 | The status, crash and the caller's arrays afterwards are those of Execute on the connection. |
| Client.Failover | src/rpcclient.cpp:190-215 | The scan returns 0 or -1; -1 leaves the caller's values untouched. |
| Client.FirstSuccess | src/rpcclient.cpp:194-212 | The index found is the first service whose execute returns 0, and no earlier service's does. |
| Client.FailoverTakesFirstSuccess | src/rpcclient.cpp:190-215 | sendExecuteToAvailable gives the execute at the first service that succeeds. When no service succeeds it gives -1 with the caller's values untouched. |
| Client.FailoverStep | src/rpcclient.cpp:196-211 | One turn of the scan: a service it cannot connect to is passed over, a 0 ends the scan, and any other status moves on. |
| Client.ThirdServerAnswers | src/rpcclient.cpp:190-215 | Of three listed servers, when the first two cannot be reached and the third succeeds, the call gives the third server's result. |
| Client.SendExecuteToAvailable | src/rpcclient.cpp:190-215 | The loop gives the status and caller's arrays of Failover, whose meaning FailoverTakesFirstSuccess states. |
| Client.LocationReply | src/rpcclient.cpp:230-266 | LOC_FAILURE's code is returned as it is, and a reply that cannot be received returns its status. A payload of 2^31 bytes or more ends the client at `BinaryStream stream(messageSize)`. |
| Client.LocationOf | src/rpcclient.cpp:227-267 | A received reply is decoded by LocationReply. A header announcing 2^31 bytes or more ends the client. A failed receive returns its status. |
| Client.LocationReplyRoundTrip | src/rpcclient.cpp:250-266 | The binder's two location replies decode to what it sent: the host with its NUL and the port, or the reason code. |
| Client.ProcessLocationResponse | src/rpcclient.cpp:220-267 | The receive and decode give LocationOf what the binder delivered, including the end of the client at an oversized header. |
| Client.Reported | src/rpcclient.cpp:300-311 | rpcCall reports a crash exactly when the execute crashed, and otherwise the execute's status and values. |
| Client.RemoteCall | src/rpcclient.cpp:270-312 | After rpcCall the binder descriptor is the one binder_connect leaves. Any status but 0 leaves the caller's values as they were. |
| Client.RemoteCallAtLocatedServer | src/rpcclient.cpp:295-311 | When the binder names a server, rpcCall is exactly one execute at that server and no other. |
| Client.RemoteCallRefused | src/rpcclient.cpp:295-298 | A negative code from the binder is returned, and nothing is executed. |
| Client.ServicesAt | src/rpcclient.cpp:321-328 | A successful read of n services yields n servers. |
| Client.CacheReply | src/rpcclient.cpp:373-415 | A reply that cannot be received returns its status, and an empty payload returns RECEIVE_INVALID_MESSAGE. A cache reply of 2^31 bytes or more is read through an empty stream, so it ends the client. Any other type gives RECEIVE_INVALID_MESSAGE_TYPE. |
| Client.Dialled | src/rpcclient.cpp:321-327 | The client dials one server per listed binding. |
| Client.ListImageIsServicesImage | src/protocol.cpp:231-242 | The cache response's service list, laid out from the front as the client reads it, is the same bytes as the binder wrote. |
| Client.ServicesReadBack | src/rpcclient.cpp:321-328 | The client's loop reads back every host and port the binder's cache reply wrote, and stops after the last. |
| Client.ServiceListReadsBack | src/rpcclient.cpp:317-332 | The count and then every listed server are read back, ending at the end of the payload. |
| Client.CacheReplyRoundTrip | src/rpcclient.cpp:398-415 | The binder's two cache replies decode to what it sent: every listed server with its host's NUL, or the reason code. |
| Client.ReadServices | src/rpcclient.cpp:321-328 | The stream loop yields the servers ServicesAt reads, or fails exactly when it does. |
| Client.MergedFrom | src/rpcclient.cpp:58-120 | Each output argument in the range holds the server's values, and every other argument holds the caller's. |
| Client.OutputsReadBack | src/rpcclient.cpp:58-120 | Over output values written in argument order, the loop gives each output argument the server's values, and every other argument keeps the caller's. |
| Client.Skipped | src/rpcclient.cpp:63-65 | An argument that returns nothing adds no bytes and is passed over without a read, and it keeps the caller's value. |
| Client.OutputTaken | src/rpcclient.cpp:67-119 | An output argument's values are read into its slot, and the loop carries on right after them. |
| Client.CStrOfPadded | src/rpcclient.cpp:179 | The name in a reply, read back with its extra NUL, compares equal under strcmp to the bare name. |
| Client.ResponseMisreadsOutput | src/protocol.cpp:154-204 | Finding, as written: with an input 5 and an output the server sets to 7, the client reads 5 into the output. |
| Client.CorrectedResponseRoundTrip | src/rpcclient.cpp:53-122 | Finding, corrected: with the response carrying output values only, the call completes with the caller's words. Every output argument holds the server's values, and every other argument holds the caller's own. |
| Client.CorrectedResponseReads | src/rpcclient.cpp:176-181 | The corrected response reads back as the name with an extra NUL, then the caller's words and the merged values, ending at the end of the payload. |
| Client.CallKey | src/rpcclient.cpp:341 | The cache key of a call is the name up to its first NUL, together with the argument shape. |
| Client.CacheCall | src/rpcclient.cpp:336-428 | rpcCacheCall changes no cache entry but the call's own. Any status but 0 leaves the caller's values untouched. |
| Client.Refresh | src/rpcclient.cpp:350-427 | After a miss, the binder descriptor is binder_connect's and only the call's entry changes. The entry is present afterwards only when the binder listed servers. |
| Client.AfterListing | src/rpcclient.cpp:398-427 | Once the binder has answered, only the call's entry changes, and it is kept only when the binder listed servers. |
| Client.CacheHitSkipsBinder | src/rpcclient.cpp:342-348 | When a cached server answers, the first cached server that succeeds gives the result. The cache is kept and the binder is not contacted. |
| Client.CacheMissAsksBinder | src/rpcclient.cpp:350-427 | When no cached server answers, the binder's list replaces the entry and is tried from its start. The call gives the first listed server that succeeds, or -1 when none does. |
| Client.MissAsksBinder | src/rpcclient.cpp:342-363 | With no cached server answering and the binder reachable, the call comes down to the binder's reply. |
| Client.ListedTried | src/rpcclient.cpp:412-427 | A list from the binder replaces the call's entry, and the first of its servers that succeeds answers. |
| Client.Terminate | src/rpcclient.cpp:433-452 | rpcTerminate keeps binder_connect's descriptor. It returns 0 exactly when a connection exists and the whole empty TERMINATE frame went out. |
| Client.TerminateReachesBinder | src/rpcclient.cpp:449 | The frame rpcTerminate sends reaches the binder as a TERMINATE with no payload. |
| Client.Client.constructor | src/rpcclient.cpp:19-23 | No servers are known and there is no binder connection. |
| Client.Client.BinderConnect | src/rpcclient.cpp:28-48 | The status and descriptor are Connect's, and the cache is unchanged. |
| Client.Client.RpcCall | src/rpcclient.cpp:270-312 | The status, descriptor and caller's arrays are those of RemoteCall, and the cache is unchanged. |
| Client.Client.ProcessLocationCacheCall | src/rpcclient.cpp:317-332 | The servers read are stored under the call's key. The call fails, leaving the cache alone, exactly when a read leaves the payload. |
| Client.Client.RpcCacheCall | src/rpcclient.cpp:336-428 | The status, cache, descriptor and caller's arrays are those of CacheCall. |
| Client.Client.RefreshFromBinder | src/rpcclient.cpp:350-427 | From the erase on: the status, cache, descriptor and arrays are those of Refresh. |
| Client.Client.AskBinder | src/rpcclient.cpp:362-427 | Once connected: the status, cache and arrays are those of AfterListing on the binder's reply. |
| Client.Client.TakeCacheReply | src/rpcclient.cpp:386-415 | The reply's checks give CacheReply's listing. The listing is stored under the key exactly when the binder listed servers. |
| Client.Client.RpcTerminate | src/rpcclient.cpp:433-452 | The status and descriptor are those of Terminate, and the cache is unchanged. |
| Server.RegisterReply | src/rpcserver.cpp:126-164 | A reply that cannot be received returns its status and files nothing. Only a REGISTER_SUCCESS reply files the skeleton, under the identity's key. Any type but the two register replies gives RECEIVE_INVALID_MESSAGE_TYPE. The process ends exactly when a register reply's code cannot be read: a payload shorter than 4 bytes, or one of 2^31 bytes or more, which is read through an empty stream. |
| Server.RegisterReplyRoundTrip | src/rpcserver.cpp:150-161 | The binder's two answers are read back as their codes. Only REGISTER_SUCCESS files the skeleton. |
| Server.Register | src/rpcserver.cpp:112-167 | rpcRegister changes no entry but the procedure's own. A negative send status is returned with nothing filed. |
| Server.RegisterWithBinder | src/rpcserver.cpp:112-167 | End to end with the binder: when the register frame and the binder's answer arrive whole, the skeleton is filed under the key clients look up, and the status is SUCCESS or FUNCTION_OVERRIDDEN. |
| Server.RequestHandled | src/rpcserver.cpp:444-506 | handleRequest stops the server exactly when a TERMINATE header arrives on the binder's connection. Otherwise it starts a thread exactly when an EXECUTE payload is received, and hands the thread that payload. |
| Server.BinderNoticeStops | src/rpcserver.cpp:467-476 | The binder's empty TERMINATE frame stops the server on the binder's connection, and only drops any other connection it arrives on. |
| Server.ExecuteRequestSpawns | src/rpcserver.cpp:478-503 | A client's execute request, carried whole, is handed to a thread as the payload the client wrote. |
| Server.ServerCount | src/rpcserver.cpp:351-354 | The count is negative exactly when the array length reads negative as a `short`; otherwise it is the number of values. |
| Server.ArgsAt | src/rpcserver.cpp:348-396 | A successful read gives one value per slot, each holding what its word announces. |
| Server.RequestAt | src/rpcserver.cpp:340-396 | A decoded request has at least its terminator word and one value per argument, each holding what its word announces. |
| Server.DecodeRequest | src/rpcserver.cpp:340-396 | The stream decoding gives RequestAt of the received buffer. |
| Server.ReadArgs | src/rpcserver.cpp:348-396 | The argument loop gives ArgsAt's values and cursor, and fails exactly when ArgsAt does. |
| Server.ArgsImageIsFrom | src/protocol.cpp:112-150 | The argument values laid out back to front and front to back are the same bytes. |
| Server.ImageOfPrefix | src/protocol.cpp:112-150 | Only the words up to the count shape the bytes of the argument values. |
| Server.Typed | src/rpcserver.cpp:356-394 | The server holds one value per argument. |
| Server.ArgsReadBack | src/rpcserver.cpp:348-396 | The argument loop, over values written by sendExecuteRequest, reads back every value sent. Slots of an unknown base type stay unset. |
| Server.SlotReadBack | src/rpcserver.cpp:349-395 | One slot reads back the values written for it when its base type is known, and reads nothing otherwise. |
| Server.RequestRoundTrip | src/rpcserver.cpp:340-396 | A client's execute request decodes as the client meant it: the name with its NUL, the words up to the terminator, and every value of a known base type. |
| Server.RequestFields | src/protocol.cpp:102-152 | sendExecuteRequest's payload is the name, the count, the words up to the terminator and the values, in that order. |
| Server.RequestReadsBack | src/rpcserver.cpp:340-396 | A request laid out field by field decodes as its name, its words and the values of its typed slots. |
| Server.RequestHeadReads | src/rpcserver.cpp:341-344 | The name, count and word list in front of the values read back as written. |
| Server.DecodedKey | src/rpcserver.cpp:399-400 | The decoded identity, NUL and all, has the key the procedure was registered with. |
| Server.Dispatch | src/rpcserver.cpp:398-428 | As written. An identity with no skeleton filed is answered EXECUTE_UNKNOWN_SKELETON. For a word list without its 0, that means no skeleton with the same C-string name; when one is filed the lookup over-reads and the answer is undefined. Every answer is EXECUTE_SUCCESS or EXECUTE_FAILURE. A success means the filed skeleton ran and returned 0, and it carries sendExecuteResponse's payload: name, words and every argument's values. |
| Server.CorrectedDispatch | src/rpcserver.cpp:411-418 | Finding, corrected: it differs from Dispatch only on a skeleton that returned 0. That success carries the name, the words and the output arguments' values only. |
| Server.ThreadAnswer | src/rpcserver.cpp:328-442 | thread_exec answers only a payload that decodes, and then answers as Dispatch does, as written. A payload of 2^31 bytes or more is read through an empty stream, and the process ends. |
| Server.CallRequest | src/rpcserver.cpp:340-396 | The request a client's call decodes to has its terminator word and one value per argument. |
| Server.DecodedCall | src/rpcserver.cpp:340-400 | thread_exec on a client's request dispatches the request the client meant, under the key of the client's identity. |
| Server.ServedUnknown | src/rpcserver.cpp:408-428 | A call no skeleton is filed for reaches the caller as EXECUTE_UNKNOWN_SKELETON, with nothing of the caller's changed. |
| Server.ServedFailure | src/rpcserver.cpp:419-428 | A skeleton's non-zero result reaches the caller as the call's status, with nothing of the caller's changed. |
| Server.CorrectedServedSuccess | src/rpcserver.cpp:340-418 | Finding, corrected: the client's request decodes as sent. With the corrected dispatch, a skeleton that returns 0 gives the caller its output values, and every input stays as the caller had it. |
| Server.SuccessAnswered | src/rpcserver.cpp:411-418 | As written: a skeleton returning 0 on a client's request is answered with EXECUTE_SUCCESS and sendExecuteResponse's payload over the caller's name and words, carrying every argument's values. |
| Server.CorrectedSuccessAnswered | src/rpcserver.cpp:411-418 | The server side of CorrectedServedSuccess: the corrected dispatch answers a skeleton returning 0 with EXECUTE_SUCCESS and the output-only response over the caller's words. |
| Server.ResponseOfPrefix | src/protocol.cpp:154-204 | Only the words up to the terminator shape the execute response sendExecuteResponse writes. |
| Server.OutputResponseOfPrefix | src/protocol.cpp:154-204 | Only the words up to the terminator shape the output-only response. |
| Server.ExecuteGuard | src/rpcserver.cpp:508-516 | rpcExecute serves exactly when something is registered and the listening socket is open. With nothing registered it returns FAILURE. |
| Server.EmptyRegistryReadsAsSuccess | src/rpcserver.cpp:510-512 | A server with nothing registered returns 0, the same code a clean shutdown returns. |
| Server.ScanStep | src/rpcserver.cpp:560-580 | The listening socket adds the accepted connection and changes neither running nor the code. A connection's turn sets the code to -1 exactly when the server is stopped, and running survives only when the code is 0. No entry of the pool is lost. |
| Server.Scan | src/rpcserver.cpp:560-581 | The scan never restarts a stopped loop, keeps the listening socket in the master set and loses no thread of the pool. |
| Server.Serve | src/rpcserver.cpp:528-582 | Serving ends only with running cleared and no thread of the pool lost. When the rounds run out first, running is as it started. |
| Server.ScanStopsAtNotice | src/rpcserver.cpp:571-578 | The binder's notice among a round's ready descriptors stops the scan with code -1, whatever comes before it. |
| Server.NoticeEndsServing | src/rpcserver.cpp:528-582 | A round that delivers the binder's notice is the last: serving ends with code -1, and later rounds are never reached. |
| Server.ProbeFailureEndsServing | src/rpcserver.cpp:536-547 | A round in which the binder cannot be reached is the last: serving ends after its scan. |
| Server.TerminatedNotice | src/rpcserver.cpp:591 | The notice is a 12-byte frame. |
| Server.Notices | src/rpcserver.cpp:585-595 | Each pooled thread's connection takes a prefix of the notice, and no other connection takes anything. |
| Server.NoticeReported | src/rpcserver.cpp:591 | A client whose call was still being served reads the notice as RECEIVED_TERMINATED, with nothing of its own changed. |
| Server.Drain | src/rpcserver.cpp:584-596 | Every thread of the pool is cancelled and its connection sent the notice. |
| Server.Server.constructor | src/rpcserver.cpp:27-40 | Nothing is registered and no thread runs. The host, port and both descriptors are those rpcInit left. |
| Server.Server.RpcRegister | src/rpcserver.cpp:112-167 | The status and registered skeletons are those of Register, and the pool is unchanged. |
| Server.Server.HandleRequest | src/rpcserver.cpp:444-506 | The code is -1 exactly when the server is stopped. The connection leaves the master set exactly when it is dropped, and a thread joins the pool exactly when one is started. |
| Server.Server.ThreadExec | src/rpcserver.cpp:328-442 | The answer is ThreadAnswer's, as written, with the stream built over the payload's size as an `int`, and it goes out on the connection. The thread leaves the pool once it has answered. |
| Server.Server.Respond | src/rpcserver.cpp:398-428 | The lookup, call and reply give Dispatch's answer as written: sendExecuteResponse on success, sendExecuteError otherwise. The answer goes out on the connection. |
| Server.Server.ScanReady | src/rpcserver.cpp:560-581 | The for loop over one round gives Scan's loop state, and the pool is the loop's. |
| Server.Server.RpcExecute | src/rpcserver.cpp:508-603 | The guard's code is returned before serving. Otherwise the code is select's failure or timeout, or the final request code, and once serving ends every pooled connection is sent the notice. |

## Left out

- `rpcInit` (src/rpcserver.cpp:79-110) opens sockets and a mutex and is not modelled. `Server.Server.constructor` takes the host, port and descriptors it leaves.
- Socket and environment helpers (`socket_create`, `socket_listen`, `socket_accept`, `getHostname`, `getPort`, `getBinderAddress`, `getBinderPort`) are OS I/O. Their results are parameters: a descriptor, or a `Link` whose send and receive functions stand for the connection.
- `log_error`, `print_info` and `print_settings` only write to the console.
- The binder's `main` (src/binder.cpp:449-524), with its `select` loop and fd-set handling, is not modelled. `Binder.Binder.HandleRequest` models one call for one readable connection.
- The polling half of `handleTerminateRequest` (src/binder.cpp:312-343) is not modelled. It reconnects to every server once a second until none answers. `Binder.Binder.HandleTerminateRequest` covers the notice loop before it.
- Server.Server.RpcExecute: the loop runs over a finite sequence of rounds, so it returns None when the rounds run out with the loop still serving. A real server would wait in `select` for the next round.
- Threads, the pool mutex, `pthread_cancel` and `pthread_join` are not modelled. A started thread is the payload it is handed, and `Server.Server.ThreadExec` runs it to completion on its own.
- Server.Server.RpcExecute: no thread finishes while the loop runs, so the pool only grows. The drain (src/rpcserver.cpp:585-592) therefore sends RECEIVED_TERMINATED to every connection accepted while serving, including connections whose call a real thread would already have answered and left the pool for (src/rpcserver.cpp:438).
- Server.Scan: a round's ready descriptors are taken as given. The model does not require them to be in `master` and at most `max`, as `select(max + 1, …)` (src/rpcserver.cpp:534) guarantees, so `max` is tracked but limits nothing.
- Client.RemoteCall, Client.CacheCall: the connections to servers are one function `peers` from server to `Link`. Dialling the same server twice within one call gives the same descriptor, sends and reply, where real reconnections could differ.
- Server.ScanStep: the descriptor of an accepted connection is a parameter of the round, and a failed `accept` (-1) is not singled out.
- Floating point is not modelled. `float` and `double` values travel as the text `to_string` makes and `stof` reads, so the model carries them as NUL-free byte strings. The union punning of `parseFloat`, `parseDouble`, `serializeFloat` and `serializeDouble` is not part of this model.
- Argument buffers are values. The model does not capture the caller's `void*` arrays aliasing each other, or the skeleton writing through them in place.
- Heap management (`new`, `delete`, and the copies of `rpc_info` and `function_info`) is not modelled.
- Code that is never called is not modelled: `execute_request`, `th_ex_req`, `rem_lst`, the `node`/`funcList` list and the `msgLst` and `th` tables (src/rpcserver.cpp:47-76, 169-325).
- The `catch (int e)` handlers of the binder (src/binder.cpp:219-226, 262-265, 293-295) never run. A read past the payload throws `std::out_of_range`, which nothing catches, so the model ends the binder there (`Aborted`) instead of answering with ERROR.
- Undefined behaviour is a distinct outcome, not a value: an over-read of a word list without its 0 (`Unterminated`, `Undefined`), and `argLen - 1` wrapping when the count is 0 (`DecodeUndefined`).
- A negative `new T[length]` in `thread_exec` throws `std::bad_array_new_length`, which nothing catches. It ends the process like a read past the payload, so the model gives both the same outcome (`OutOfRange` in `Server.ArgsAt`, then `DecodeAborted` and `Aborted`).
- The `Oversized` outcomes are not in the source: they stand for an answer too long for the stream's `int` length fields.
- Send statuses that the source ignores are ignored too: the cache request in `rpcCacheCall`, and the responses and errors sent by the binder's handlers and `thread_exec`. What a send delivered is still reported as the bytes each socket took.
- Server.EmptyRegistryReadsAsSuccess: `FAILURE` is the message-type constant 0 (src/constants.h:8), so the "no functions" return of `rpcExecute` equals `SUCCESS`. The model keeps the value the source returns.
- Server.Serve: `SELECT_FAILURE` and `SELECT_TIMEOUT` return at once, skipping the drain, exactly as the source does.
- Binder.Binder.FunctionAdd: its frame is stated as an equation on `Registered()` plus the unchanged pending tables. It does not list every field one by one.
- Binder.MapAfterAdd, Binder.Pick, Binder.LocationHandled, Binder.CacheHandled, Binder.LocationReplyMeans, Binder.CacheReplyMeans, Server.Dispatch, Client.CacheCall, Binder.Binder.FunctionAdd, Binder.Binder.GetPriorityServer, Binder.Binder.HandleLocationRequest, Binder.Binder.HandleLocationCacheRequest, Server.Server.Respond, Client.Client.RpcCacheCall: a lookup always finds a filed identity with the query's `Key`. A real `std::map` under the non-transitive `operator<` (`RpcInfo.LessNotTransitive`) can miss it. For example, with `f(int[10])` and then `f(long output)` registered, a LOC_REQUEST for `f(char)` can get FUNCTION_NOT_AVAILABLE where the model answers LOC_SUCCESS. These members' contracts hold for the lookup the model assumes, not for every run of the real map. The class methods in this list are proved equal to the functions before them, so they inherit the assumption.
- Server.Server.RpcRegister, Server.Register, Client.CacheCall, Client.Client.ProcessLocationCacheCall, Client.Client.RpcCacheCall: a filed key holds the value of the caller's words. The source's `rpc_info` keeps the caller's `int* argTypes` pointer instead (src/rpcinfo.h:53-57). `rpcRegister` files such a key in `m_registeredRpc` (src/rpcserver.cpp:153-154), and `rpcCacheCall` files one in `m_serviceMap` (src/rpcclient.cpp:330, 341). A caller that refills or frees that array after the call changes or invalidates the filed key. The model does not capture this. For example, reusing one array to register f and then a longer g leaves f's key reading g's words, so the server answers a call to f with EXECUTE_UNKNOWN_SKELETON where the model runs f's skeleton. The binder is not affected, because `function_add` copies the words.
- Binder.FramePayloadCall: covers payloads shorter than 2^31 bytes. A longer pending size is covered by `Binder.OversizedPayloadCall`.
- BStream.BinaryStream.OfSize: takes a `nat`. The negative size an oversized header gives is handled by the caller: `Protocol.StreamAllocates` and `Protocol.Protocol.ReceiveSizedReply` end the client before the stream would be built, standing for the `std::length_error` of `resize`.
- Client.LocationReplyRoundTrip: covers replies shorter than 2^31 bytes. A longer reply ends the client (`Client.LocationReply`).
- Client.RemoteCallAtLocatedServer: covers location replies shorter than 2^31 bytes, like `Client.LocationReplyRoundTrip`.
- Client.CacheMissAsksBinder: covers cache replies shorter than 2^31 bytes, like `Client.CacheReplyRoundTrip`.
- Client.CacheReplyRoundTrip: covers replies shorter than 2^31 bytes. A longer reply is read through an empty stream and ends the client (`Client.CacheReply`).
- Client.CorrectedResponseRoundTrip: covers responses shorter than 2^31 bytes. A longer response ends the client (`Client.ExecuteReply`).
- Client.CorrectedResponseRoundTrip: requires every output array length to be below 2^15 (`ShortLengths`). For a longer array the client's `short` count, passed on as `unsigned int`, wraps to more than 4 billion values (`Client.ClientCount`).
- Server.RequestRoundTrip: requires every array length to be below 2^15 (`ReadableLengths`). For a longer array `getArgTypeArrayLength` is negative and `new T[length]` fails (`Server.ServerCount`).
- The draft headers src/commands/command.h, src/lib/memorystream.h, src/lib/convert.h and src/lib/binarywriter.h are not built with the library and are not part of this model.

## Findings

| source | as written | input that shows it | evidently intended | confidence | as-written member | corrected member |
|---|---|---|---|---|---|---|
| src/protocol.cpp:154-204 | `sendExecuteResponse`, which the server calls at src/rpcserver.cpp:417, writes the values of every argument, inputs included. `processExecuteResponse` (src/rpcclient.cpp:53-122) reads values only for output arguments, so it reads an input's bytes into an output. | A procedure `f(in int a, out int b)` called with `a = 5`, whose skeleton sets `b = 7`: the client's `b` comes back as 5. | The response carries only the output arguments' values, in order, as the client reads them (`Protocol.Protocol.SendOutputResponse`). The caller then gets its output values (`Server.CorrectedServedSuccess`). | not executed | Client.ResponseMisreadsOutput | Server.CorrectedDispatch |

The server model answers as written: `Server.Dispatch`, `Server.Server.Respond` and `Protocol.Protocol.SendExecuteResponse` send every argument's values, and `Server.SuccessAnswered` states that answer for a client's call. The corrected layout is `Protocol.Protocol.SendOutputResponse`. `Server.CorrectedDispatch` answers with it, and `Server.CorrectedServedSuccess` and `Client.CorrectedResponseRoundTrip` prove that the caller then gets its output values.

// BinaryStream (src/bstream.cpp): a byte vector that every write appends to and a
// read cursor that every read advances. A read outside the vector makes
// `vector::at` throw `std::out_of_range`; here that is a `None` result.
module BStream {
  import opened Ints
  import opened Wrappers
  import opened Conversion
  import opened RpcInfo

  /** What a read starting at some cursor produces: a value and the next cursor, or the cursor where `at` threw. */
  datatype Outcome<T> = Got(value: T, next: int) | OutOfRange(stop: int)
  {
    /** The cursor after the read, whether it succeeded or not. */
    function Cursor(): int
    {
      if Got? then next else stop
    }
  }

  /** A method's result and final cursor are those the read `o` describes. */
  predicate Agrees<T(==)>(o: Outcome<T>, r: Option<T>, position: int)
  {
    match o
    case Got(v, q) => r == Some(v) && position == q
    case OutOfRange(s) => r == None && position == s
  }

  // ---------------------------------------------------------------- reads over a byte vector

  /** Reading n chars one at a time from cursor p: fails at the first index outside the vector. */
  function BytesAt(bs: seq<Byte>, p: int, n: nat): (o: Outcome<seq<Byte>>)
    ensures o.Got? <==> n == 0 || (0 <= p && p + n <= |bs|)
    ensures o.Got? ==> o.next == p + n && |o.value| == n
    ensures o.Got? && n > 0 ==> o.value == bs[p..p + n]
  {
    if n == 0 then Got([], p)
    else if 0 <= p && p + n <= |bs| then Got(bs[p..p + n], p + n)
    else OutOfRange(if 0 <= p <= |bs| then |bs| else p)
  }

  function Int16At(bs: seq<Byte>, p: int): (o: Outcome<Int16>)
  {
    match BytesAt(bs, p, 2)
    case Got(b, q) => Got(ParseInt16(b), q)
    case OutOfRange(s) => OutOfRange(s)
  }

  function Int32At(bs: seq<Byte>, p: int): (o: Outcome<Int32>)
  {
    match BytesAt(bs, p, 4)
    case Got(b, q) => Got(ParseInt32(b), q)
    case OutOfRange(s) => OutOfRange(s)
  }

  function Int64At(bs: seq<Byte>, p: int): (o: Outcome<Int64>)
  {
    match BytesAt(bs, p, 8)
    case Got(b, q) => Got(ParseInt64(b), q)
    case OutOfRange(s) => OutOfRange(s)
  }

  function UInt16At(bs: seq<Byte>, p: int): (o: Outcome<UInt16>)
  {
    match BytesAt(bs, p, 2)
    case Got(b, q) => Got(ParseUInt16(b), q)
    case OutOfRange(s) => OutOfRange(s)
  }

  function UInt32At(bs: seq<Byte>, p: int): (o: Outcome<UInt32>)
  {
    match BytesAt(bs, p, 4)
    case Got(b, q) => Got(ParseUInt32(b), q)
    case OutOfRange(s) => OutOfRange(s)
  }

  function UInt64At(bs: seq<Byte>, p: int): (o: Outcome<UInt64>)
  {
    match BytesAt(bs, p, 8)
    case Got(b, q) => Got(ParseUInt64(b), q)
    case OutOfRange(s) => OutOfRange(s)
  }

  /** readString: an int32 count, then that many chars (none when the count is negative). */
  function StringAt(bs: seq<Byte>, p: int): (o: Outcome<seq<Byte>>)
  {
    match Int32At(bs, p)
    case Got(length, q) => BytesAt(bs, q, if length < 0 then 0 else length)
    case OutOfRange(s) => OutOfRange(s)
  }

  /** readCString: chars up to and including the next NUL. */
  function CStringAt(bs: seq<Byte>, p: int): (o: Outcome<seq<Byte>>)
    decreases |bs| - p
  {
    if !(0 <= p < |bs|) then OutOfRange(p)
    else if bs[p] == 0 then Got([0], p + 1)
    else Extend([bs[p]], CStringAt(bs, p + 1))
  }

  /** What readCString returns is the run of bytes from the cursor up to and including the first NUL,
      and the cursor ends just past it. */
  lemma {:induction false} CStringAtSpans(bs: seq<Byte>, p: int)
    ensures var o := CStringAt(bs, p);
      o.Got? ==> |o.value| > 0 && o.value[|o.value| - 1] == 0 && 0 !in o.value[..|o.value| - 1]
    ensures var o := CStringAt(bs, p);
      o.Got? ==> 0 <= p && o.next == p + |o.value| <= |bs| && o.value == bs[p..o.next]
    decreases |bs| - p
  {
    if 0 <= p < |bs| && bs[p] != 0 {
      CStringAtSpans(bs, p + 1);
      var o := CStringAt(bs, p + 1);
      if o.Got? {
        assert [bs[p]] + bs[p + 1..o.next] == bs[p..o.next];
        assert ([bs[p]] + o.value)[..|o.value|] == [bs[p]] + o.value[..|o.value| - 1];
      }
    }
  }

  /** The outcome `o` with `prefix` put in front of its value. */
  function Extend<T>(prefix: seq<T>, o: Outcome<seq<T>>): (e: Outcome<seq<T>>)
    ensures e.Cursor() == o.Cursor() && e.Got? == o.Got?
    ensures o.Got? ==> e.value == prefix + o.value
    ensures prefix == [] ==> e == o
  {
    assert o.Got? ==> [] + o.value == o.value;
    match o
    case Got(v, q) => Got(prefix + v, q)
    case OutOfRange(s) => OutOfRange(s)
  }

  /** The array readers: n int32 words, one after the other. */
  function Int32sAt(bs: seq<Byte>, p: int, n: nat): (o: Outcome<seq<Int32>>)
    ensures o.Got? ==> |o.value| == n
    decreases n
  {
    if n == 0 then Got([], p)
    else match Int32At(bs, p)
      case OutOfRange(s) => OutOfRange(s)
      case Got(v, q) => Extend([v], Int32sAt(bs, q, n - 1))
  }

  function Int16sAt(bs: seq<Byte>, p: int, n: nat): (o: Outcome<seq<Int16>>)
    ensures o.Got? ==> |o.value| == n
    decreases n
  {
    if n == 0 then Got([], p)
    else match Int16At(bs, p)
      case OutOfRange(s) => OutOfRange(s)
      case Got(v, q) => Extend([v], Int16sAt(bs, q, n - 1))
  }

  function Int64sAt(bs: seq<Byte>, p: int, n: nat): (o: Outcome<seq<Int64>>)
    ensures o.Got? ==> |o.value| == n
    decreases n
  {
    if n == 0 then Got([], p)
    else match Int64At(bs, p)
      case OutOfRange(s) => OutOfRange(s)
      case Got(v, q) => Extend([v], Int64sAt(bs, q, n - 1))
  }

  /** readChar over an array: n chars, one at a time. */
  function CharsAt(bs: seq<Byte>, p: int, n: nat): (o: Outcome<seq<Byte>>)
    ensures o.Got? ==> |o.value| == n
    decreases n
  {
    if n == 0 then Got([], p)
    else match CharAt(bs, p)
      case OutOfRange(s) => OutOfRange(s)
      case Got(v, q) => Extend([v], CharsAt(bs, q, n - 1))
  }

  /** readFloat/readDouble: a C string whose text (without its NUL) stands for the number. */
  function TextAt(bs: seq<Byte>, p: int): (o: Outcome<seq<Byte>>)
    ensures o.Got? ==> 0 !in o.value
  {
    CStringAtSpans(bs, p);
    match CStringAt(bs, p)
    case Got(v, q) => Got(v[..|v| - 1], q)
    case OutOfRange(s) => OutOfRange(s)
  }

  function TextsAt(bs: seq<Byte>, p: int, n: nat): (o: Outcome<seq<seq<Byte>>>)
    ensures o.Got? ==> |o.value| == n
    ensures o.Got? ==> forall k :: 0 <= k < n ==> 0 !in o.value[k]
    decreases n
  {
    if n == 0 then Got([], p)
    else match TextAt(bs, p)
      case OutOfRange(s) => OutOfRange(s)
      case Got(v, q) => Extend([v], TextsAt(bs, q, n - 1))
  }

  // ---------------------------------------------------------------- byte images of the writers

  /** writeString: int32 (|s| + 1), the bytes of s, then a NUL. */
  function StringImage(s: seq<Byte>): (bs: seq<Byte>)
    requires |s| + 1 < TWO31
    ensures |bs| == |s| + 5
  {
    Int32Bytes(|s| + 1) + s + [0]
  }

  // ---------------------------------------------------------------- regrouping sequences, for every read-back proof

  /** Regrouping concatenated byte runs. */
  lemma Assoc(a: seq<Byte>, b: seq<Byte>, c: seq<Byte>)
    ensures a + b + c == a + (b + c)
  {
  }

  /** Dropping the first and the last element commute. */
  lemma Slices<T>(xs: seq<T>)
    requires |xs| > 1
    ensures xs[..|xs| - 1][0] == xs[0] && xs[..|xs| - 1][1..] == xs[1..][..|xs| - 2]
    ensures xs[1..][|xs| - 2] == xs[|xs| - 1] && xs[1..][..|xs[1..]| - 1] == xs[1..][..|xs| - 2]
  {
  }

  lemma Regroup(a: seq<Byte>, b: seq<Byte>, c: seq<Byte>, d: seq<Byte>)
    ensures a + (b + c) + d == a + b + c + d == a + b + (c + d)
    ensures |a + (b + c)| == |a + b + c|
  {
  }

  lemma NoPrefix(a: seq<Byte>, b: seq<Byte>)
    ensures [] + a + b == a + b
  {
  }

  lemma SplitAt<T>(xs: seq<T>, n: nat)
    requires n <= |xs|
    ensures xs[..n] + xs[n..] == xs
  {
  }

  lemma ConsSlice<T>(xs: seq<T>, i: nat)
    requires i < |xs|
    ensures xs[i..] == [xs[i]] + xs[i + 1..]
  {
  }

  // ---------------------------------------------------------------- the byte images of arrays

  /** writeInt32 over an array: the words back to back. */
  function Int32sImage(ws: seq<Int32>): (bs: seq<Byte>)
    ensures |bs| == 4 * |ws|
  {
    if ws == [] then [] else Int32Bytes(ws[0]) + Int32sImage(ws[1..])
  }

  function Int16sImage(ws: seq<Int16>): (bs: seq<Byte>)
    ensures |bs| == 2 * |ws|
  {
    if ws == [] then [] else Int16Bytes(ws[0]) + Int16sImage(ws[1..])
  }

  function Int64sImage(ws: seq<Int64>): (bs: seq<Byte>)
    ensures |bs| == 8 * |ws|
  {
    if ws == [] then [] else Int64Bytes(ws[0]) + Int64sImage(ws[1..])
  }

  /** writeFloat/writeDouble over an array: each number's text followed by a NUL. */
  function TextsImage(ts: seq<seq<Byte>>): (bs: seq<Byte>)
  {
    if ts == [] then [] else ts[0] + [0] + TextsImage(ts[1..])
  }

  // ---------------------------------------------------------------- reading back what was written

  /** Reading an N-byte integer where one was written returns it and advances the cursor by N. */
  lemma IntsReadBack(prefix: seq<Byte>, rest: seq<Byte>, a: Int16, b: Int32, c: Int64, d: UInt16, e: UInt32, f: UInt64)
    ensures Int16At(prefix + Int16Bytes(a) + rest, |prefix|) == Got(a, |prefix| + 2)
    ensures Int32At(prefix + Int32Bytes(b) + rest, |prefix|) == Got(b, |prefix| + 4)
    ensures Int64At(prefix + Int64Bytes(c) + rest, |prefix|) == Got(c, |prefix| + 8)
    ensures UInt16At(prefix + UInt16Bytes(d) + rest, |prefix|) == Got(d, |prefix| + 2)
    ensures UInt32At(prefix + UInt32Bytes(e) + rest, |prefix|) == Got(e, |prefix| + 4)
    ensures UInt64At(prefix + UInt64Bytes(f) + rest, |prefix|) == Got(f, |prefix| + 8)
  {
    Slice(prefix, Int16Bytes(a), rest);
    Slice(prefix, Int32Bytes(b), rest);
    Slice(prefix, Int64Bytes(c), rest);
    Slice(prefix, UInt16Bytes(d), rest);
    Slice(prefix, UInt32Bytes(e), rest);
    Slice(prefix, UInt64Bytes(f), rest);
    ParseSerialized16(a, d, []);
    ParseSerialized32(b, e, []);
    ParseSerialized64(c, f, []);
    assert Int16Bytes(a) + [] == Int16Bytes(a) && UInt16Bytes(d) + [] == UInt16Bytes(d);
    assert Int32Bytes(b) + [] == Int32Bytes(b) && UInt32Bytes(e) + [] == UInt32Bytes(e);
    assert Int64Bytes(c) + [] == Int64Bytes(c) && UInt64Bytes(f) + [] == UInt64Bytes(f);
  }

  lemma Slice(prefix: seq<Byte>, mid: seq<Byte>, rest: seq<Byte>)
    ensures (prefix + mid + rest)[|prefix|..|prefix| + |mid|] == mid
    ensures |prefix + mid + rest| == |prefix| + |mid| + |rest|
  {
    assert (prefix + mid + rest)[|prefix|..|prefix| + |mid|] == mid;
  }

  /** readString after writeString(s) gives s followed by its NUL, and consumes |s| + 5 bytes. */
  lemma StringReadsBack(prefix: seq<Byte>, s: seq<Byte>, rest: seq<Byte>)
    requires |s| + 1 < TWO31
    ensures StringAt(prefix + StringImage(s) + rest, |prefix|) == Got(s + [0], |prefix| + |s| + 5)
  {
    var bs := prefix + StringImage(s) + rest;
    assert bs == prefix + Int32Bytes(|s| + 1) + (s + [0] + rest);
    IntsReadBack(prefix, s + [0] + rest, 0, |s| + 1, 0, 0, 0, 0);
    Slice(prefix + Int32Bytes(|s| + 1), s + [0], rest);
    assert bs == prefix + Int32Bytes(|s| + 1) + (s + [0]) + rest;
  }

  /** readCString after the bytes of a C string and its NUL gives exactly those bytes back. */
  lemma {:induction false} CStringReadsBack(prefix: seq<Byte>, s: seq<Byte>, rest: seq<Byte>)
    requires 0 !in s
    ensures CStringAt(prefix + s + [0] + rest, |prefix|) == Got(s + [0], |prefix| + |s| + 1)
    decreases |s|
  {
    var bs := prefix + s + [0] + rest;
    if s == [] {
      assert bs[|prefix|] == 0 && s + [0] == [0];
    } else {
      assert bs[|prefix|] == s[0];
      assert bs == (prefix + [s[0]]) + s[1..] + [0] + rest;
      CStringReadsBack(prefix + [s[0]], s[1..], rest);
      assert [s[0]] + (s[1..] + [0]) == s + [0];
    }
  }

  /** Reading back an array of words that writeInt32 wrote. */
  lemma {:induction false} Int32sReadBack(prefix: seq<Byte>, ws: seq<Int32>, rest: seq<Byte>)
    ensures Int32sAt(prefix + Int32sImage(ws) + rest, |prefix|, |ws|) == Got(ws, |prefix| + 4 * |ws|)
    decreases |ws|
  {
    if ws != [] {
      var head, tail := Int32Bytes(ws[0]), Int32sImage(ws[1..]);
      var bs := prefix + Int32sImage(ws) + rest;
      assert bs == prefix + head + (tail + rest) && bs == (prefix + head) + tail + rest by {
        assert Int32sImage(ws) == head + tail;
      }
      assert Int32At(bs, |prefix|) == Got(ws[0], |prefix| + 4) by {
        IntsReadBack(prefix, tail + rest, 0, ws[0], 0, 0, 0, 0);
      }
      assert Int32sAt(bs, |prefix| + 4, |ws| - 1) == Got(ws[1..], |prefix| + 4 * |ws|) by {
        Int32sReadBack(prefix + head, ws[1..], rest);
      }
      assert [ws[0]] + ws[1..] == ws;
    }
  }


  lemma {:induction false} Int16sReadBack(prefix: seq<Byte>, ws: seq<Int16>, rest: seq<Byte>)
    ensures Int16sAt(prefix + Int16sImage(ws) + rest, |prefix|, |ws|) == Got(ws, |prefix| + 2 * |ws|)
    decreases |ws|
  {
    if ws != [] {
      var head, tail := Int16Bytes(ws[0]), Int16sImage(ws[1..]);
      var bs := prefix + Int16sImage(ws) + rest;
      assert bs == prefix + head + (tail + rest) && bs == (prefix + head) + tail + rest by {
        assert Int16sImage(ws) == head + tail;
      }
      assert Int16At(bs, |prefix|) == Got(ws[0], |prefix| + 2) by {
        IntsReadBack(prefix, tail + rest, ws[0], 0, 0, 0, 0, 0);
      }
      assert Int16sAt(bs, |prefix| + 2, |ws| - 1) == Got(ws[1..], |prefix| + 2 * |ws|) by {
        Int16sReadBack(prefix + head, ws[1..], rest);
      }
      assert [ws[0]] + ws[1..] == ws;
    }
  }


  lemma {:induction false} Int64sReadBack(prefix: seq<Byte>, ws: seq<Int64>, rest: seq<Byte>)
    ensures Int64sAt(prefix + Int64sImage(ws) + rest, |prefix|, |ws|) == Got(ws, |prefix| + 8 * |ws|)
    decreases |ws|
  {
    if ws != [] {
      var head, tail := Int64Bytes(ws[0]), Int64sImage(ws[1..]);
      var bs := prefix + Int64sImage(ws) + rest;
      assert bs == prefix + head + (tail + rest) && bs == (prefix + head) + tail + rest by {
        assert Int64sImage(ws) == head + tail;
      }
      assert Int64At(bs, |prefix|) == Got(ws[0], |prefix| + 8) by {
        IntsReadBack(prefix, tail + rest, 0, 0, ws[0], 0, 0, 0);
      }
      assert Int64sAt(bs, |prefix| + 8, |ws| - 1) == Got(ws[1..], |prefix| + 8 * |ws|) by {
        Int64sReadBack(prefix + head, ws[1..], rest);
      }
      assert [ws[0]] + ws[1..] == ws;
    }
  }


  /** Reading back chars that writeChar wrote, one byte each. */
  lemma {:induction false} CharsReadBack(prefix: seq<Byte>, cs: seq<Byte>, rest: seq<Byte>)
    ensures CharsAt(prefix + cs + rest, |prefix|, |cs|) == Got(cs, |prefix| + |cs|)
    decreases |cs|
  {
    if cs != [] {
      var bs := prefix + cs + rest;
      assert bs[|prefix|] == cs[0];
      assert bs == (prefix + [cs[0]]) + cs[1..] + rest;
      CharsReadBack(prefix + [cs[0]], cs[1..], rest);
      assert [cs[0]] + cs[1..] == cs;
    }
  }

  /** Reading back numbers written as text: each text comes back without its NUL. */
  lemma {:induction false} TextsReadBack(prefix: seq<Byte>, ts: seq<seq<Byte>>, rest: seq<Byte>)
    requires forall k :: 0 <= k < |ts| ==> 0 !in ts[k]
    ensures TextsAt(prefix + TextsImage(ts) + rest, |prefix|, |ts|) == Got(ts, |prefix| + |TextsImage(ts)|)
    decreases |ts|
  {
    if ts != [] {
      var head := prefix + ts[0] + [0];
      var tail := TextsImage(ts[1..]);
      assert TextsImage(ts) == ts[0] + [0] + tail;
      assert prefix + TextsImage(ts) + rest == head + tail + rest;
      TextReadBack(prefix, ts[0], tail + rest);
      assert prefix + ts[0] + [0] + (tail + rest) == head + tail + rest;
      TextsReadBack(head, ts[1..], rest);
      assert [ts[0]] + ts[1..] == ts;
    }
  }

  lemma TextReadBack(prefix: seq<Byte>, t: seq<Byte>, rest: seq<Byte>)
    requires 0 !in t
    ensures TextAt(prefix + t + [0] + rest, |prefix|) == Got(t, |prefix + t + [0]|)
  {
    CStringReadsBack(prefix, t, rest);
    assert (t + [0])[..|t|] == t;
  }

  /** A read fails exactly when it would run past either end of the vector. */
  lemma ReadOutsideFails(bs: seq<Byte>, p: int)
    ensures Int16At(bs, p).OutOfRange? <==> p < 0 || p + 2 > |bs|
    ensures Int32At(bs, p).OutOfRange? <==> p < 0 || p + 4 > |bs|
    ensures Int64At(bs, p).OutOfRange? <==> p < 0 || p + 8 > |bs|
    ensures UInt16At(bs, p).OutOfRange? <==> p < 0 || p + 2 > |bs|
    ensures UInt32At(bs, p).OutOfRange? <==> p < 0 || p + 4 > |bs|
    ensures UInt64At(bs, p).OutOfRange? <==> p < 0 || p + 8 > |bs|
    ensures StringAt(bs, p).Got? ==> 0 <= p && StringAt(bs, p).next <= |bs|
  {
  }

  // ---------------------------------------------------------------- streams over received payloads

  /** An unsigned int handed to an `int` parameter: the same bits, read as negative from 2^31 on. */
  function AsInt(u: UInt32): (i: Int32)
    ensures 0 <= i <==> u < TWO31
    ensures i % TWO32 == u
  {
    if u < TWO31 then u else u - TWO32
  }

  /** What BinaryStream(buffer, size) holds when its `int` size is a received payload's unsigned length:
      from 2^31 on the size reads as negative and the copy loop copies nothing. */
  function StreamOf(payload: seq<Byte>): seq<Byte>
  {
    if |payload| < TWO31 then payload else []
  }

  /** A stream over a payload of 2^31 bytes or more is empty, so its first read throws whatever it reads;
      a shorter payload is read as it is. */
  lemma StreamOfMeans(payload: seq<Byte>, p: int)
    ensures |payload| < TWO31 ==> StreamOf(payload) == payload
    ensures |payload| >= TWO31 ==>
      CharAt(StreamOf(payload), p).OutOfRange? && StringAt(StreamOf(payload), p).OutOfRange? &&
      Int32At(StreamOf(payload), p).OutOfRange? && UInt32At(StreamOf(payload), p).OutOfRange?
  {
    if |payload| >= TWO31 {
      ReadOutsideFails([], p);
    }
  }

  // ---------------------------------------------------------------- the stream object

  class BinaryStream {
    var bytes: seq<Byte>
    var position: int

    /** BinaryStream(): empty, cursor at 0. */
    constructor ()
      ensures bytes == [] && position == 0
    {
      bytes := [];
      position := 0;
    }

    /** BinaryStream(size): size zero bytes, cursor at 0. */
    constructor OfSize(size: nat)
      ensures bytes == seq(size, _ => 0) && position == 0
    {
      bytes := seq(size, _ => 0);
      position := 0;
    }

    /** BinaryStream(buffer, size): a copy of the first size bytes of the buffer, cursor at 0. */
    constructor FromBuffer(buffer: array<Byte>, size: int)
      requires size <= buffer.Length
      ensures bytes == (if size <= 0 then [] else buffer[..size]) && position == 0
    {
      var copied: seq<Byte> := [];
      var i := 0;
      while i < size
        invariant 0 <= i <= (if size <= 0 then 0 else size)
        invariant copied == buffer[..i]
      {
        copied := copied + [buffer[i]];
        i := i + 1;
      }
      bytes := copied;
      position := 0;
    }

    /** size(): the number of bytes held. */
    function Size(): (n: nat)
      reads this
      ensures n == |bytes|
    {
      |bytes|
    }

    method Seek(index: int)
      modifies this
      ensures bytes == old(bytes) && position == index
    {
      position := index;
    }

    method Reset()
      modifies this
      ensures bytes == old(bytes) && position == 0
    {
      position := 0;
    }

    // ------------------------------------------------------------ writers

    /** Appends `bs` one char at a time; the cursor does not move. */
    method Append(bs: seq<Byte>)
      modifies this
      ensures bytes == old(bytes) + bs && position == old(position)
    {
      var i := 0;
      while i < |bs|
        invariant i <= |bs| && bytes == old(bytes) + bs[..i] && position == old(position)
      {
        bytes := bytes + [bs[i]];
        i := i + 1;
      }
    }

    method WriteChar(value: Byte)
      modifies this
      ensures bytes == old(bytes) + [value] && position == old(position)
    {
      bytes := bytes + [value];
    }

    method WriteInt16(value: Int16)
      modifies this
      ensures bytes == old(bytes) + Int16Bytes(value) && position == old(position)
    {
      var buf := new Byte[2];
      SerializeInt16(value, buf);
      Append(buf[..]);
    }

    method WriteInt32(value: Int32)
      modifies this
      ensures bytes == old(bytes) + Int32Bytes(value) && position == old(position)
    {
      var buf := new Byte[4];
      SerializeInt32(value, buf);
      Append(buf[..]);
    }

    method WriteInt64(value: Int64)
      modifies this
      ensures bytes == old(bytes) + Int64Bytes(value) && position == old(position)
    {
      var buf := new Byte[8];
      SerializeInt64(value, buf);
      Append(buf[..]);
    }

    method WriteUInt16(value: UInt16)
      modifies this
      ensures bytes == old(bytes) + UInt16Bytes(value) && position == old(position)
    {
      var buf := new Byte[2];
      SerializeUInt16(value, buf);
      Append(buf[..]);
    }

    method WriteUInt32(value: UInt32)
      modifies this
      ensures bytes == old(bytes) + UInt32Bytes(value) && position == old(position)
    {
      var buf := new Byte[4];
      SerializeUInt32(value, buf);
      Append(buf[..]);
    }

    method WriteUInt64(value: UInt64)
      modifies this
      ensures bytes == old(bytes) + UInt64Bytes(value) && position == old(position)
    {
      var buf := new Byte[8];
      SerializeUInt64(value, buf);
      Append(buf[..]);
    }

    /** writeString: length + 1 as int32, the chars, a NUL. */
    method WriteString(value: seq<Byte>)
      requires |value| + 1 < TWO31
      modifies this
      ensures bytes == old(bytes) + StringImage(value) && position == old(position)
    {
      WriteInt32(|value| + 1);
      Append(value);
      WriteChar(0);
    }

    /** writeCString: the chars before the first NUL, then one NUL. */
    method WriteCString(value: seq<Byte>)
      requires 0 in value
      modifies this
      ensures bytes == old(bytes) + CStr(value) + [0] && position == old(position)
    {
      var i := 0;
      while value[i] != 0
        invariant i < |value| && 0 in value[i..] && 0 !in value[..i]
        invariant bytes == old(bytes) + value[..i] && position == old(position)
        decreases |value| - i
      {
        assert value[i..] == [value[i]] + value[i + 1..];
        assert value[..i + 1] == value[..i] + [value[i]];
        bytes := bytes + [value[i]];
        i := i + 1;
      }
      CStrUpToNul(value, i);
      bytes := bytes + [0];
    }

    /** writeChar over an array: the first `length` chars. */
    method WriteChars(values: seq<Byte>, length: int)
      requires length <= |values|
      modifies this
      ensures bytes == old(bytes) + (if length <= 0 then [] else values[..length]) && position == old(position)
    {
      var i := 0;
      while i < length
        invariant 0 <= i <= (if length <= 0 then 0 else length)
        invariant bytes == old(bytes) + values[..i] && position == old(position)
      {
        WriteChar(values[i]);
        i := i + 1;
      }
    }

    method WriteInt16s(values: seq<Int16>, length: int)
      requires length <= |values|
      modifies this
      ensures bytes == old(bytes) + Int16sImage(if length <= 0 then [] else values[..length])
      ensures position == old(position)
    {
      var i := 0;
      while i < length
        invariant 0 <= i <= (if length <= 0 then 0 else length)
        invariant bytes == old(bytes) + Int16sImage(values[..i]) && position == old(position)
      {
        WriteInt16(values[i]);
        Int16sImageSnoc(values[..i], values[i]);
        assert values[..i + 1] == values[..i] + [values[i]];
        i := i + 1;
      }
    }

    method WriteInt32s(values: seq<Int32>, length: int)
      requires length <= |values|
      modifies this
      ensures bytes == old(bytes) + Int32sImage(if length <= 0 then [] else values[..length])
      ensures position == old(position)
    {
      var i := 0;
      while i < length
        invariant 0 <= i <= (if length <= 0 then 0 else length)
        invariant bytes == old(bytes) + Int32sImage(values[..i]) && position == old(position)
      {
        WriteInt32(values[i]);
        Int32sImageSnoc(values[..i], values[i]);
        assert values[..i + 1] == values[..i] + [values[i]];
        i := i + 1;
      }
    }

    method WriteInt64s(values: seq<Int64>, length: int)
      requires length <= |values|
      modifies this
      ensures bytes == old(bytes) + Int64sImage(if length <= 0 then [] else values[..length])
      ensures position == old(position)
    {
      var i := 0;
      while i < length
        invariant 0 <= i <= (if length <= 0 then 0 else length)
        invariant bytes == old(bytes) + Int64sImage(values[..i]) && position == old(position)
      {
        WriteInt64(values[i]);
        Int64sImageSnoc(values[..i], values[i]);
        assert values[..i + 1] == values[..i] + [values[i]];
        i := i + 1;
      }
    }

    /** writeFloat/writeDouble over an array; each number is given as the text `to_string` made of it. */
    method WriteTexts(values: seq<seq<Byte>>, length: int)
      requires length <= |values|
      requires forall k :: 0 <= k < |values| ==> 0 !in values[k]
      modifies this
      ensures bytes == old(bytes) + TextsImage(if length <= 0 then [] else values[..length])
      ensures position == old(position)
    {
      var i := 0;
      while i < length
        invariant 0 <= i <= (if length <= 0 then 0 else length)
        invariant bytes == old(bytes) + TextsImage(values[..i]) && position == old(position)
      {
        TextsImagePrefixStep(old(bytes), values, i);
        WriteCString(values[i] + [0]);
        i := i + 1;
      }
    }

    // ------------------------------------------------------------ readers

    /** Reads n chars one at a time with `at`, as every reader of the stream does. */
    method ReadBytes(n: nat) returns (r: Option<seq<Byte>>)
      modifies this
      ensures bytes == old(bytes)
      ensures Agrees(BytesAt(bytes, old(position), n), r, position)
    {
      var got: seq<Byte> := [];
      var i := 0;
      while i < n
        invariant i <= n && bytes == old(bytes) && position == old(position) + i
        invariant i > 0 ==> 0 <= old(position) && position <= |bytes|
        invariant i == 0 ==> got == []
        invariant i > 0 ==> got == bytes[old(position)..position]
      {
        if !(0 <= position < |bytes|) {
          return None;
        }
        got := got + [bytes[position]];
        position := position + 1;
        i := i + 1;
      }
      return Some(got);
    }

    method ReadChar() returns (r: Option<Byte>)
      modifies this
      ensures bytes == old(bytes)
      ensures Agrees(CharAt(bytes, old(position)), r, position)
    {
      if !(0 <= position < |bytes|) {
        return None;
      }
      r := Some(bytes[position]);
      position := position + 1;
    }

    method ReadInt16() returns (r: Option<Int16>)
      modifies this
      ensures bytes == old(bytes) && Agrees(Int16At(bytes, old(position)), r, position)
    {
      var b := ReadBytes(2);
      r := if b.Some? then Some(ParseInt16(b.value)) else None;
    }

    method ReadInt32() returns (r: Option<Int32>)
      modifies this
      ensures bytes == old(bytes) && Agrees(Int32At(bytes, old(position)), r, position)
    {
      var b := ReadBytes(4);
      r := if b.Some? then Some(ParseInt32(b.value)) else None;
    }

    method ReadInt64() returns (r: Option<Int64>)
      modifies this
      ensures bytes == old(bytes) && Agrees(Int64At(bytes, old(position)), r, position)
    {
      var b := ReadBytes(8);
      r := if b.Some? then Some(ParseInt64(b.value)) else None;
    }

    method ReadUInt16() returns (r: Option<UInt16>)
      modifies this
      ensures bytes == old(bytes) && Agrees(UInt16At(bytes, old(position)), r, position)
    {
      var b := ReadBytes(2);
      r := if b.Some? then Some(ParseUInt16(b.value)) else None;
    }

    method ReadUInt32() returns (r: Option<UInt32>)
      modifies this
      ensures bytes == old(bytes) && Agrees(UInt32At(bytes, old(position)), r, position)
    {
      var b := ReadBytes(4);
      r := if b.Some? then Some(ParseUInt32(b.value)) else None;
    }

    method ReadUInt64() returns (r: Option<UInt64>)
      modifies this
      ensures bytes == old(bytes) && Agrees(UInt64At(bytes, old(position)), r, position)
    {
      var b := ReadBytes(8);
      r := if b.Some? then Some(ParseUInt64(b.value)) else None;
    }

    /** readString: the int32 count, then that many chars, so a written string comes back with its NUL. */
    method ReadString() returns (r: Option<seq<Byte>>)
      modifies this
      ensures bytes == old(bytes) && Agrees(StringAt(bytes, old(position)), r, position)
    {
      var length := ReadInt32();
      if length == None {
        return None;
      }
      r := ReadBytes(if length.value < 0 then 0 else length.value);
    }

    /** readCString: chars up to and including the next NUL. */
    method ReadCString() returns (r: Option<seq<Byte>>)
      modifies this
      ensures bytes == old(bytes) && Agrees(CStringAt(bytes, old(position)), r, position)
    {
      var chars: seq<Byte> := [];
      while true
        invariant bytes == old(bytes)
        invariant CStringAt(bytes, old(position)) == Extend(chars, CStringAt(bytes, position))
        decreases |bytes| - position
      {
        ghost var p := position;
        var value := ReadChar();
        if value == None {
          assert Agrees(CStringAt(bytes, old(position)), None, position) by {
            CStringLoopStep(bytes, old(position), chars, p);
          }
          return None;
        }
        if value.value == 0 {
          assert Agrees(CStringAt(bytes, old(position)), Some(chars + [0]), position) by {
            CStringLoopStep(bytes, old(position), chars, p);
          }
          return Some(chars + [0]);
        }
        assert CStringAt(bytes, old(position)) == Extend(chars + [value.value], CStringAt(bytes, position)) by {
          CStringLoopStep(bytes, old(position), chars, p);
        }
        chars := chars + [value.value];
      }
    }

    /** readChar over an array: `length` values into the caller's array. */
    method ReadChars(dest: array<Byte>, length: UInt32) returns (ok: bool)
      requires length <= dest.Length
      modifies this, dest
      ensures bytes == old(bytes)
      ensures ok <==> CharsAt(bytes, old(position), length).Got?
      ensures ok ==> dest[..length] == CharsAt(bytes, old(position), length).value
      ensures ok ==> position == CharsAt(bytes, old(position), length).next
      ensures dest[length..] == old(dest[length..])
    {
      var i := 0;
      while i < length
        invariant i <= length && bytes == old(bytes)
        invariant CharsAt(bytes, old(position), length) == Extend(dest[..i], CharsAt(bytes, position, length - i))
        invariant dest[length..] == old(dest[length..])
      {
        var v := ReadChar();
        if v == None {
          return false;
        }
        ExtendTwice(dest[..i], [v.value], CharsAt(bytes, position, length - i - 1));
        dest[i] := v.value;
        assert dest[..i + 1] == dest[..i] + [v.value];
        i := i + 1;
      }
      return true;
    }

    /** readInt16 over an array: `length` values into the caller's array. */
    method ReadInt16s(dest: array<Int16>, length: UInt32) returns (ok: bool)
      requires length <= dest.Length
      modifies this, dest
      ensures bytes == old(bytes)
      ensures ok <==> Int16sAt(bytes, old(position), length).Got?
      ensures ok ==> dest[..length] == Int16sAt(bytes, old(position), length).value
      ensures ok ==> position == Int16sAt(bytes, old(position), length).next
      ensures dest[length..] == old(dest[length..])
    {
      var i := 0;
      while i < length
        invariant i <= length && bytes == old(bytes)
        invariant Int16sAt(bytes, old(position), length) == Extend(dest[..i], Int16sAt(bytes, position, length - i))
        invariant dest[length..] == old(dest[length..])
      {
        var v := ReadInt16();
        if v == None {
          return false;
        }
        ExtendTwice(dest[..i], [v.value], Int16sAt(bytes, position, length - i - 1));
        dest[i] := v.value;
        assert dest[..i + 1] == dest[..i] + [v.value];
        i := i + 1;
      }
      return true;
    }

    /** readInt64 over an array: `length` values into the caller's array. */
    method ReadInt64s(dest: array<Int64>, length: UInt32) returns (ok: bool)
      requires length <= dest.Length
      modifies this, dest
      ensures bytes == old(bytes)
      ensures ok <==> Int64sAt(bytes, old(position), length).Got?
      ensures ok ==> dest[..length] == Int64sAt(bytes, old(position), length).value
      ensures ok ==> position == Int64sAt(bytes, old(position), length).next
      ensures dest[length..] == old(dest[length..])
    {
      var i := 0;
      while i < length
        invariant i <= length && bytes == old(bytes)
        invariant Int64sAt(bytes, old(position), length) == Extend(dest[..i], Int64sAt(bytes, position, length - i))
        invariant dest[length..] == old(dest[length..])
      {
        var v := ReadInt64();
        if v == None {
          return false;
        }
        ExtendTwice(dest[..i], [v.value], Int64sAt(bytes, position, length - i - 1));
        dest[i] := v.value;
        assert dest[..i + 1] == dest[..i] + [v.value];
        i := i + 1;
      }
      return true;
    }

    /** readFloat/readDouble over an array: `length` numbers, each as the text before its NUL. */
    method ReadTexts(length: UInt32) returns (r: Option<seq<seq<Byte>>>)
      modifies this
      ensures bytes == old(bytes) && Agrees(TextsAt(bytes, old(position), length), r, position)
    {
      var texts: seq<seq<Byte>> := [];
      var i := 0;
      while i < length
        invariant i <= length && bytes == old(bytes)
        invariant TextsAt(bytes, old(position), length) == Extend(texts, TextsAt(bytes, position, length - i))
      {
        TextsLoopStep(bytes, old(position), length, texts, position, length - i);
        var c := ReadCString();
        if c == None {
          return None;
        }
        texts := texts + [c.value[..|c.value| - 1]];
        i := i + 1;
      }
      assert texts + [] == texts;
      return Some(texts);
    }

    /** readInt32 over an array: `length` words into the caller's array. */
    method ReadInt32s(dest: array<Int32>, length: UInt32) returns (ok: bool)
      requires length <= dest.Length
      modifies this, dest
      ensures bytes == old(bytes)
      ensures ok <==> Int32sAt(bytes, old(position), length).Got?
      ensures ok ==> dest[..length] == Int32sAt(bytes, old(position), length).value
      ensures ok ==> position == Int32sAt(bytes, old(position), length).next
      ensures dest[length..] == old(dest[length..])
    {
      var i := 0;
      while i < length
        invariant i <= length && bytes == old(bytes)
        invariant Int32sAt(bytes, old(position), length) == Extend(dest[..i], Int32sAt(bytes, position, length - i))
        invariant dest[length..] == old(dest[length..])
      {
        ghost var before := position;
        var v := ReadInt32();
        if v == None {
          return false;
        }
        ExtendTwice(dest[..i], [v.value], Int32sAt(bytes, position, length - i - 1));
        dest[i] := v.value;
        assert dest[..i + 1] == dest[..i] + [v.value];
        i := i + 1;
      }
      return true;
    }
  }

  /** The C string of `value` ends at its first NUL. */
  lemma {:induction false} CStrUpToNul(value: seq<Byte>, i: nat)
    requires i < |value| && value[i] == 0 && 0 !in value[..i]
    ensures CStr(value) == value[..i]
  {
    if i > 0 {
      assert value[1..][..i - 1] == value[..i][1..];
      CStrUpToNul(value[1..], i - 1);
      assert value[..i] == [value[0]] + value[1..i];
    }
  }

  /** One char of readCString's do-while loop. */
  lemma CStringAtStep(bs: seq<Byte>, p: int)
    ensures !(0 <= p < |bs|) ==> CStringAt(bs, p) == OutOfRange(p)
    ensures 0 <= p < |bs| && bs[p] == 0 ==> CStringAt(bs, p) == Got([0], p + 1)
    ensures 0 <= p < |bs| && bs[p] != 0 ==> CStringAt(bs, p) == Extend([bs[p]], CStringAt(bs, p + 1))
  {
  }

  /** One turn of readCString's loop: the byte at the cursor either ends the string or joins the text read so far. */
  lemma CStringLoopStep(bs: seq<Byte>, start: int, chars: seq<Byte>, p: int)
    requires CStringAt(bs, start) == Extend(chars, CStringAt(bs, p))
    ensures !(0 <= p < |bs|) ==> CStringAt(bs, start) == OutOfRange(p)
    ensures 0 <= p < |bs| && bs[p] == 0 ==> CStringAt(bs, start) == Got(chars + [0], p + 1)
    ensures 0 <= p < |bs| && bs[p] != 0 ==> CStringAt(bs, start) == Extend(chars + [bs[p]], CStringAt(bs, p + 1))
  {
    CStringAtStep(bs, p);
    if 0 <= p < |bs| && bs[p] != 0 {
      ExtendTwice(chars, [bs[p]], CStringAt(bs, p + 1));
    }
  }

  /** One turn of readFloats'/readDoubles' loop: the next C string either fails the whole read or, without its
      NUL, joins the texts read so far. */
  lemma TextsLoopStep(bs: seq<Byte>, start: int, length: nat, texts: seq<seq<Byte>>, p: int, m: nat)
    requires m > 0 && TextsAt(bs, start, length) == Extend(texts, TextsAt(bs, p, m))
    ensures CStringAt(bs, p).OutOfRange? ==> TextsAt(bs, start, length) == OutOfRange(CStringAt(bs, p).stop)
    ensures var c := CStringAt(bs, p);
      c.Got? ==> TextsAt(bs, start, length) == Extend(texts + [c.value[..|c.value| - 1]], TextsAt(bs, c.next, m - 1))
  {
    var c := CStringAt(bs, p);
    if c.Got? {
      var text := c.value[..|c.value| - 1];
      assert TextAt(bs, p) == Got(text, c.next);
      ExtendTwice(texts, [text], TextsAt(bs, c.next, m - 1));
    }
  }

  /** writeFloats'/writeDoubles' loop writes one more text and its NUL, and the C string it writes is that text. */
  lemma TextsImagePrefixStep(written: seq<Byte>, values: seq<seq<Byte>>, i: nat)
    requires i < |values| && 0 !in values[i]
    ensures written + TextsImage(values[..i + 1]) == written + TextsImage(values[..i]) + CStr(values[i] + [0]) + [0]
    ensures 0 in values[i] + [0]
  {
    CStrOfTerminated(values[i]);
    TextsImageSnoc(values[..i], values[i]);
    assert values[..i + 1] == values[..i] + [values[i]];
  }

  lemma ExtendTwice<T>(a: seq<T>, b: seq<T>, o: Outcome<seq<T>>)
    ensures Extend(a, Extend(b, o)) == Extend(a + b, o)
  {
    if o.Got? {
      assert a + (b + o.value) == (a + b) + o.value;
    }
  }

  lemma {:induction false} TextsImageSnoc(ts: seq<seq<Byte>>, t: seq<Byte>)
    ensures TextsImage(ts + [t]) == TextsImage(ts) + t + [0]
  {
    if ts != [] {
      assert (ts + [t])[1..] == ts[1..] + [t];
      TextsImageSnoc(ts[1..], t);
    }
  }

  /** readChar: one char, failing outside the vector. */
  function CharAt(bs: seq<Byte>, p: int): (o: Outcome<Byte>)
    ensures o.Got? <==> 0 <= p < |bs|
  {
    if 0 <= p < |bs| then Got(bs[p], p + 1) else OutOfRange(p)
  }

  lemma {:induction false} Int16sImageSnoc(ws: seq<Int16>, w: Int16)
    ensures Int16sImage(ws + [w]) == Int16sImage(ws) + Int16Bytes(w)
  {
    if ws != [] {
      assert (ws + [w])[1..] == ws[1..] + [w];
      Int16sImageSnoc(ws[1..], w);
    }
  }

  lemma {:induction false} Int32sImageSnoc(ws: seq<Int32>, w: Int32)
    ensures Int32sImage(ws + [w]) == Int32sImage(ws) + Int32Bytes(w)
  {
    if ws != [] {
      assert (ws + [w])[1..] == ws[1..] + [w];
      Int32sImageSnoc(ws[1..], w);
    }
  }

  lemma {:induction false} Int64sImageSnoc(ws: seq<Int64>, w: Int64)
    ensures Int64sImage(ws + [w]) == Int64sImage(ws) + Int64Bytes(w)
  {
    if ws != [] {
      assert (ws + [w])[1..] == ws[1..] + [w];
      Int64sImageSnoc(ws[1..], w);
    }
  }
}

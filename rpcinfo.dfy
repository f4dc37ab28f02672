// Records of the registry (src/rpcinfo.h) and their comparisons (src/rpcinfo.cpp).
// Names are raw `std::string` bytes and may carry embedded NULs; argument types
// are zero-terminated word arrays.
module RpcInfo {
  import opened Ints
  import opened Helpers

  /** rpc_info: a procedure identity. */
  datatype RpcIdent = RpcIdent(name: seq<Byte>, argTypes: seq<Int32>)
  {
    /** The word array is zero-terminated, as every caller guarantees. */
    predicate Valid() { 0 in argTypes }

    /** getArgTypesLength of the word array: terminator included. */
    function Length(): (n: nat)
      requires Valid()
      ensures 1 <= n <= |argTypes|
    {
      TypesLength(argTypes)
    }
  }

  /** server_info: where a server listens. */
  datatype ServerInfo = ServerInfo(host: seq<Byte>, port: UInt16)

  /** function_info: a server location that supports one identity. */
  datatype FunctionInfo = FunctionInfo(host: seq<Byte>, port: UInt16, rpc: RpcIdent)

  // ---------------------------------------------------------------- names

  /** The C string seen by `c_str()`/`strcmp`: the bytes before the first NUL. */
  function CStr(s: seq<Byte>): (c: seq<Byte>)
    ensures c <= s
    ensures 0 !in c
    ensures |c| < |s| ==> s[|c|] == 0
  {
    if s == [] || s[0] == 0 then [] else [s[0]] + CStr(s[1..])
  }

  /** std::string `operator<`: byte-wise lexicographic order, a proper prefix first. */
  function StringLess(a: seq<Byte>, b: seq<Byte>): (r: bool)
  {
    if a == [] then b != []
    else if b == [] then false
    else if a[0] != b[0] then a[0] < b[0]
    else StringLess(a[1..], b[1..])
  }

  /** On distinct strings exactly one of `a < b`, `b < a` holds; on equal strings neither. */
  lemma {:induction false} StringLessTrichotomy(a: seq<Byte>, b: seq<Byte>)
    ensures a == b ==> !StringLess(a, b)
    ensures a != b ==> StringLess(a, b) != StringLess(b, a)
  {
    if a != [] && b != [] && a[0] == b[0] {
      StringLessTrichotomy(a[1..], b[1..]);
      assert a == [a[0]] + a[1..] && b == [b[0]] + b[1..];
    }
  }

  // ---------------------------------------------------------------- equality

  /** The element loop of function_info `==`: words [i, n) agree. */
  function WordsEqualFrom(a: seq<Int32>, b: seq<Int32>, i: nat, n: nat): (r: bool)
    requires i <= n <= |a| && n <= |b|
    ensures r <==> a[i..n] == b[i..n]
    decreases n - i
  {
    if i == n then true
    else if a[i] != b[i] then false
    else WordsEqualFrom(a, b, i + 1, n)
  }

  /** function_info `==`: full names, host and port, then lengths, then every non-terminator word. */
  function FunctionInfoEq(s1: FunctionInfo, s2: FunctionInfo): (r: bool)
    requires s1.rpc.Valid() && s2.rpc.Valid()
    ensures r ==> s1.rpc.name == s2.rpc.name && s1.host == s2.host && s1.port == s2.port
    ensures r ==> s1.rpc.Length() == s2.rpc.Length() && s1.rpc.argTypes[..s1.rpc.Length()] == s2.rpc.argTypes[..s2.rpc.Length()]
  {
    if s1.rpc.name != s2.rpc.name then false
    else if s1.host != s2.host || s1.port != s2.port then false
    else if s1.rpc.Length() != s2.rpc.Length() then false
    else WordsEqualFrom(s1.rpc.argTypes, s2.rpc.argTypes, 0, s1.rpc.Length() - 1)
  }

  /** The zero-terminated content of a word array: its first Length() words. */
  function Terminated(r: RpcIdent): (ws: seq<Int32>)
    requires r.Valid()
    ensures |ws| == r.Length() && ws[|ws| - 1] == 0 && 0 !in ws[..|ws| - 1]
  {
    r.argTypes[..r.Length()]
  }

  /** Two bindings are `==` exactly when location, full name and zero-terminated words coincide. */
  lemma FunctionInfoEqMeans(s1: FunctionInfo, s2: FunctionInfo)
    requires s1.rpc.Valid() && s2.rpc.Valid()
    ensures FunctionInfoEq(s1, s2) <==>
      s1.host == s2.host && s1.port == s2.port && s1.rpc.name == s2.rpc.name &&
      Terminated(s1.rpc) == Terminated(s2.rpc)
  {
    var t1, t2 := Terminated(s1.rpc), Terminated(s2.rpc);
    if |t1| == |t2| {
      assert t1 == t2 <==> t1[..|t1| - 1] == t2[..|t2| - 1] by {
        if t1[..|t1| - 1] == t2[..|t2| - 1] {
          assert t1 == t1[..|t1| - 1] + [0] && t2 == t2[..|t2| - 1] + [0];
        }
      }
      assert t1[..|t1| - 1] == s1.rpc.argTypes[0..|t1| - 1];
      assert t2[..|t2| - 1] == s2.rpc.argTypes[0..|t2| - 1];
    }
  }

  /** server_info `==` function_info: only the location is compared. */
  predicate ServesAt(server: ServerInfo, service: FunctionInfo)
  {
    server.host == service.host && server.port == service.port
  }

  /** The location of a binding. */
  function Location(service: FunctionInfo): (s: ServerInfo)
    ensures ServesAt(s, service)
  {
    ServerInfo(service.host, service.port)
  }

  /** Each binding is served at exactly one location, whatever identity it carries. */
  lemma ServesAtOnlyItsLocation(server: ServerInfo, service: FunctionInfo)
    ensures ServesAt(server, service) <==> server == Location(service)
  {
  }

  // ---------------------------------------------------------------- ordering

  /** Scalar-vs-array shape of a word, as the tie-break of `<` sees it. */
  function Shape(w: Int32): (scalar: bool)
    ensures scalar <==> w % TWO16 == 0
  {
    IsScalar(w)
  }

  /** The tie-break loop of `<`: the first position in [i, n) with a shape mismatch decides by raw word. */
  function ShapeScan(a: seq<Int32>, b: seq<Int32>, i: nat, n: nat): (r: bool)
    requires i <= n <= |a| && n <= |b|
    ensures a[i..n] == b[i..n] ==> !r
    decreases n - i
  {
    if i == n then false
    else if a[i] == b[i] then ShapeScan(a, b, i + 1, n)
    else
      var size1, size2 := GetArgTypeArrayLength(a[i]), GetArgTypeArrayLength(b[i]);
      if size1 != size2 && ((size1 == 0 && size2 != 0) || (size1 != 0 && size2 == 0)) then a[i] < b[i]
      else ShapeScan(a, b, i + 1, n)
  }

  /** rpc_info `operator<`. */
  function Less(r1: RpcIdent, r2: RpcIdent): (r: bool)
    requires r1.Valid() && r2.Valid()
    ensures r1 == r2 ==> !r
    ensures r && CStr(r1.name) == CStr(r2.name) ==> r1.Length() <= r2.Length()
  {
    if CStr(r1.name) != CStr(r2.name) then StringLess(r1.name, r2.name)
    else if r1.Length() != r2.Length() then r1.Length() < r2.Length()
    else ShapeScan(r1.argTypes, r2.argTypes, 0, r1.Length() - 1)
  }

  /** Neither is less than the other: how std::map decides that two keys are the same. */
  predicate Equivalent(r1: RpcIdent, r2: RpcIdent)
    requires r1.Valid() && r2.Valid()
  {
    !Less(r1, r2) && !Less(r2, r1)
  }

  /** Every position of [i, n) is scalar on both sides or array on both sides. */
  predicate SameShapes(a: seq<Int32>, b: seq<Int32>, i: nat, n: nat)
    requires i <= n <= |a| && n <= |b|
  {
    forall k :: i <= k < n ==> Shape(a[k]) == Shape(b[k])
  }

  /** The tie-break is false both ways exactly when the shapes agree; it is never true both ways. */
  lemma {:induction false} ShapeScanMeans(a: seq<Int32>, b: seq<Int32>, i: nat, n: nat)
    requires i <= n <= |a| && n <= |b|
    ensures !(ShapeScan(a, b, i, n) && ShapeScan(b, a, i, n))
    ensures !ShapeScan(a, b, i, n) && !ShapeScan(b, a, i, n) <==> SameShapes(a, b, i, n)
    decreases n - i
  {
    if i < n {
      ShapeScanMeans(a, b, i + 1, n);
    }
  }

  /** When the C strings differ, the full-string order is strict between the two names. */
  lemma NamesDifferDecide(r1: RpcIdent, r2: RpcIdent)
    requires r1.Valid() && r2.Valid() && CStr(r1.name) != CStr(r2.name)
    ensures Less(r1, r2) <==> StringLess(r1.name, r2.name)
    ensures Less(r1, r2) != Less(r2, r1)
  {
    StringLessTrichotomy(r1.name, r2.name);
  }

  /** With equal C-string names, the identity with fewer terminator-inclusive words is smaller. */
  lemma ShorterIsLess(r1: RpcIdent, r2: RpcIdent)
    requires r1.Valid() && r2.Valid() && CStr(r1.name) == CStr(r2.name)
    requires r1.Length() < r2.Length()
    ensures Less(r1, r2) && !Less(r2, r1)
  {
  }

  /** `<` is asymmetric. */
  lemma LessAsymmetric(r1: RpcIdent, r2: RpcIdent)
    requires r1.Valid() && r2.Valid()
    ensures !(Less(r1, r2) && Less(r2, r1))
  {
    if CStr(r1.name) != CStr(r2.name) {
      NamesDifferDecide(r1, r2);
    } else if r1.Length() == r2.Length() {
      ShapeScanMeans(r1.argTypes, r2.argTypes, 0, r1.Length() - 1);
    }
  }

  /** Equivalence ignores base types, flags and array sizes: only name, length and shapes matter. */
  lemma EquivalentMeans(r1: RpcIdent, r2: RpcIdent)
    requires r1.Valid() && r2.Valid()
    ensures Equivalent(r1, r2) <==>
      CStr(r1.name) == CStr(r2.name) && r1.Length() == r2.Length() &&
      SameShapes(r1.argTypes, r2.argTypes, 0, r1.Length() - 1)
  {
    if CStr(r1.name) != CStr(r2.name) {
      NamesDifferDecide(r1, r2);
    } else if r1.Length() == r2.Length() {
      ShapeScanMeans(r1.argTypes, r2.argTypes, 0, r1.Length() - 1);
    }
  }

  // ---------------------------------------------------------------- canonical keys

  /** The equivalence class of an identity under `<`: the key the registries in this model use. */
  datatype Key = Key(cname: seq<Byte>, length: nat, shapes: seq<bool>)

  function ShapesOf(ws: seq<Int32>): (s: seq<bool>)
    ensures |s| == |ws|
    ensures forall k :: 0 <= k < |ws| ==> s[k] == Shape(ws[k])
  {
    if ws == [] then [] else [Shape(ws[0])] + ShapesOf(ws[1..])
  }

  function KeyOf(r: RpcIdent): (k: Key)
    requires r.Valid()
    ensures k.cname == CStr(r.name) && k.length == r.Length() && |k.shapes| == k.length - 1
  {
    Key(CStr(r.name), r.Length(), ShapesOf(r.argTypes[..r.Length() - 1]))
  }

  /** Whether some key carries the C string of this name. `operator<` decides on the names before it counts
      any words, so a map lookup can reach a probe's word list only when such a key is filed; without one,
      find fails having compared names alone. */
  predicate NameFiled(keys: set<Key>, name: seq<Byte>)
  {
    exists k :: k in keys && k.cname == CStr(name)
  }

  /** Two identities are `<`-equivalent exactly when they have the same key. */
  lemma EquivalentIffSameKey(r1: RpcIdent, r2: RpcIdent)
    requires r1.Valid() && r2.Valid()
    ensures Equivalent(r1, r2) <==> KeyOf(r1) == KeyOf(r2)
  {
    EquivalentMeans(r1, r2);
    var n := r1.Length();
    if KeyOf(r1) == KeyOf(r2) {
      forall k | 0 <= k < n - 1 ensures Shape(r1.argTypes[k]) == Shape(r2.argTypes[k]) {
        assert KeyOf(r1).shapes[k] == KeyOf(r2).shapes[k];
      }
    }
  }

  /** `==`-equal bindings name `<`-equivalent identities, so they live under one key. */
  lemma EqualBindingsShareKey(s1: FunctionInfo, s2: FunctionInfo)
    requires s1.rpc.Valid() && s2.rpc.Valid() && FunctionInfoEq(s1, s2)
    ensures KeyOf(s1.rpc) == KeyOf(s2.rpc)
  {
    FunctionInfoEqMeans(s1, s2);
    var n := s1.rpc.Length();
    assert s1.rpc.argTypes[..n - 1] == Terminated(s1.rpc)[..n - 1];
    assert s2.rpc.argTypes[..n - 1] == Terminated(s2.rpc)[..n - 1];
  }

  /** A name read from the wire ends in NUL; it still names the same procedure as the bare name. */
  lemma WireNameSameKey(name: seq<Byte>, argTypes: seq<Int32>)
    requires 0 !in name && 0 in argTypes
    ensures KeyOf(RpcIdent(name + [0], argTypes)) == KeyOf(RpcIdent(name, argTypes))
    ensures name + [0] != name
  {
    CStrOfTerminated(name);
    CStrOfPlain(name);
  }

  lemma {:induction false} CStrOfTerminated(name: seq<Byte>)
    requires 0 !in name
    ensures CStr(name + [0]) == name
  {
    if name != [] {
      assert (name + [0])[1..] == name[1..] + [0];
      CStrOfTerminated(name[1..]);
    }
  }

  lemma {:induction false} CStrOfPlain(name: seq<Byte>)
    requires 0 !in name
    ensures CStr(name) == name
  {
    if name != [] {
      CStrOfPlain(name[1..]);
    }
  }

  // ---------------------------------------------------------------- not a strict weak order

  const CharScalar: Int32 := 0x1_0000          // ARG_CHAR, scalar
  const IntArray10: Int32 := 0x3_000A          // ARG_INT, array of 10
  const LongScalarOut: Int32 := 0x4004_0000    // ARG_LONG, scalar, output flag

  /** `<` is not transitive: a < b and b < c, yet a and c are equivalent. */
  lemma LessNotTransitive()
    ensures var a, b, c := RpcIdent([102], [CharScalar, 0]), RpcIdent([102], [IntArray10, 0]),
                          RpcIdent([102], [LongScalarOut, 0]);
      a.Valid() && b.Valid() && c.Valid() &&
      Less(a, b) && Less(b, c) && !Less(a, c) && Equivalent(a, c)
  {
    var a, b, c := RpcIdent([102], [CharScalar, 0]), RpcIdent([102], [IntArray10, 0]),
                   RpcIdent([102], [LongScalarOut, 0]);
    assert a.Length() == 2 && b.Length() == 2 && c.Length() == 2;
  }
}

// The binder (src/binder.cpp): a registry from RPC identities to the servers that
// provide them, a round-robin queue of servers, and per-connection framing of
// requests that arrive in two parts (header, then payload).
// The registry maps are keyed by the equivalence class of `operator<` (RpcInfo.Key).
module Binder {
  import opened Ints
  import opened Wrappers
  import opened Constants
  import opened Helpers
  import opened Conversion
  import opened RpcInfo
  import opened BStream
  import opened Protocol

  // ---------------------------------------------------------------- list scans

  /** Every binding's identity carries its terminator. */
  predicate AllValid(list: seq<FunctionInfo>)
  {
    forall k :: 0 <= k < |list| ==> list[k].rpc.Valid()
  }

  /** The first binding located at `server` (the server_info == function_info scan), or -1. */
  function FirstServing(list: seq<FunctionInfo>, server: ServerInfo): (i: int)
    ensures -1 <= i < |list|
    ensures i >= 0 ==> ServesAt(server, list[i])
    ensures forall j :: 0 <= j < |list| && (i < 0 || j < i) ==> !ServesAt(server, list[j])
  {
    if list == [] then -1
    else if ServesAt(server, list[0]) then 0
    else
      var r := FirstServing(list[1..], server);
      if r < 0 then -1 else r + 1
  }

  /** The first binding equal to `f` (function_info ==), or -1. */
  function FirstEqual(list: seq<FunctionInfo>, f: FunctionInfo): (i: int)
    requires AllValid(list) && f.rpc.Valid()
    ensures -1 <= i < |list|
    ensures i >= 0 ==> FunctionInfoEq(list[i], f)
    ensures forall j :: 0 <= j < |list| && (i < 0 || j < i) ==> !FunctionInfoEq(list[j], f)
  {
    if list == [] then -1
    else if FunctionInfoEq(list[0], f) then 0
    else
      var r := FirstEqual(list[1..], f);
      if r < 0 then -1 else r + 1
  }

  /** `s` without its element i; `s` itself when there is no such element. */
  function Without<T>(s: seq<T>, i: int): (r: seq<T>)
    ensures 0 <= i < |s| ==> |r| == |s| - 1 && r[..i] == s[..i] && r[i..] == s[i + 1..]
    ensures !(0 <= i < |s|) ==> r == s
  {
    if 0 <= i < |s| then s[..i] + s[i + 1..] else s
  }

  /** list::remove by value: every element equal to `x` dropped, the rest kept in order. */
  function RemoveValue<T(==)>(s: seq<T>, x: T): (r: seq<T>)
    ensures x !in r
    ensures forall y :: y in s && y != x ==> y in r
    ensures forall y :: y in r ==> y in s
    ensures |r| <= |s|
  {
    if s == [] then []
    else if s[0] == x then RemoveValue(s[1..], x)
    else [s[0]] + RemoveValue(s[1..], x)
  }

  predicate NoDuplicates<T(==)>(s: seq<T>)
  {
    forall i, j :: 0 <= i < j < |s| ==> s[i] != s[j]
  }

  lemma {:induction false} RemoveValueKeepsNoDuplicates<T>(s: seq<T>, x: T)
    requires NoDuplicates(s)
    ensures NoDuplicates(RemoveValue(s, x))
    ensures x in s ==> |RemoveValue(s, x)| == |s| - 1
    ensures x !in s ==> RemoveValue(s, x) == s
  {
    if s != [] {
      assert NoDuplicates(s[1..]);
      RemoveValueKeepsNoDuplicates(s[1..], x);
      if s[0] == x {
        assert x !in s[1..];
      } else {
        assert s[0] !in s[1..];
        assert s[0] !in RemoveValue(s[1..], x);
        assert RemoveValue(s, x) == [s[0]] + RemoveValue(s[1..], x);
      }
    }
  }

  // ---------------------------------------------------------------- the round-robin queue

  /** The queue after its first n entries were each moved to the tail. */
  function Rotate<T>(q: seq<T>, n: nat): (r: seq<T>)
    requires n <= |q|
    ensures |r| == |q|
  {
    q[n..] + q[..n]
  }

  lemma RotateProperties<T>(q: seq<T>, n: nat)
    requires n <= |q|
    ensures multiset(Rotate(q, n)) == multiset(q)
    ensures n == |q| ==> Rotate(q, n) == q
    ensures 0 < n ==> Rotate(q, n)[|q| - 1] == q[n - 1]
  {
    assert q == q[..n] + q[n..];
  }

  /** One splice of the head to the tail. */
  lemma RotateStep<T>(q: seq<T>, n: nat)
    requires n < |q|
    ensures Rotate(q, n)[0] == q[n]
    ensures Rotate(q, n)[1..] + [Rotate(q, n)[0]] == Rotate(q, n + 1)
  {
    assert q[..n + 1] == q[..n] + [q[n]];
  }

  /** The first queued server that some binding in `list` is located at, or -1. */
  function FirstSupported(queue: seq<ServerInfo>, list: seq<FunctionInfo>): (j: int)
    ensures -1 <= j < |queue|
    ensures j >= 0 ==> FirstServing(list, queue[j]) >= 0
    ensures forall i :: 0 <= i < |queue| && (j < 0 || i < j) ==> FirstServing(list, queue[i]) < 0
  {
    if queue == [] then -1
    else if FirstServing(list, queue[0]) >= 0 then 0
    else
      var r := FirstSupported(queue[1..], list);
      if r < 0 then -1 else r + 1
  }

  /** getPriorityServer on values: the chosen server and the queue after the scan. */
  function Pick(queue: seq<ServerInfo>, functionMap: map<Key, seq<FunctionInfo>>, key: Key): (r: (Option<ServerInfo>, seq<ServerInfo>))
    ensures multiset(r.1) == multiset(queue)
    ensures r.0 == None ==> r.1 == queue
    ensures r.0 == None <==> key !in functionMap || forall i :: 0 <= i < |queue| ==> FirstServing(functionMap[key], queue[i]) < 0
    ensures r.0.Some? ==> r.0.value in queue && FirstServing(functionMap[key], r.0.value) >= 0 && r.1[|r.1| - 1] == r.0.value
  {
    if key !in functionMap then (None, queue)
    else
      var j := FirstSupported(queue, functionMap[key]);
      if j < 0 then (None, queue)
      else
        RotateProperties(queue, j + 1);
        assert queue[j] in queue;
        (Some(queue[j]), Rotate(queue, j + 1))
  }

  /** The chosen server is the earliest queued one that serves the identity; all entries before it moved behind it. */
  lemma PickIsEarliest(queue: seq<ServerInfo>, functionMap: map<Key, seq<FunctionInfo>>, key: Key)
    requires Pick(queue, functionMap, key).0.Some?
    ensures var j := FirstSupported(queue, functionMap[key]);
      0 <= j && Pick(queue, functionMap, key).0.value == queue[j] &&
      (forall i :: 0 <= i < j ==> FirstServing(functionMap[key], queue[i]) < 0) &&
      Pick(queue, functionMap, key).1 == queue[j + 1..] + queue[..j + 1]
  {
  }

  // ---------------------------------------------------------------- registry updates on values

  /** The bindings for a key; an absent key has none. */
  function Bindings(functionMap: map<Key, seq<FunctionInfo>>, key: Key): (list: seq<FunctionInfo>)
    ensures key !in functionMap ==> list == []
  {
    if key in functionMap then functionMap[key] else []
  }

  /** The binding function_add creates: the location and the identity cut after its terminator. */
  function NewBinding(name: seq<Byte>, argTypes: seq<Int32>, host: seq<Byte>, port: UInt16): (f: FunctionInfo)
    requires 0 in argTypes
    ensures f.rpc.Valid() && f.rpc.argTypes == Terminated(RpcIdent(name, argTypes))
    ensures KeyOf(f.rpc) == KeyOf(RpcIdent(name, argTypes))
  {
    var r := RpcIdent(name, argTypes[..TypesLength(argTypes)]);
    assert r.argTypes[|r.argTypes| - 1] == 0;
    TypesLengthUnique(r.argTypes, |r.argTypes|);
    FunctionInfo(host, port, r)
  }

  /** function_add on one list: the equal binding, if any, removed and the new one appended. */
  function ListAfterAdd(list: seq<FunctionInfo>, f: FunctionInfo): (r: seq<FunctionInfo>)
    requires AllValid(list) && f.rpc.Valid()
  {
    Without(list, FirstEqual(list, f)) + [f]
  }

  /** function_add's result for one list. */
  function AddCode(list: seq<FunctionInfo>, f: FunctionInfo): (code: int)
    requires AllValid(list) && f.rpc.Valid()
  {
    if FirstEqual(list, f) >= 0 then FUNCTION_OVERRIDDEN else SUCCESS
  }

  /** FUNCTION_OVERRIDDEN exactly when an equal binding was there; the list grows by one only on SUCCESS,
      the new binding is last, and every other binding keeps its place. */
  lemma AddMeans(list: seq<FunctionInfo>, f: FunctionInfo)
    requires AllValid(list) && f.rpc.Valid()
    ensures AddCode(list, f) == FUNCTION_OVERRIDDEN <==> exists k :: 0 <= k < |list| && FunctionInfoEq(list[k], f)
    ensures AddCode(list, f) == SUCCESS || AddCode(list, f) == FUNCTION_OVERRIDDEN
    ensures |ListAfterAdd(list, f)| == |list| + (if AddCode(list, f) == SUCCESS then 1 else 0)
    ensures ListAfterAdd(list, f)[|ListAfterAdd(list, f)| - 1] == f
    ensures AddCode(list, f) == SUCCESS ==> ListAfterAdd(list, f) == list + [f]
  {
  }

  /** Lists without two equal bindings stay so: one add leaves exactly one binding equal to f. */
  predicate Distinct(list: seq<FunctionInfo>)
    requires AllValid(list)
  {
    forall i, j :: 0 <= i < j < |list| ==> !FunctionInfoEq(list[i], list[j])
  }

  lemma AddKeepsDistinct(list: seq<FunctionInfo>, f: FunctionInfo)
    requires AllValid(list) && f.rpc.Valid() && Distinct(list)
    ensures AllValid(ListAfterAdd(list, f)) && Distinct(ListAfterAdd(list, f))
    ensures forall k :: 0 <= k < |ListAfterAdd(list, f)| - 1 ==> !FunctionInfoEq(ListAfterAdd(list, f)[k], f)
  {
    var w := Without(list, FirstEqual(list, f));
    RemovedNoneEqual(list, f);
    WithoutKeepsDistinct(list, FirstEqual(list, f));
    AppendKeepsDistinct(w, f);
    assert ListAfterAdd(list, f) == w + [f];
  }

  /** Appending a binding equal to none already in a list without two equal bindings keeps it so. */
  lemma AppendKeepsDistinct(list: seq<FunctionInfo>, f: FunctionInfo)
    requires AllValid(list) && f.rpc.Valid() && Distinct(list)
    requires forall k :: 0 <= k < |list| ==> !FunctionInfoEq(list[k], f)
    ensures AllValid(list + [f]) && Distinct(list + [f])
  {
    var r := list + [f];
    assert AllValid(r);
    forall a, b | 0 <= a < b < |r|
      ensures !FunctionInfoEq(r[a], r[b])
    {
      if b == |list| {
        EqualSymmetric(f, list[a]);
      } else {
        assert r[a] == list[a] && r[b] == list[b];
      }
    }
  }

  /** FunctionInfoEq does not depend on the order of its arguments. */
  lemma EqualSymmetric(s1: FunctionInfo, s2: FunctionInfo)
    requires s1.rpc.Valid() && s2.rpc.Valid()
    ensures FunctionInfoEq(s1, s2) == FunctionInfoEq(s2, s1)
  {
    FunctionInfoEqMeans(s1, s2);
    FunctionInfoEqMeans(s2, s1);
  }

  /** Two bindings equal to the same binding are equal to each other. */
  lemma EqualToSame(s1: FunctionInfo, s2: FunctionInfo, f: FunctionInfo)
    requires s1.rpc.Valid() && s2.rpc.Valid() && f.rpc.Valid()
    requires FunctionInfoEq(s1, f) && FunctionInfoEq(s2, f)
    ensures FunctionInfoEq(s1, s2)
  {
    FunctionInfoEqMeans(s1, f);
    FunctionInfoEqMeans(s2, f);
    FunctionInfoEqMeans(s1, s2);
  }

  /** Element k of a list with index i removed is element k or k + 1 of the list. */
  lemma WithoutAt<T>(s: seq<T>, i: int, k: nat)
    requires k < |Without(s, i)|
    ensures var m := if 0 <= i < |s| && k >= i then k + 1 else k;
      m < |s| && Without(s, i)[k] == s[m]
  {
    if 0 <= i < |s| {
      if k < i {
        assert Without(s, i)[k] == Without(s, i)[..i][k];
      } else {
        assert Without(s, i)[k] == Without(s, i)[i..][k - i];
      }
    }
  }

  /** Dropping one binding from a list without two equal bindings keeps it so. */
  lemma WithoutKeepsDistinct(list: seq<FunctionInfo>, i: int)
    requires AllValid(list) && Distinct(list)
    ensures AllValid(Without(list, i)) && Distinct(Without(list, i))
  {
    var w := Without(list, i);
    forall k | 0 <= k < |w|
      ensures w[k].rpc.Valid()
    {
      WithoutAt(list, i, k);
    }
    forall a, b | 0 <= a < b < |w|
      ensures !FunctionInfoEq(w[a], w[b])
    {
      WithoutAt(list, i, a);
      WithoutAt(list, i, b);
    }
  }

  /** Once function_add has dropped the first binding equal to f, no binding equal to f is left. */
  lemma RemovedNoneEqual(list: seq<FunctionInfo>, f: FunctionInfo)
    requires AllValid(list) && f.rpc.Valid() && Distinct(list)
    ensures var w := Without(list, FirstEqual(list, f));
      forall k :: 0 <= k < |w| ==> !FunctionInfoEq(w[k], f)
  {
    var i := FirstEqual(list, f);
    var w := Without(list, i);
    forall k | 0 <= k < |w|
      ensures !FunctionInfoEq(w[k], f)
    {
      WithoutAt(list, i, k);
      var m := if i >= 0 && k >= i then k + 1 else k;
      if i >= 0 && m > i && FunctionInfoEq(list[m], f) {
        EqualToSame(list[i], list[m], f);
      }
    }
  }

  /** function_add on the whole map: the binding filed under its identity's key. */
  function MapAfterAdd(functionMap: map<Key, seq<FunctionInfo>>, f: FunctionInfo): (m: map<Key, seq<FunctionInfo>>)
    requires f.rpc.Valid() && AllValid(Bindings(functionMap, KeyOf(f.rpc)))
    ensures m.Keys == functionMap.Keys + {KeyOf(f.rpc)}
  {
    functionMap[KeyOf(f.rpc) := ListAfterAdd(Bindings(functionMap, KeyOf(f.rpc)), f)]
  }

  // ---------------------------------------------------------------- the registry as a value

  /** The binder's registry: bindings by key, the round-robin queue, and the server each socket registered. */
  datatype Registry = Registry(functionMap: map<Key, seq<FunctionInfo>>, queue: seq<ServerInfo>, sockets: map<int, ServerInfo>)

  /** A list filed under `key`: terminated identities of that key, no two of them `==`. */
  predicate FiledUnder(list: seq<FunctionInfo>, key: Key)
  {
    AllValid(list) && Distinct(list) && forall i :: 0 <= i < |list| ==> KeyOf(list[i].rpc) == key
  }

  /** The registry invariant: queued locations distinct, each socket owns its own queued location,
      every list filed under its own key. */
  predicate RegistryValid(reg: Registry)
  {
    NoDuplicates(reg.queue) &&
    (forall fd :: fd in reg.sockets ==> reg.sockets[fd] in reg.queue) &&
    (forall fd1, fd2 :: fd1 in reg.sockets && fd2 in reg.sockets && fd1 != fd2 ==> reg.sockets[fd1] != reg.sockets[fd2]) &&
    (forall key :: key in reg.functionMap ==> FiledUnder(reg.functionMap[key], key))
  }

  /** server_register: a location not yet queued is appended and owned by `fd`; a known one changes nothing. */
  function RegisterServer(reg: Registry, server: ServerInfo, fd: int): (r: Registry)
  {
    if server in reg.queue then reg
    else reg.(queue := reg.queue + [server], sockets := reg.sockets[fd := server])
  }

  lemma RegisterServerMeans(reg: Registry, server: ServerInfo, fd: int)
    requires RegistryValid(reg)
    ensures var r := RegisterServer(reg, server, fd);
      RegistryValid(r) && r.functionMap == reg.functionMap &&
      multiset(r.queue)[server] == 1 && (r == reg <==> server in reg.queue) &&
      (server !in reg.queue ==> fd in r.sockets && r.sockets[fd] == server && r.queue[|r.queue| - 1] == server)
  {
    var r := RegisterServer(reg, server, fd);
    if server in reg.queue {
      var i :| 0 <= i < |reg.queue| && reg.queue[i] == server;
      assert reg.queue == reg.queue[..i] + [server] + reg.queue[i + 1..];
      assert server !in reg.queue[..i] && server !in reg.queue[i + 1..];
    } else {
      assert multiset(r.queue) == multiset(reg.queue) + multiset{server};
      assert r.queue != reg.queue by { assert server in r.queue; }
      forall fd1 | fd1 in r.sockets
        ensures r.sockets[fd1] in r.queue
      {
        if fd1 != fd { assert reg.sockets[fd1] in reg.queue; }
      }
    }
  }

  /** function_add keeps every list filed under its key, and touches only the binding's own key. */
  lemma MapAfterAddKeepsValid(reg: Registry, f: FunctionInfo)
    requires RegistryValid(reg) && f.rpc.Valid()
    ensures var m := MapAfterAdd(reg.functionMap, f);
      RegistryValid(reg.(functionMap := m)) &&
      (forall key :: key in reg.functionMap && key != KeyOf(f.rpc) ==> m[key] == reg.functionMap[key])
  {
    var key := KeyOf(f.rpc);
    ListAfterAddKeepsFiled(Bindings(reg.functionMap, key), key, f);
    var m := MapAfterAdd(reg.functionMap, f);
    forall k | k in m
      ensures FiledUnder(m[k], k)
    {
      if k != key {
        assert m[k] == reg.functionMap[k];
      }
    }
  }

  lemma ListAfterAddKeepsFiled(list: seq<FunctionInfo>, key: Key, f: FunctionInfo)
    requires FiledUnder(list, key) && f.rpc.Valid() && KeyOf(f.rpc) == key
    ensures FiledUnder(ListAfterAdd(list, f), key)
  {
    AddKeepsDistinct(list, f);
    WithoutKeepsFiled(list, key, FirstEqual(list, f));
    var w := Without(list, FirstEqual(list, f));
    assert ListAfterAdd(list, f) == w + [f];
  }

  /** Dropping one element keeps a list filed under its key. */
  lemma WithoutKeepsFiled(list: seq<FunctionInfo>, key: Key, i: int)
    requires FiledUnder(list, key)
    ensures FiledUnder(Without(list, i), key)
  {
    var w := Without(list, i);
    if 0 <= i < |list| {
      assert forall k :: 0 <= k < |w| ==> w[k] == list[if k >= i then k + 1 else k];
      assert AllValid(w);
      forall a, b | 0 <= a < b < |w|
        ensures !FunctionInfoEq(w[a], w[b])
      {
        var a', b' := if a >= i then a + 1 else a, if b >= i then b + 1 else b;
        assert w[a] == list[a'] && w[b] == list[b'] && a' < b';
      }
    }
  }

  /** The first binding at `server` dropped from one list (server_remove's inner scan). */
  function DropServing(list: seq<FunctionInfo>, server: ServerInfo): (r: seq<FunctionInfo>)
  {
    Without(list, FirstServing(list, server))
  }

  /** server_remove on the map: every list loses its first binding at `server`. */
  function MapWithout(functionMap: map<Key, seq<FunctionInfo>>, server: ServerInfo): (m: map<Key, seq<FunctionInfo>>)
    ensures m.Keys == functionMap.Keys
  {
    map k | k in functionMap :: DropServing(functionMap[k], server)
  }

  /** server_remove: the owning location leaves queue and socket map, and every list loses its first binding there. */
  function RemoveServer(reg: Registry, fd: int): (r: Registry)
  {
    if fd in reg.sockets then
      var server := reg.sockets[fd];
      Registry(MapWithout(reg.functionMap, server), RemoveValue(reg.queue, server), reg.sockets - {fd})
    else reg
  }

  lemma RemoveServerMeans(reg: Registry, fd: int)
    requires RegistryValid(reg)
    ensures var r := RemoveServer(reg, fd);
      RegistryValid(r) && fd !in r.sockets && r.functionMap.Keys == reg.functionMap.Keys &&
      (fd in reg.sockets ==> reg.sockets[fd] !in r.queue && |r.queue| == |reg.queue| - 1) &&
      (fd !in reg.sockets ==> r == reg) &&
      (forall other :: other in reg.sockets && other != fd ==> other in r.sockets && r.sockets[other] == reg.sockets[other])
  {
    if fd in reg.sockets {
      var server := reg.sockets[fd];
      var r := RemoveServer(reg, fd);
      RemoveValueKeepsNoDuplicates(reg.queue, server);
      forall other | other in r.sockets
        ensures r.sockets[other] in r.queue
      {
        assert reg.sockets[other] != server;
        assert reg.sockets[other] in reg.queue;
      }
      forall key | key in r.functionMap
        ensures FiledUnder(r.functionMap[key], key)
      {
        WithoutKeepsFiled(reg.functionMap[key], key, FirstServing(reg.functionMap[key], server));
      }
    }
  }

  /** Each list holds at most one binding at `server`. */
  predicate AtMostOneAt(list: seq<FunctionInfo>, server: ServerInfo)
  {
    forall i, j :: 0 <= i < j < |list| && ServesAt(server, list[i]) ==> !ServesAt(server, list[j])
  }

  /** When no list holds two bindings at the removed location, none is left there. */
  lemma RemoveClearsSingleBindings(reg: Registry, fd: int)
    requires fd in reg.sockets
    requires forall key :: key in reg.functionMap ==> AtMostOneAt(reg.functionMap[key], reg.sockets[fd])
    ensures var r := RemoveServer(reg, fd);
      forall key, i :: key in r.functionMap && 0 <= i < |r.functionMap[key]| ==> !ServesAt(reg.sockets[fd], r.functionMap[key][i])
  {
    var server := reg.sockets[fd];
    var r := RemoveServer(reg, fd);
    forall key, i | key in r.functionMap && 0 <= i < |r.functionMap[key]|
      ensures !ServesAt(server, r.functionMap[key][i])
    {
      var list := reg.functionMap[key];
      var at := FirstServing(list, server);
      if at >= 0 && i >= at {
        assert r.functionMap[key][i] == list[i + 1];
      } else {
        assert r.functionMap[key][i] == list[i];
      }
    }
  }

  const InIntScalar: Int32 := -0x7FFD_0000     // ARG_INPUT | ARG_INT << 16
  const OutIntScalar: Int32 := 0x4003_0000     // ARG_OUTPUT | ARG_INT << 16

  /** Two bindings of one server under one key that differ only in their flags are not `==`, so both are
      kept; server_remove then drops only the first, and the second stays listed at the gone location. */
  lemma RemoveLeavesSecondBinding()
    ensures var s := ServerInfo([104], 1);
      var f1 := FunctionInfo([104], 1, RpcIdent([102, 0], [InIntScalar, 0]));
      var f2 := FunctionInfo([104], 1, RpcIdent([102, 0], [OutIntScalar, 0]));
      var m1 := MapAfterAdd(map[], f1);
      KeyOf(f2.rpc) == KeyOf(f1.rpc) &&
      AddCode(Bindings(m1, KeyOf(f2.rpc)), f2) == SUCCESS &&
      var reg := Registry(MapAfterAdd(m1, f2), [s], map[7 := s]);
      RegistryValid(reg) && reg.functionMap[KeyOf(f1.rpc)] == [f1, f2] &&
      RemoveServer(reg, 7).functionMap[KeyOf(f1.rpc)] == [f2] && ServesAt(s, f2)
  {
    var s := ServerInfo([104], 1);
    var f1 := FunctionInfo([104], 1, RpcIdent([102, 0], [InIntScalar, 0]));
    var f2 := FunctionInfo([104], 1, RpcIdent([102, 0], [OutIntScalar, 0]));
    FlagVariantsBothKept();
    assert FirstServing([f1, f2], s) == 0;
  }

  /** The two bindings of RemoveLeavesSecondBinding share a key, and adding the second keeps the first. */
  lemma FlagVariantsBothKept()
    ensures var s := ServerInfo([104], 1);
      var f1 := FunctionInfo([104], 1, RpcIdent([102, 0], [InIntScalar, 0]));
      var f2 := FunctionInfo([104], 1, RpcIdent([102, 0], [OutIntScalar, 0]));
      var m1 := MapAfterAdd(map[], f1);
      KeyOf(f2.rpc) == KeyOf(f1.rpc) &&
      AddCode(Bindings(m1, KeyOf(f2.rpc)), f2) == SUCCESS &&
      var reg := Registry(MapAfterAdd(m1, f2), [s], map[7 := s]);
      RegistryValid(reg) && reg.functionMap[KeyOf(f1.rpc)] == [f1, f2]
  {
    var s := ServerInfo([104], 1);
    var f1 := FunctionInfo([104], 1, RpcIdent([102, 0], [InIntScalar, 0]));
    var f2 := FunctionInfo([104], 1, RpcIdent([102, 0], [OutIntScalar, 0]));
    assert f1.rpc.Length() == 2 && f2.rpc.Length() == 2;
    assert KeyOf(f2.rpc) == KeyOf(f1.rpc);
    var m1 := MapAfterAdd(map[], f1);
    assert m1[KeyOf(f1.rpc)] == [f1];
    assert !FunctionInfoEq(f1, f2);
    assert FirstEqual([f1], f2) == -1;
    var reg := Registry(MapAfterAdd(m1, f2), [s], map[7 := s]);
    assert reg.functionMap[KeyOf(f1.rpc)] == [f1, f2];
    assert RegistryValid(reg) by {
      var reg0 := Registry(map[], [s], map[7 := s]);
      assert RegistryValid(reg0);
      MapAfterAddKeepsValid(reg0, f1);
      MapAfterAddKeepsValid(reg0.(functionMap := m1), f2);
    }
  }

  // ---------------------------------------------------------------- request payloads as the handlers read them

  /** What handleRegisterRequest reads: host, port, name, then a counted word list. */
  datatype RegisterRequest = RegisterRequest(host: seq<Byte>, port: UInt16, name: seq<Byte>, argTypes: seq<Int32>)

  /** The register read sequence over a payload; None when a read leaves the vector. */
  function RegisterAt(bs: seq<Byte>): (r: Option<RegisterRequest>)
  {
    match StringAt(bs, 0)
    case OutOfRange(_) => None
    case Got(host, p1) =>
      match UInt16At(bs, p1)
      case OutOfRange(_) => None
      case Got(port, p2) =>
        match StringAt(bs, p2)
        case OutOfRange(_) => None
        case Got(name, p3) =>
          match UInt32At(bs, p3)
          case OutOfRange(_) => None
          case Got(count, p4) =>
            match Int32sAt(bs, p4, count)
            case OutOfRange(_) => None
            case Got(words, _) => Some(RegisterRequest(host, port, name, words))
  }

  /** The location and cache request read sequence: name, then a counted word list. */
  function NameTypesAt(bs: seq<Byte>): (r: Option<(seq<Byte>, seq<Int32>)>)
  {
    match StringAt(bs, 0)
    case OutOfRange(_) => None
    case Got(name, p1) =>
      match UInt32At(bs, p1)
      case OutOfRange(_) => None
      case Got(count, p2) =>
        match Int32sAt(bs, p2, count)
        case OutOfRange(_) => None
        case Got(words, _) => Some((name, words))
  }

  /** The binder reads a sendRegister payload back as the server wrote it, with a NUL after each string. */
  lemma RegisterRoundTrip(host: seq<Byte>, port: UInt16, name: seq<Byte>, argTypes: seq<Int32>)
    requires WireString(host) && WireString(name) && TypeList(argTypes)
    ensures RegisterAt(RegisterPayload(host, port, name, argTypes)) ==
      Some(RegisterRequest(host + [0], port, name + [0], argTypes[..TypesLength(argTypes)]))
  {
    RegisterImageReads(host, port, name, TypesLength(argTypes), argTypes[..TypesLength(argTypes)]);
  }

  lemma RegisterImageReads(host: seq<Byte>, port: UInt16, name: seq<Byte>, count: UInt32, words: seq<Int32>)
    requires WireString(host) && WireString(name) && |words| == count
    ensures RegisterAt(StringImage(host) + Int16Bytes(PortAsShort(port)) + StringImage(name) + UInt32Bytes(count) + Int32sImage(words)) ==
      Some(RegisterRequest(host + [0], port, name + [0], words))
  {
    var a, b, c, d, e := StringImage(host), Int16Bytes(PortAsShort(port)), StringImage(name), UInt32Bytes(count), Int32sImage(words);
    ReadsHost(a, b, c, d, e, host);
    ReadsPort(a, b, c, d, e, port);
    ReadsName(a, b, c, d, e, name);
    ReadsCount(a, b, c, d, e, count);
    ReadsWords(a, b, c, d, e, words);
    RegisterReads(a + b + c + d + e, host + [0], port, name + [0], count, words,
      |a|, |a + b|, |a + b + c|, |a + b + c + d|, |a + b + c + d + e|);
  }

  // One lemma per field of a register payload, each read at the length of what precedes it.

  lemma ReadsHost(a: seq<Byte>, b: seq<Byte>, c: seq<Byte>, d: seq<Byte>, e: seq<Byte>, host: seq<Byte>)
    requires WireString(host) && a == StringImage(host)
    ensures StringAt(a + b + c + d + e, 0) == Got(host + [0], |a|)
  {
    assert a + b + c + d + e == [] + a + (b + c + d + e);
    StringReadsBack([], host, b + c + d + e);
  }

  lemma ReadsPort(a: seq<Byte>, b: seq<Byte>, c: seq<Byte>, d: seq<Byte>, e: seq<Byte>, port: UInt16)
    requires b == Int16Bytes(PortAsShort(port))
    ensures UInt16At(a + b + c + d + e, |a|) == Got(port, |a + b|)
  {
    assert a + b + c + d + e == a + b + (c + d + e);
    PortAt(a, port, c + d + e);
  }

  lemma ReadsName(a: seq<Byte>, b: seq<Byte>, c: seq<Byte>, d: seq<Byte>, e: seq<Byte>, name: seq<Byte>)
    requires WireString(name) && c == StringImage(name)
    ensures StringAt(a + b + c + d + e, |a + b|) == Got(name + [0], |a + b + c|)
  {
    assert a + b + c + d + e == (a + b) + c + (d + e);
    StringReadsBack(a + b, name, d + e);
  }

  lemma ReadsCount(a: seq<Byte>, b: seq<Byte>, c: seq<Byte>, d: seq<Byte>, e: seq<Byte>, count: UInt32)
    requires d == UInt32Bytes(count)
    ensures UInt32At(a + b + c + d + e, |a + b + c|) == Got(count, |a + b + c + d|)
  {
    CountAt(a + b + c, count, e);
  }

  lemma ReadsWords(a: seq<Byte>, b: seq<Byte>, c: seq<Byte>, d: seq<Byte>, e: seq<Byte>, words: seq<Int32>)
    requires e == Int32sImage(words)
    ensures Int32sAt(a + b + c + d + e, |a + b + c + d|, |words|) == Got(words, |a + b + c + d + e|)
  {
    MidWords(a + b + c + d, words);
  }

  lemma MidWords(prefix: seq<Byte>, words: seq<Int32>)
    ensures Int32sAt(prefix + Int32sImage(words), |prefix|, |words|) == Got(words, |prefix + Int32sImage(words)|)
  {
    assert prefix + Int32sImage(words) == prefix + Int32sImage(words) + [];
    Int32sReadBack(prefix, words, []);
  }

  lemma CountAt(prefix: seq<Byte>, count: UInt32, rest: seq<Byte>)
    ensures UInt32At(prefix + UInt32Bytes(count) + rest, |prefix|) == Got(count, |prefix| + 4)
  {
    IntsReadBack(prefix, rest, 0, 0, 0, 0, count, 0);
  }

  /** Five successful reads in a row make a register request. */
  lemma RegisterReads(bs: seq<Byte>, host: seq<Byte>, port: UInt16, name: seq<Byte>, count: UInt32, words: seq<Int32>,
                      p1: int, p2: int, p3: int, p4: int, p5: int)
    requires StringAt(bs, 0) == Got(host, p1) && UInt16At(bs, p1) == Got(port, p2)
    requires StringAt(bs, p2) == Got(name, p3) && UInt32At(bs, p3) == Got(count, p4)
    requires Int32sAt(bs, p4, count) == Got(words, p5)
    ensures RegisterAt(bs) == Some(RegisterRequest(host, port, name, words))
  {
  }

  /** The binder reads a location or cache request payload back as the client wrote it. */
  lemma NameTypesRoundTrip(name: seq<Byte>, argTypes: seq<Int32>)
    requires WireString(name) && TypeList(argTypes)
    ensures NameTypesAt(LocationRequestPayload(name, argTypes)) == Some((name + [0], argTypes[..TypesLength(argTypes)]))
  {
    var count := TypesLength(argTypes);
    var words := argTypes[..count];
    var a, d, e := StringImage(name), UInt32Bytes(count), Int32sImage(words);
    ReadsOfThree(a, d, e, name, count, words);
  }

  lemma ReadsOfThree(a: seq<Byte>, d: seq<Byte>, e: seq<Byte>, name: seq<Byte>, count: UInt32, words: seq<Int32>)
    requires WireString(name) && |words| == count
    requires a == StringImage(name) && d == UInt32Bytes(count) && e == Int32sImage(words)
    ensures NameTypesAt(a + d + e) == Some((name + [0], words))
  {
    var bs := a + d + e;
    assert bs == [] + a + (d + e);
    StringReadsBack([], name, d + e);
    CountAt(a, count, e);
    MidWords(a + d, words);
  }

  /** The identity a server registers and the one the binder files it under fall in the same map entry. */
  lemma RegisteredUnderClientKey(host: seq<Byte>, port: UInt16, name: seq<Byte>, argTypes: seq<Int32>)
    requires WireString(host) && WireString(name) && TypeList(argTypes) && 0 !in name
    ensures RegisterAt(RegisterPayload(host, port, name, argTypes)).Some?
    ensures var req := RegisterAt(RegisterPayload(host, port, name, argTypes)).value;
      0 in req.argTypes && KeyOf(RpcIdent(req.name, req.argTypes)) == KeyOf(RpcIdent(name, argTypes))
  {
    RegisterRoundTrip(host, port, name, argTypes);
    var words := argTypes[..TypesLength(argTypes)];
    assert words[|words| - 1] == 0;
    WireNameSameKey(name, words);
    TypesLengthUnique(words, |words|);
  }

  method ReadRegisterRequest(stream: BinaryStream) returns (r: Option<RegisterRequest>)
    requires stream.position == 0
    modifies stream
    ensures stream.bytes == old(stream.bytes) && r == RegisterAt(stream.bytes)
  {
    var host := stream.ReadString();
    if host == None { return None; }
    var port := stream.ReadUInt16();
    if port == None { return None; }
    var name := stream.ReadString();
    if name == None { return None; }
    var count := stream.ReadUInt32();
    if count == None { return None; }
    var argTypes := new Int32[count.value];
    var ok := stream.ReadInt32s(argTypes, count.value);
    if !ok { return None; }
    assert argTypes[..] == argTypes[..count.value];
    return Some(RegisterRequest(host.value, port.value, name.value, argTypes[..]));
  }

  method ReadNameTypes(stream: BinaryStream) returns (r: Option<(seq<Byte>, seq<Int32>)>)
    requires stream.position == 0
    modifies stream
    ensures stream.bytes == old(stream.bytes) && r == NameTypesAt(stream.bytes)
  {
    var name := stream.ReadString();
    if name == None { return None; }
    var count := stream.ReadUInt32();
    if count == None { return None; }
    var argTypes := new Int32[count.value];
    var ok := stream.ReadInt32s(argTypes, count.value);
    if !ok { return None; }
    assert argTypes[..] == argTypes[..count.value];
    return Some((name.value, argTypes[..]));
  }

  // ---------------------------------------------------------------- the handlers on values

  /** What a handler does with a request: answers with one frame, or stops first.
      Aborted: a read left the message (std::out_of_range, which nothing catches, ends the binder).
      Unterminated: the word list read has no 0 and the source reads past its end: function_add copies it
      whatever is filed; a lookup does so only when a key of the same C-string name is filed to compare it with.
      Oversized: the answer would not fit the int32 counts of the stream writer. */
  datatype Reply = Send(frame: seq<Byte>) | Aborted | Unterminated | Oversized

  /** handleRegisterRequest: read the request, server_register, then function_add, whose code is the answer. */
  function RegisterHandled(reg: Registry, bs: seq<Byte>, fd: int): (r: (Registry, Reply))
    requires RegistryValid(reg)
    ensures RegisterAt(bs).None? ==> r == (reg, Aborted)
    ensures RegisterAt(bs).Some? ==> ServerInfo(RegisterAt(bs).value.host, RegisterAt(bs).value.port) in r.0.queue
    ensures reg.queue <= r.0.queue && r.0.functionMap.Keys >= reg.functionMap.Keys
  {
    match RegisterAt(bs)
    case None => (reg, Aborted)
    case Some(req) =>
      var reg1 := RegisterServer(reg, ServerInfo(req.host, req.port), fd);
      if 0 !in req.argTypes then (reg1, Unterminated)
      else
        var f := NewBinding(req.name, req.argTypes, req.host, req.port);
        (reg1.(functionMap := MapAfterAdd(reg1.functionMap, f)),
         Send(FrameOf(REGISTER_SUCCESS, CodePayload(AddCode(Bindings(reg1.functionMap, KeyOf(f.rpc)), f)))))
  }

  /** handleLocationRequest: read the request, then the round-robin pick, which also rotates the queue. */
  function LocationHandled(reg: Registry, bs: seq<Byte>): (r: (Registry, Reply))
    ensures r.0 == reg.(queue := r.0.queue) && multiset(r.0.queue) == multiset(reg.queue)
    ensures r.1.Aborted? <==> NameTypesAt(bs).None?
    ensures r.1.Unterminated? <==>
      NameTypesAt(bs).Some? && 0 !in NameTypesAt(bs).value.1 && NameFiled(reg.functionMap.Keys, NameTypesAt(bs).value.0)
  {
    match NameTypesAt(bs)
    case None => (reg, Aborted)
    case Some((name, words)) =>
      if 0 !in words then
        if NameFiled(reg.functionMap.Keys, name) then (reg, Unterminated)
        else (reg, Send(FrameOf(LOC_FAILURE, CodePayload(FUNCTION_NOT_AVAILABLE))))
      else
        var pick := Pick(reg.queue, reg.functionMap, KeyOf(RpcIdent(name, words)));
        var reg1 := reg.(queue := pick.1);
        match pick.0
        case None => (reg1, Send(FrameOf(LOC_FAILURE, CodePayload(FUNCTION_NOT_AVAILABLE))))
        case Some(server) =>
          if |server.host| >= TWO31 - 8 then (reg1, Oversized)
          else (reg1, Send(FrameOf(LOC_SUCCESS, LocationResponsePayload(server.host, server.port))))
  }

  /** handleLocationCacheRequest: every binding filed under the key, or FUNCTION_NOT_AVAILABLE when there is none. */
  function CacheHandled(reg: Registry, bs: seq<Byte>): (r: Reply)
    ensures r.Aborted? <==> NameTypesAt(bs).None?
    ensures r.Unterminated? <==>
      NameTypesAt(bs).Some? && 0 !in NameTypesAt(bs).value.1 && NameFiled(reg.functionMap.Keys, NameTypesAt(bs).value.0)
  {
    match NameTypesAt(bs)
    case None => Aborted
    case Some((name, words)) =>
      if 0 !in words then
        if NameFiled(reg.functionMap.Keys, name) then Unterminated
        else Send(FrameOf(LOC_CACHE_FAILURE, CodePayload(FUNCTION_NOT_AVAILABLE)))
      else
        var list := Bindings(reg.functionMap, KeyOf(RpcIdent(name, words)));
        if |list| == 0 then Send(FrameOf(LOC_CACHE_FAILURE, CodePayload(FUNCTION_NOT_AVAILABLE)))
        else if !WireServices(list) || |CacheResponsePayload(list)| >= TWO31 then Oversized
        else Send(FrameOf(LOC_CACHE_SUCCESS, CacheResponsePayload(list)))
  }

  /** Neither registry-changing handler breaks the registry invariant. */
  lemma RegisterKeepsValid(reg: Registry, bs: seq<Byte>, fd: int)
    requires RegistryValid(reg)
    ensures RegistryValid(RegisterHandled(reg, bs, fd).0)
  {
    match RegisterAt(bs)
    case None =>
    case Some(req) =>
      var server := ServerInfo(req.host, req.port);
      RegisterServerMeans(reg, server, fd);
      if 0 in req.argTypes {
        MapAfterAddKeepsValid(RegisterServer(reg, server, fd), NewBinding(req.name, req.argTypes, req.host, req.port));
      }
  }

  lemma LocationKeepsValid(reg: Registry, bs: seq<Byte>)
    requires RegistryValid(reg)
    ensures RegistryValid(LocationHandled(reg, bs).0)
  {
    match NameTypesAt(bs)
    case None =>
    case Some((name, words)) =>
      if 0 in words {
        var pick := Pick(reg.queue, reg.functionMap, KeyOf(RpcIdent(name, words)));
        ReorderKeepsValid(reg, pick.1);
      }
  }

  /** Any reordering of the queue keeps the invariant. */
  lemma ReorderKeepsValid(reg: Registry, queue: seq<ServerInfo>)
    requires RegistryValid(reg) && multiset(queue) == multiset(reg.queue)
    ensures RegistryValid(reg.(queue := queue))
  {
    SameMultisetNoDuplicates(reg.queue, queue);
    forall fd | fd in reg.sockets
      ensures reg.sockets[fd] in queue
    {
      assert reg.sockets[fd] in multiset(reg.queue);
    }
  }

  lemma SameMultisetNoDuplicates<T>(a: seq<T>, b: seq<T>)
    requires NoDuplicates(a) && multiset(a) == multiset(b)
    ensures NoDuplicates(b)
  {
    forall i, j | 0 <= i < j < |b|
      ensures b[i] != b[j]
    {
      if b[i] == b[j] {
        var x := b[i];
        assert multiset(b)[x] >= 2 by {
          assert b == b[..i] + [x] + b[i + 1..j] + [x] + b[j + 1..];
        }
        CountOneInDistinct(a, x);
      }
    }
  }

  lemma {:induction false} CountOneInDistinct<T>(s: seq<T>, x: T)
    requires NoDuplicates(s)
    ensures multiset(s)[x] <= 1
  {
    if s != [] {
      assert s == [s[0]] + s[1..];
      assert NoDuplicates(s[1..]);
      CountOneInDistinct(s[1..], x);
      if s[0] == x {
        assert x !in s[1..];
      }
    }
  }

  /** The binder never answers a register request with REGISTER_FAILURE: a read failure ends it instead,
      and otherwise the answer carries SUCCESS or FUNCTION_OVERRIDDEN. */
  lemma RegisterReplyCodes(reg: Registry, bs: seq<Byte>, fd: int)
    requires RegistryValid(reg)
    ensures var reply := RegisterHandled(reg, bs, fd).1;
      (reply.Aborted? <==> RegisterAt(bs).None?) && !reply.Oversized? &&
      (reply.Send? ==> reply.frame == FrameOf(REGISTER_SUCCESS, CodePayload(SUCCESS)) ||
                       reply.frame == FrameOf(REGISTER_SUCCESS, CodePayload(FUNCTION_OVERRIDDEN)))
  {
    match RegisterAt(bs)
    case None =>
    case Some(req) =>
      if 0 in req.argTypes {
        var reg1 := RegisterServer(reg, ServerInfo(req.host, req.port), fd);
        var f := NewBinding(req.name, req.argTypes, req.host, req.port);
        AddMeans(Bindings(reg1.functionMap, KeyOf(f.rpc)), f);
      }
  }

  /** A location request is answered FUNCTION_NOT_AVAILABLE exactly when no queued server has a binding under
      its key, an identity without its 0 having no key; the answer is left undefined only when such an
      identity meets a filed name. Either way the queue keeps its entries. */
  lemma LocationReplyMeans(reg: Registry, bs: seq<Byte>, name: seq<Byte>, words: seq<Int32>)
    requires NameTypesAt(bs) == Some((name, words))
    ensures var r := LocationHandled(reg, bs);
      multiset(r.0.queue) == multiset(reg.queue) &&
      (r.1.Unterminated? || r.1.Send? || r.1.Oversized?) &&
      (!r.1.Unterminated? ==>
        (r.1 == Send(FrameOf(LOC_FAILURE, CodePayload(FUNCTION_NOT_AVAILABLE))) <==>
          0 !in words ||
          var key := KeyOf(RpcIdent(name, words));
          key !in reg.functionMap || forall i :: 0 <= i < |reg.queue| ==> FirstServing(reg.functionMap[key], reg.queue[i]) < 0))
  {
    if 0 in words {
      var pick := Pick(reg.queue, reg.functionMap, KeyOf(RpcIdent(name, words)));
      if pick.0.Some? && |pick.0.value.host| < TWO31 - 8 {
        var server := pick.0.value;
        FrameLayout(LOC_FAILURE, CodePayload(FUNCTION_NOT_AVAILABLE));
        FrameLayout(LOC_SUCCESS, LocationResponsePayload(server.host, server.port));
      }
    }
  }

  /** A cache request is answered FUNCTION_NOT_AVAILABLE exactly when nothing is filed under its key, an
      identity without its 0 having no key; otherwise the answer lists every binding filed there, in filing
      order. The answer is left undefined only when an identity without its 0 meets a filed name. */
  lemma CacheReplyMeans(reg: Registry, bs: seq<Byte>, name: seq<Byte>, words: seq<Int32>)
    requires NameTypesAt(bs) == Some((name, words))
    ensures var list := if 0 in words then Bindings(reg.functionMap, KeyOf(RpcIdent(name, words))) else [];
      var r := CacheHandled(reg, bs);
      (r.Unterminated? || r.Send? || r.Oversized?) &&
      (!r.Unterminated? ==>
        (r == Send(FrameOf(LOC_CACHE_FAILURE, CodePayload(FUNCTION_NOT_AVAILABLE))) <==> |list| == 0) &&
        (r.Send? && |list| > 0 ==> r.frame == FrameOf(LOC_CACHE_SUCCESS, CacheResponsePayload(list))))
  {
    if 0 in words {
      var list := Bindings(reg.functionMap, KeyOf(RpcIdent(name, words)));
      if |list| > 0 && WireServices(list) && |CacheResponsePayload(list)| < TWO31 {
        FrameLayout(LOC_CACHE_FAILURE, CodePayload(FUNCTION_NOT_AVAILABLE));
        FrameLayout(LOC_CACHE_SUCCESS, CacheResponsePayload(list));
      }
    }
  }

  /** A registration is found by the next location request for the same identity: after the binder reads
      the register payload a server sent, a location request a client sends for that identity finds a server. */
  lemma RegisterThenLocate(reg: Registry, fd: int, host: seq<Byte>, port: UInt16, name: seq<Byte>, argTypes: seq<Int32>)
    requires RegistryValid(reg)
    requires WireString(host) && WireString(name) && TypeList(argTypes)
    ensures var reg1 := RegisterHandled(reg, RegisterPayload(host, port, name, argTypes), fd).0;
      var reply := LocationHandled(reg1, LocationRequestPayload(name, argTypes)).1;
      (reply.Send? && reply != Send(FrameOf(LOC_FAILURE, CodePayload(FUNCTION_NOT_AVAILABLE)))) || reply.Oversized?
  {
    var words := argTypes[..TypesLength(argTypes)];
    RegisterRoundTrip(host, port, name, argTypes);
    NameTypesRoundTrip(name, argTypes);
    var req := RegisterRequest(host + [0], port, name + [0], words);
    assert 0 in words by { assert words[|words| - 1] == 0; }
    var reg1 := RegisterHandled(reg, RegisterPayload(host, port, name, argTypes), fd).0;
    RegisterFilesBinding(reg, RegisterPayload(host, port, name, argTypes), fd, req);
    var key := KeyOf(RpcIdent(name + [0], words));
    var server := ServerInfo(host + [0], port);
    var i :| 0 <= i < |reg1.queue| && reg1.queue[i] == server;
    assert FirstServing(reg1.functionMap[key], reg1.queue[i]) >= 0;
    LocationReplyMeans(reg1, LocationRequestPayload(name, argTypes), name + [0], words);
  }

  /** After a register request is handled, its location is queued and has a binding under its identity's key. */
  lemma RegisterFilesBinding(reg: Registry, bs: seq<Byte>, fd: int, req: RegisterRequest)
    requires RegistryValid(reg) && RegisterAt(bs) == Some(req) && 0 in req.argTypes
    ensures var reg1 := RegisterHandled(reg, bs, fd).0;
      var key := KeyOf(RpcIdent(req.name, req.argTypes));
      var server := ServerInfo(req.host, req.port);
      server in reg1.queue && key in reg1.functionMap && FirstServing(reg1.functionMap[key], server) >= 0
  {
    var server := ServerInfo(req.host, req.port);
    var reg0 := RegisterServer(reg, server, fd);
    var f := NewBinding(req.name, req.argTypes, req.host, req.port);
    var key := KeyOf(f.rpc);
    RegisterServerMeans(reg, server, fd);
    assert AllValid(Bindings(reg0.functionMap, key)) by {
      assert key in reg0.functionMap ==> FiledUnder(reg0.functionMap[key], key);
    }
    AddMeans(Bindings(reg0.functionMap, key), f);
    var reg1 := reg0.(functionMap := MapAfterAdd(reg0.functionMap, f));
    assert RegisterHandled(reg, bs, fd).0 == reg1;
    var list := ListAfterAdd(Bindings(reg0.functionMap, key), f);
    assert reg1.functionMap[key] == list;
    assert ServesAt(server, list[|list| - 1]);
  }

  /** Round robin: once a server was picked it moves behind every other queued server, so when another
      queued server also serves the key, the next pick is a different server. */
  lemma PickAlternates(queue: seq<ServerInfo>, functionMap: map<Key, seq<FunctionInfo>>, key: Key, other: ServerInfo)
    requires NoDuplicates(queue) && other in queue && key in functionMap && FirstServing(functionMap[key], other) >= 0
    requires Pick(queue, functionMap, key).0 != Some(other)
    ensures var first := Pick(queue, functionMap, key);
      var second := Pick(first.1, functionMap, key);
      first.0.Some? && second.0.Some? && second.0 != first.0
  {
    var first := Pick(queue, functionMap, key);
    var q := first.1;
    SameMultisetNoDuplicates(queue, q);
    assert other in multiset(queue);
    var k :| 0 <= k < |q| && q[k] == other;
    assert k != |q| - 1;
    var m := FirstSupported(q, functionMap[key]);
    assert m != |q| - 1;
  }

  // ---------------------------------------------------------------- one request on one connection

  /** The whole binder state: the registry, and per connection the pending payload size and recorded type. */
  datatype BinderState = BinderState(reg: Registry, blocks: map<int, UInt32>, info: map<int, Int32>, running: bool)

  /** m_messageBlocks[fd], which reads 0 for a connection not seen yet. */
  function Pending(blocks: map<int, UInt32>, fd: int): (n: UInt32)
    ensures fd !in blocks ==> n == 0
  {
    if fd in blocks then blocks[fd] else 0
  }

  /** m_messageInfo[fd], which reads FAILURE for a connection not seen yet. */
  function Recorded(info: map<int, Int32>, fd: int): (t: Int32)
    ensures fd !in info ==> t == FAILURE
  {
    if fd in info then info[fd] else FAILURE
  }

  /** server_remove with its bookkeeping: a registered connection's pending size and type are wiped. */
  function RemoveState(s: BinderState, fd: int): (t: BinderState)
  {
    if fd in s.reg.sockets then
      BinderState(RemoveServer(s.reg, fd), s.blocks[fd := 0], s.info[fd := FAILURE], s.running)
    else s
  }

  /** handleServerClose: nothing pending on the connection, and its server removed. */
  function Close(s: BinderState, fd: int): (t: BinderState)
  {
    RemoveState(s.(blocks := s.blocks[fd := 0]), fd)
  }

  lemma CloseMeans(s: BinderState, fd: int)
    requires RegistryValid(s.reg)
    ensures var t := Close(s, fd);
      RegistryValid(t.reg) && Pending(t.blocks, fd) == 0 && fd !in t.reg.sockets && t.running == s.running &&
      (fd in s.reg.sockets ==> Recorded(t.info, fd) == FAILURE) &&
      (forall other :: other != fd ==> Pending(t.blocks, other) == Pending(s.blocks, other) && Recorded(t.info, other) == Recorded(s.info, other))
  {
    RemoveServerMeans(s.reg, fd);
  }

  /** What one handleRequest call does. */
  datatype RequestOutcome =
    | Closed(status: int)                             // a receive failed; the connection is closed
    | Announced(size: UInt32, messageType: Int32)     // a header was read; the payload comes next
    | Dispatched(messageType: Int32, reply: Reply)    // a payload was handled
    | Terminating(notify: set<int>)                   // TERMINATE: the sockets told to shut down
    | Ignored(messageType: Int32)                     // a payload of a type the binder does not handle

  /** handleTerminateRequest up to its poll loop: no longer running, every registered socket notified. */
  function Terminate(s: BinderState): (r: (BinderState, RequestOutcome))
  {
    (s.(running := false), Terminating(s.reg.sockets.Keys))
  }

  /** The switch of handleRequest over a received payload. */
  function Dispatch(s: BinderState, fd: int, messageType: Int32, bs: seq<Byte>): (r: (BinderState, RequestOutcome))
    requires RegistryValid(s.reg)
  {
    if messageType == REGISTER then
      var h := RegisterHandled(s.reg, bs, fd);
      (s.(reg := h.0), Dispatched(messageType, h.1))
    else if messageType == LOC_REQUEST then
      var h := LocationHandled(s.reg, bs);
      (s.(reg := h.0), Dispatched(messageType, h.1))
    else if messageType == LOC_CACHE_REQUEST then
      (s, Dispatched(messageType, CacheHandled(s.reg, bs)))
    else if messageType == TERMINATE then
      Terminate(s)
    else
      (s, Ignored(messageType))
  }

  /** What the sockets of one handleRequest call need to deliver: the payload when one is pending,
      otherwise four bytes for the size and four for the type. */
  predicate Offers(blocks: map<int, UInt32>, fd: int, first: Incoming, second: Incoming)
  {
    if Pending(blocks, fd) != 0 then Pending(blocks, fd) <= |first.peer|
    else 4 <= |first.peer| && 4 <= |second.peer|
  }

  /** handleRequest: with a payload pending, receive and dispatch it; otherwise receive a header. */
  function RequestStep(s: BinderState, fd: int, first: Incoming, second: Incoming): (r: (BinderState, RequestOutcome))
    requires RegistryValid(s.reg) && Offers(s.blocks, fd, first, second)
  {
    if Pending(s.blocks, fd) != 0 then PayloadStep(s, fd, first) else HeaderStep(s, fd, first, second)
  }

  /** The pending payload received, then dispatched on the type its header recorded, through
      BinaryStream(buffer, size): from 2^31 on the size reads as negative and the handler gets an empty stream. */
  function PayloadStep(s: BinderState, fd: int, first: Incoming): (r: (BinderState, RequestOutcome))
    requires RegistryValid(s.reg) && Pending(s.blocks, fd) <= |first.peer|
  {
    var size := Pending(s.blocks, fd);
    var got := RecvSteps(first.recv, 0, size);
    if got.0 != SUCCESS then (Close(s, fd), Closed(got.0))
    else
      var messageType := Recorded(s.info, fd);
      Dispatch(s.(blocks := s.blocks[fd := 0], info := s.info[fd := messageType]), fd, messageType, StreamOf(first.peer[..size]))
  }

  /** A header received: its size recorded as pending, then its type received (TypeStep). */
  function HeaderStep(s: BinderState, fd: int, first: Incoming, second: Incoming): (r: (BinderState, RequestOutcome))
    requires RegistryValid(s.reg) && 4 <= |first.peer| && 4 <= |second.peer|
  {
    var s0 := s.(blocks := s.blocks[fd := 0]);
    var sizeRead := RecvSteps(first.recv, 0, 4);
    if sizeRead.0 != SUCCESS then (Close(s0, fd), Closed(sizeRead.0))
    else
      var messageSize := ParseUInt32(first.peer);
      TypeStep(s0.(blocks := s0.blocks[fd := messageSize]), fd, messageSize, second)
  }

  /** The type of a header received and recorded, TERMINATE acted on at once. */
  function TypeStep(s: BinderState, fd: int, messageSize: UInt32, second: Incoming): (r: (BinderState, RequestOutcome))
    requires RegistryValid(s.reg) && 4 <= |second.peer|
  {
    var typeRead := RecvSteps(second.recv, 0, 4);
    if typeRead.0 != SUCCESS then (Close(s, fd), Closed(typeRead.0))
    else Typed(s, fd, messageSize, ParseInt32(second.peer))
  }

  /** The received type recorded for the socket; TERMINATE ends the loop, any other waits for its payload. */
  function Typed(s: BinderState, fd: int, messageSize: UInt32, messageType: Int32): (r: (BinderState, RequestOutcome))
  {
    var s1 := s.(info := s.info[fd := messageType]);
    if messageType == TERMINATE then Terminate(s1) else (s1, Announced(messageSize, messageType))
  }

  /** handleRequest keeps the registry invariant. */
  lemma RequestStepKeepsValid(s: BinderState, fd: int, first: Incoming, second: Incoming)
    requires RegistryValid(s.reg) && Offers(s.blocks, fd, first, second)
    ensures RegistryValid(RequestStep(s, fd, first, second).0.reg)
  {
    if Pending(s.blocks, fd) != 0 {
      PayloadKeepsValid(s, fd, first);
    } else {
      CloseMeans(s.(blocks := s.blocks[fd := 0]), fd);
      CloseMeans(s.(blocks := s.blocks[fd := ParseUInt32(first.peer)]), fd);
    }
  }

  lemma PayloadKeepsValid(s: BinderState, fd: int, first: Incoming)
    requires RegistryValid(s.reg) && Pending(s.blocks, fd) <= |first.peer|
    ensures RegistryValid(PayloadStep(s, fd, first).0.reg)
  {
    var size := Pending(s.blocks, fd);
    CloseMeans(s, fd);
    if RecvSteps(first.recv, 0, size).0 == SUCCESS {
      var bs := StreamOf(first.peer[..size]);
      RegisterKeepsValid(s.reg, bs, fd);
      LocationKeepsValid(s.reg, bs);
    }
  }

  /** A frame arrives in two calls. The first reads its header and records the size and type. */
  lemma FrameHeaderCall(s: BinderState, fd: int, messageType: Int32, payload: seq<Byte>, r1: nat -> int, r2: nat -> int)
    requires RegistryValid(s.reg) && Pending(s.blocks, fd) == 0 && |payload| < TWO31 && messageType != TERMINATE
    requires RecvSteps(r1, 0, 4).0 == SUCCESS && RecvSteps(r2, 0, 4).0 == SUCCESS
    ensures var frame := FrameOf(messageType, payload);
      RequestStep(s, fd, Incoming(r1, frame[..4]), Incoming(r2, frame[4..8])) ==
        (s.(blocks := s.blocks[fd := |payload|], info := s.info[fd := messageType]), Announced(|payload|, messageType))
  {
    var frame := FrameOf(messageType, payload);
    FrameLayout(messageType, payload);
    assert frame[..4][..4] == frame[..4];
    assert frame[4..8][..4] == frame[4..][..4];
    HeaderCall(s, fd, |payload|, messageType, Incoming(r1, frame[..4]), Incoming(r2, frame[4..8]));
  }

  /** The second call receives exactly the payload and hands it to the handler for the recorded type.
      An empty payload is never dispatched: with nothing pending the next call reads a new header. */
  lemma FramePayloadCall(s: BinderState, fd: int, messageType: Int32, payload: seq<Byte>, r3: nat -> int, second: Incoming)
    requires RegistryValid(s.reg) && |payload| < TWO31
    requires Pending(s.blocks, fd) == |payload| && fd in s.info && s.info[fd] == messageType
    requires RecvSteps(r3, 0, |payload|).0 == SUCCESS
    ensures var frame := FrameOf(messageType, payload);
      |payload| > 0 ==>
        Offers(s.blocks, fd, Incoming(r3, frame[8..]), second) &&
        RequestStep(s, fd, Incoming(r3, frame[8..]), second) ==
          Dispatch(s.(blocks := s.blocks[fd := 0]), fd, messageType, payload)
  {
    var frame := FrameOf(messageType, payload);
    FrameLayout(messageType, payload);
    if |payload| > 0 {
      assert frame[8..][..|payload|] == payload;
      PayloadCall(s, fd, Incoming(r3, frame[8..]), second);
      assert s.info[fd := Recorded(s.info, fd)] == s.info;
    }
  }

  /** A pending size of 2^31 or more is received whole and then read through an empty stream, so a
      register, location or cache request ends the binder at its first read, with the registry unchanged. */
  lemma OversizedPayloadCall(s: BinderState, fd: int, first: Incoming, second: Incoming)
    requires RegistryValid(s.reg) && TWO31 <= Pending(s.blocks, fd) <= |first.peer|
    requires RecvSteps(first.recv, 0, Pending(s.blocks, fd)).0 == SUCCESS
    ensures var messageType := Recorded(s.info, fd);
      var r := RequestStep(s, fd, first, second);
      messageType in {REGISTER, LOC_REQUEST, LOC_CACHE_REQUEST} ==>
        r.1 == Dispatched(messageType, Aborted) && r.0.reg == s.reg
  {
    PayloadCall(s, fd, first, second);
    assert StreamOf(first.peer[..Pending(s.blocks, fd)]) == [];
  }

  lemma HeaderCall(s: BinderState, fd: int, size: UInt32, messageType: Int32, first: Incoming, second: Incoming)
    requires RegistryValid(s.reg) && Pending(s.blocks, fd) == 0 && 4 <= |first.peer| && 4 <= |second.peer|
    requires RecvSteps(first.recv, 0, 4).0 == SUCCESS && RecvSteps(second.recv, 0, 4).0 == SUCCESS
    requires ParseUInt32(first.peer) == size && ParseInt32(second.peer) == messageType && messageType != TERMINATE
    ensures RequestStep(s, fd, first, second) ==
      (s.(blocks := s.blocks[fd := size], info := s.info[fd := messageType]), Announced(size, messageType))
  {
    assert s.blocks[fd := 0][fd := size] == s.blocks[fd := size];
  }

  lemma PayloadCall(s: BinderState, fd: int, first: Incoming, second: Incoming)
    requires RegistryValid(s.reg) && Pending(s.blocks, fd) != 0 && Pending(s.blocks, fd) <= |first.peer|
    requires RecvSteps(first.recv, 0, Pending(s.blocks, fd)).0 == SUCCESS
    ensures RequestStep(s, fd, first, second) ==
      Dispatch(s.(blocks := s.blocks[fd := 0], info := s.info[fd := Recorded(s.info, fd)]), fd, Recorded(s.info, fd),
               StreamOf(first.peer[..Pending(s.blocks, fd)]))
  {
  }

  /** The bytes each socket took during one handleRequest call: the reply on the request's own socket,
      or the terminate notice on every registered one. */
  function Wires(outcome: RequestOutcome, fd: int, send: nat -> int, sendTo: int -> (nat -> int)): (w: map<int, seq<Byte>>)
    ensures outcome.Terminating? ==> w.Keys == outcome.notify
    ensures outcome.Dispatched? && outcome.reply.Send? ==> w.Keys == {fd} && w[fd] <= outcome.reply.frame
    ensures !outcome.Terminating? && !(outcome.Dispatched? && outcome.reply.Send?) ==> w == map[]
  {
    match outcome
    case Dispatched(_, Send(frame)) => map[fd := Transmit(frame, send).1]
    case Terminating(notify) => NoticeWires(notify, sendTo)
    case _ => map[]
  }

  /** The bytes each notified socket took of its TERMINATE frame. */
  function NoticeWires(notify: set<int>, sendTo: int -> (nat -> int)): (w: map<int, seq<Byte>>)
    ensures w.Keys == notify
    ensures forall f :: f in w ==> w[f] <= FrameOf(TERMINATE, [])
  {
    map f | f in notify :: Transmit(FrameOf(TERMINATE, []), sendTo(f)).1
  }

  // ---------------------------------------------------------------- the binder's scans

  /** The server_info == function_info scan over one list. */
  method FindServing(list: seq<FunctionInfo>, server: ServerInfo) returns (at: int)
    ensures at == FirstServing(list, server)
  {
    at := 0;
    while at < |list|
      invariant 0 <= at <= |list|
      invariant forall j :: 0 <= j < at ==> !ServesAt(server, list[j])
    {
      if ServesAt(server, list[at]) {
        assert FirstServing(list, server) == at;
        return;
      }
      at := at + 1;
    }
    at := -1;
  }

  /** function_add on one list: an equal binding, if any, erased, and the new one appended. */
  method AddToList(list: seq<FunctionInfo>, f: FunctionInfo) returns (updated: seq<FunctionInfo>, result: Int32)
    requires AllValid(list) && f.rpc.Valid()
    ensures updated == ListAfterAdd(list, f) && result == AddCode(list, f)
  {
    var supported := list;
    var stale := FindEqual(list, f);
    result := SUCCESS;
    if stale >= 0 {
      supported := list[..stale] + list[stale + 1..];
      result := FUNCTION_OVERRIDDEN;
    }
    updated := supported + [f];
  }

  /** The function_info == scan of function_add. */
  method FindEqual(list: seq<FunctionInfo>, f: FunctionInfo) returns (at: int)
    requires AllValid(list) && f.rpc.Valid()
    ensures at == FirstEqual(list, f)
  {
    at := 0;
    while at < |list|
      invariant 0 <= at <= |list|
      invariant forall j :: 0 <= j < at ==> !FunctionInfoEq(list[j], f)
    {
      if FunctionInfoEq(list[at], f) {
        assert FirstEqual(list, f) == at;
        return;
      }
      at := at + 1;
    }
    at := -1;
  }

  /** server_remove's walk over the function map: in each list, the first binding at `server` erased. */
  method DropEverywhere(functionMap: map<Key, seq<FunctionInfo>>, server: ServerInfo) returns (m: map<Key, seq<FunctionInfo>>)
    ensures m == MapWithout(functionMap, server)
  {
    m := functionMap;
    var todo := functionMap.Keys;
    while todo != {}
      invariant todo <= functionMap.Keys && m.Keys == functionMap.Keys
      invariant forall k :: k in functionMap ==> m[k] == (if k in todo then functionMap[k] else DropServing(functionMap[k], server))
      decreases |todo|
    {
      var k :| k in todo;
      var list := DropFirstServing(m[k], server);
      m := m[k := list];
      todo := todo - {k};
    }
  }

  /** One list of server_remove's walk: its first binding at `server`, if any, erased. */
  method DropFirstServing(list: seq<FunctionInfo>, server: ServerInfo) returns (r: seq<FunctionInfo>)
    ensures r == DropServing(list, server)
  {
    r := list;
    var at := FindServing(list, server);
    if at >= 0 {
      r := list[..at] + list[at + 1..];
    }
  }

  /** The notice loop of handleTerminateRequest: a TERMINATE frame sent on each socket of the socket-server map. */
  method NotifyAll(sockets: map<int, ServerInfo>, sendTo: int -> (nat -> int)) returns (wires: map<int, seq<Byte>>)
    ensures wires == NoticeWires(sockets.Keys, sendTo)
  {
    wires := map[];
    var todo := sockets.Keys;
    while todo != {}
      invariant todo <= sockets.Keys
      invariant wires == NoticeWires(sockets.Keys - todo, sendTo)
      decreases |todo|
    {
      SomeSocket(todo);
      var fd :| fd in todo;
      var handler := new Protocol(fd);
      var status, wire := handler.SendTerminate(sendTo(fd));
      NoticeWiresStep(sockets.Keys - todo, fd, sendTo);
      assert sockets.Keys - todo + {fd} == sockets.Keys - (todo - {fd});
      wires := wires[fd := wire];
      todo := todo - {fd};
    }
    assert todo == {};
  }

  /** A nonempty set of sockets has a member to pick. */
  lemma SomeSocket(todo: set<int>)
    requires todo != {}
    ensures exists fd :: fd in todo
  {
    if forall fd :: fd !in todo {
      assert false;
    }
  }

  lemma NoticeWiresStep(done: set<int>, fd: int, sendTo: int -> (nat -> int))
    ensures NoticeWires(done, sendTo)[fd := Transmit(FrameOf(TERMINATE, []), sendTo(fd)).1] == NoticeWires(done + {fd}, sendTo)
  {
  }

  /** function_add's copy of the word list to the heap: the words up to and including the first 0. */
  method CopyArguments(argTypes: seq<Int32>) returns (arguments: seq<Int32>)
    requires 0 in argTypes
    ensures arguments == RpcIdent([], argTypes).argTypes[..RpcIdent([], argTypes).Length()]
    ensures |arguments| >= 1 && arguments[|arguments| - 1] == 0 && 0 !in arguments[..|arguments| - 1]
  {
    var length := GetArgTypesLength(argTypes);
    var copy := new Int32[length];
    for i := 0 to length
      invariant copy[..i] == argTypes[..i]
    {
      copy[i] := argTypes[i];
    }
    copy[length - 1] := 0;
    arguments := copy[..];
  }

  /** The loop of getPriorityServer: from the front, each scanned server is moved to the tail, until one
      has a binding under the key. */
  method PriorityScan(queue: seq<ServerInfo>, functionMap: map<Key, seq<FunctionInfo>>, key: Key)
    returns (server: Option<ServerInfo>, rotated: seq<ServerInfo>)
    ensures (server, rotated) == Pick(queue, functionMap, key)
  {
    if key !in functionMap {
      return None, queue;
    }
    var supported := functionMap[key];
    var q := queue;
    var i := 0;
    while i < |q|
      invariant 0 <= i <= |queue| && q == Rotate(queue, i)
      invariant forall m :: 0 <= m < i ==> FirstServing(supported, queue[m]) < 0
    {
      var front := q[0];
      RotateStep(queue, i);
      var at := FindServing(supported, front);
      q := q[1..] + [q[0]];
      if at >= 0 {
        PickFound(queue, functionMap, key, i);
        return Some(front), q;
      }
      i := i + 1;
    }
    RotateProperties(queue, i);
    PickNone(queue, functionMap, key);
    return None, q;
  }

  /** The scan of getPriorityServer stopping at entry i. */
  lemma PickFound(queue: seq<ServerInfo>, functionMap: map<Key, seq<FunctionInfo>>, key: Key, i: nat)
    requires key in functionMap && i < |queue| && FirstServing(functionMap[key], queue[i]) >= 0
    requires forall m :: 0 <= m < i ==> FirstServing(functionMap[key], queue[m]) < 0
    ensures Pick(queue, functionMap, key) == (Some(queue[i]), Rotate(queue, i + 1))
  {
    assert FirstSupported(queue, functionMap[key]) == i;
  }

  /** The scan of getPriorityServer running through the whole queue. */
  lemma PickNone(queue: seq<ServerInfo>, functionMap: map<Key, seq<FunctionInfo>>, key: Key)
    requires key in functionMap
    requires forall m :: 0 <= m < |queue| ==> FirstServing(functionMap[key], queue[m]) < 0
    ensures Pick(queue, functionMap, key) == (None, queue)
  {
  }

  // ---------------------------------------------------------------- the binder process

  /** The binder's static state: running flag, function map, priority queue, socket-server map,
      pending payload sizes and recorded message types. */
  class Binder {
    var running: bool
    var functionMap: map<Key, seq<FunctionInfo>>
    var queue: seq<ServerInfo>
    var sockets: map<int, ServerInfo>
    var blocks: map<int, UInt32>
    var info: map<int, Int32>

    function Registered(): (reg: Registry)
      reads this
    {
      Registry(functionMap, queue, sockets)
    }

    function State(): (s: BinderState)
      reads this
    {
      BinderState(Registered(), blocks, info, running)
    }

    predicate Valid()
      reads this
    {
      RegistryValid(Registered())
    }

    /** The statics before main runs: everything empty and not yet running. */
    constructor ()
      ensures Valid() && State() == BinderState(Registry(map[], [], map[]), map[], map[], false)
    {
      running := false;
      functionMap := map[];
      queue := [];
      sockets := map[];
      blocks := map[];
      info := map[];
    }

    /** getPriorityServer: the round-robin scan over the priority queue, which it leaves rotated. */
    method GetPriorityServer(key: Key) returns (server: Option<ServerInfo>)
      modifies this
      ensures (server, queue) == Pick(old(queue), functionMap, key)
      ensures functionMap == old(functionMap) && sockets == old(sockets)
      ensures blocks == old(blocks) && info == old(info) && running == old(running)
    {
      var rotated;
      server, rotated := PriorityScan(queue, functionMap, key);
      queue := rotated;
    }

    /** function_add: the identity cut after its terminator and filed under its key; an `==` binding is
        replaced, the new one goes to the tail. */
    method FunctionAdd(name: seq<Byte>, argTypes: seq<Int32>, host: seq<Byte>, port: UInt16) returns (result: Int32)
      requires Valid() && 0 in argTypes
      modifies this
      ensures var f := NewBinding(name, argTypes, host, port);
        Registered() == old(Registered()).(functionMap := MapAfterAdd(old(functionMap), f)) &&
        result == AddCode(Bindings(old(functionMap), KeyOf(f.rpc)), f)
      ensures blocks == old(blocks) && info == old(info) && running == old(running)
      ensures Valid()
    {
      ghost var f0, reg := NewBinding(name, argTypes, host, port), Registered();
      var arguments := CopyArguments(argTypes);
      var key := KeyOf(RpcIdent(name, argTypes));
      assert KeyOf(f0.rpc) == key;
      ghost var list := Bindings(old(functionMap), key);
      if key !in functionMap {
        functionMap := functionMap[key := []];
      }
      var supported := functionMap[key];
      assert supported == list;
      var f := FunctionInfo(host, port, RpcIdent(name, arguments));
      assert f == f0;
      var updated;
      updated, result := AddToList(supported, f);
      functionMap := functionMap[key := updated];
      assert Registered() == reg.(functionMap := MapAfterAdd(reg.functionMap, f0));
      assert Valid() by {
        MapAfterAddKeepsValid(reg, f0);
      }
    }

    /** server_register: a location not queued yet is appended and recorded for the socket. */
    method ServerRegister(host: seq<Byte>, port: UInt16, fd: int)
      requires Valid()
      modifies this
      ensures Registered() == RegisterServer(old(Registered()), ServerInfo(host, port), fd)
      ensures blocks == old(blocks) && info == old(info) && running == old(running)
      ensures Valid()
    {
      RegisterServerMeans(Registered(), ServerInfo(host, port), fd);
      var server := ServerInfo(host, port);
      var known := false;
      for i := 0 to |queue|
        invariant known <==> server in queue[..i]
      {
        if queue[i] == server {
          known := true;
        }
      }
      assert queue[..|queue|] == queue;
      if known {
        return;
      }
      queue := queue + [server];
      sockets := sockets[fd := server];
    }

    /** server_remove: nothing for an unknown socket; otherwise its server leaves the queue and the socket
        map, each list loses its first binding there, and the socket's pending size and type are wiped. */
    method ServerRemove(fd: int)
      requires Valid()
      modifies this
      ensures State() == RemoveState(old(State()), fd)
      ensures Valid()
    {
      RemoveServerMeans(Registered(), fd);
      if fd !in sockets {
        return;
      }
      var server := sockets[fd];
      queue := RemoveValue(queue, server);
      sockets := sockets - {fd};
      functionMap := DropEverywhere(functionMap, server);
      blocks := blocks[fd := 0];
      info := info[fd := FAILURE];
    }

    /** handleServerClose: nothing pending on the socket, and its server removed. */
    method HandleServerClose(fd: int)
      requires Valid()
      modifies this
      ensures State() == Close(old(State()), fd)
      ensures Valid()
    {
      blocks := blocks[fd := 0];
      ServerRemove(fd);
    }

    /** handleRegisterRequest over a stream on the received payload. */
    method HandleRegisterRequest(handler: Protocol, stream: BinaryStream, fd: int, send: nat -> int) returns (reply: Reply, wire: seq<Byte>)
      requires Valid() && stream.position == 0
      modifies this, stream
      ensures (Registered(), reply) == RegisterHandled(old(Registered()), old(stream.bytes), fd)
      ensures wire == (if reply.Send? then Transmit(reply.frame, send).1 else [])
      ensures blocks == old(blocks) && info == old(info) && running == old(running)
      ensures Valid()
    {
      ghost var bs := stream.bytes;
      RegisterKeepsValid(Registered(), bs, fd);
      var req := ReadRegisterRequest(stream);
      if req == None {
        return Aborted, [];
      }
      var r := req.value;
      ServerRegister(r.host, r.port, fd);
      if 0 !in r.argTypes {
        return Unterminated, [];
      }
      var result := FunctionAdd(r.name, r.argTypes, r.host, r.port);
      var status;
      status, wire := handler.SendRegisterResponse(result, send);
      reply := Send(FrameOf(REGISTER_SUCCESS, CodePayload(result)));
    }

    /** handleLocationRequest over a stream on the received payload. */
    method HandleLocationRequest(handler: Protocol, stream: BinaryStream, send: nat -> int) returns (reply: Reply, wire: seq<Byte>)
      requires Valid() && stream.position == 0
      modifies this, stream
      ensures (Registered(), reply) == LocationHandled(old(Registered()), old(stream.bytes))
      ensures wire == (if reply.Send? then Transmit(reply.frame, send).1 else [])
      ensures blocks == old(blocks) && info == old(info) && running == old(running)
      ensures Valid()
    {
      ghost var bs := stream.bytes;
      LocationKeepsValid(Registered(), bs);
      var request := ReadNameTypes(stream);
      if request == None {
        return Aborted, [];
      }
      var (name, words) := request.value;
      var status;
      if 0 !in words {
        if NameFiled(functionMap.Keys, name) {
          return Unterminated, [];
        }
        status, wire := handler.SendLocationError(FUNCTION_NOT_AVAILABLE, send);
        return Send(FrameOf(LOC_FAILURE, CodePayload(FUNCTION_NOT_AVAILABLE))), wire;
      }
      var location := GetPriorityServer(KeyOf(RpcIdent(name, words)));
      if location.Some? {
        var server := location.value;
        if |server.host| >= TWO31 - 8 {
          return Oversized, [];
        }
        status, wire := handler.SendLocationResponse(server.host, server.port, send);
        reply := Send(FrameOf(LOC_SUCCESS, LocationResponsePayload(server.host, server.port)));
      } else {
        status, wire := handler.SendLocationError(FUNCTION_NOT_AVAILABLE, send);
        reply := Send(FrameOf(LOC_FAILURE, CodePayload(FUNCTION_NOT_AVAILABLE)));
      }
    }

    /** handleLocationCacheRequest over a stream on the received payload. */
    method HandleLocationCacheRequest(handler: Protocol, stream: BinaryStream, send: nat -> int) returns (reply: Reply, wire: seq<Byte>)
      requires stream.position == 0
      modifies stream
      ensures reply == CacheHandled(Registered(), old(stream.bytes))
      ensures wire == (if reply.Send? then Transmit(reply.frame, send).1 else [])
    {
      var request := ReadNameTypes(stream);
      if request == None {
        return Aborted, [];
      }
      var (name, words) := request.value;
      var status;
      if 0 !in words {
        if NameFiled(functionMap.Keys, name) {
          return Unterminated, [];
        }
        status, wire := handler.SendLocationCacheError(FUNCTION_NOT_AVAILABLE, send);
        return Send(FrameOf(LOC_CACHE_FAILURE, CodePayload(FUNCTION_NOT_AVAILABLE))), wire;
      }
      var key := KeyOf(RpcIdent(name, words));
      if key in functionMap && |functionMap[key]| > 0 {
        var supported := functionMap[key];
        if !WireServices(supported) || |CacheResponsePayload(supported)| >= TWO31 {
          return Oversized, [];
        }
        status, wire := handler.SendLocationCacheResponse(supported, send);
        reply := Send(FrameOf(LOC_CACHE_SUCCESS, CacheResponsePayload(supported)));
      } else {
        status, wire := handler.SendLocationCacheError(FUNCTION_NOT_AVAILABLE, send);
        reply := Send(FrameOf(LOC_CACHE_FAILURE, CodePayload(FUNCTION_NOT_AVAILABLE)));
      }
    }

    /** handleTerminateRequest up to its poll loop: stop running and send TERMINATE on every socket
        that registered a server. */
    method HandleTerminateRequest(sendTo: int -> (nat -> int)) returns (wires: map<int, seq<Byte>>)
      modifies this
      ensures State() == old(State()).(running := false)
      ensures wires == NoticeWires(sockets.Keys, sendTo)
    {
      running := false;
      wires := NotifyAll(sockets, sendTo);
    }

    /** handleRequest on one readable connection. `first` feeds the payload or the size receive, `second`
        the type receive; `send` is the connection's socket and `sendTo` every other one. */
    method HandleRequest(fd: int, first: Incoming, second: Incoming, send: nat -> int, sendTo: int -> (nat -> int))
      returns (outcome: RequestOutcome, wires: map<int, seq<Byte>>)
      requires Valid() && Offers(blocks, fd, first, second)
      modifies this
      ensures (State(), outcome) == RequestStep(old(State()), fd, first, second)
      ensures wires == Wires(outcome, fd, send, sendTo)
      ensures Valid()
    {
      ghost var s := State();
      var handler := new Protocol(fd);
      if fd !in blocks {
        blocks := blocks[fd := 0];
        assert HeaderStep(State(), fd, first, second) == HeaderStep(s, fd, first, second) by {
          assert blocks[fd := 0] == s.blocks[fd := 0];
        }
        outcome, wires := HandleHeader(handler, fd, first, second, send, sendTo);
      } else if blocks[fd] != 0 {
        outcome, wires := HandlePayload(handler, fd, first, send, sendTo);
      } else {
        outcome, wires := HandleHeader(handler, fd, first, second, send, sendTo);
      }
    }

    /** The branch of handleRequest with a payload pending: receive it, clear the pending size and
        dispatch on the recorded type. */
    method HandlePayload(handler: Protocol, fd: int, first: Incoming, send: nat -> int, sendTo: int -> (nat -> int))
      returns (outcome: RequestOutcome, wires: map<int, seq<Byte>>)
      requires Valid() && fd in blocks && blocks[fd] != 0 && blocks[fd] <= |first.peer|
      modifies this
      ensures (State(), outcome) == PayloadStep(old(State()), fd, first)
      ensures wires == Wires(outcome, fd, send, sendTo)
      ensures Valid()
    {
      ghost var s := State();
      var size := blocks[fd];
      var buffer := new Byte[size];
      var status := handler.ReceiveMessage(size, buffer, first.recv, first.peer);
      if status != 0 {
        HandleServerClose(fd);
        return Closed(status), map[];
      }
      assert buffer[..size] == first.peer[..size];
      blocks := blocks[fd := 0];
      if fd !in info {
        info := info[fd := FAILURE];
      }
      var messageType := info[fd];
      assert info == s.info[fd := messageType];
      var stream := new BinaryStream.FromBuffer(buffer, AsInt(size));
      assert stream.bytes == StreamOf(first.peer[..size]);
      ghost var s1 := State();
      assert s1 == s.(blocks := s.blocks[fd := 0], info := s.info[fd := messageType]);
      outcome, wires := DispatchPayload(handler, stream, fd, messageType, send, sendTo);
      assert (State(), outcome) == Dispatch(s1, fd, messageType, StreamOf(first.peer[..size]));
    }

    /** The switch of handleRequest over a received payload. */
    method DispatchPayload(handler: Protocol, stream: BinaryStream, fd: int, messageType: Int32, send: nat -> int,
                           sendTo: int -> (nat -> int))
      returns (outcome: RequestOutcome, wires: map<int, seq<Byte>>)
      requires Valid() && stream.position == 0
      modifies this, stream
      ensures (State(), outcome) == Dispatch(old(State()), fd, messageType, old(stream.bytes))
      ensures wires == Wires(outcome, fd, send, sendTo)
      ensures Valid()
    {
      if messageType !in {REGISTER, LOC_REQUEST, LOC_CACHE_REQUEST} {
        outcome, wires := DispatchOther(fd, messageType, stream.bytes, sendTo);
        return;
      }
      var reply, wire := HandleMessage(handler, stream, fd, messageType, send);
      outcome := Dispatched(messageType, reply);
      wires := if reply.Send? then map[fd := wire] else map[];
      assert wires == Wires(outcome, fd, send, sendTo) by {
        if reply.Send? {
          assert Wires(outcome, fd, send, sendTo) == map[fd := Transmit(reply.frame, send).1];
        }
      }
    }

    /** The cases of the switch that answer nobody and read no payload: TERMINATE notifies every
        registered socket, and any other type is ignored. */
    method DispatchOther(fd: int, messageType: Int32, ghost payload: seq<Byte>, sendTo: int -> (nat -> int))
      returns (outcome: RequestOutcome, wires: map<int, seq<Byte>>)
      requires Valid() && messageType !in {REGISTER, LOC_REQUEST, LOC_CACHE_REQUEST}
      modifies this
      ensures (State(), outcome) == Dispatch(old(State()), fd, messageType, payload)
      ensures outcome.Terminating? ==> wires == NoticeWires(outcome.notify, sendTo)
      ensures !outcome.Terminating? ==> wires == map[]
      ensures Valid()
    {
      if messageType == TERMINATE {
        var notify := sockets.Keys;
        wires := HandleTerminateRequest(sendTo);
        return Terminating(notify), wires;
      }
      return Ignored(messageType), map[];
    }

    /** The three cases of the switch that answer the sender: register, location and cache requests. */
    method HandleMessage(handler: Protocol, stream: BinaryStream, fd: int, messageType: Int32, send: nat -> int)
      returns (reply: Reply, wire: seq<Byte>)
      requires Valid() && stream.position == 0 && messageType in {REGISTER, LOC_REQUEST, LOC_CACHE_REQUEST}
      modifies this, stream
      ensures (State(), Dispatched(messageType, reply)) == Dispatch(old(State()), fd, messageType, old(stream.bytes))
      ensures wire == (if reply.Send? then Transmit(reply.frame, send).1 else [])
      ensures Valid()
    {
      if messageType == REGISTER {
        reply, wire := HandleRegisterRequest(handler, stream, fd, send);
      } else if messageType == LOC_REQUEST {
        reply, wire := HandleLocationRequest(handler, stream, send);
      } else {
        reply, wire := HandleLocationCacheRequest(handler, stream, send);
      }
    }

    /** The branch of handleRequest reading a header: the size is recorded as pending and the type
        recorded; TERMINATE is acted on at once. */
    method HandleHeader(handler: Protocol, fd: int, first: Incoming, second: Incoming, send: nat -> int,
                        sendTo: int -> (nat -> int))
      returns (outcome: RequestOutcome, wires: map<int, seq<Byte>>)
      requires Valid() && fd in blocks && blocks[fd] == 0 && 4 <= |first.peer| && 4 <= |second.peer|
      modifies this
      ensures (State(), outcome) == HeaderStep(old(State()), fd, first, second)
      ensures wires == Wires(outcome, fd, send, sendTo)
      ensures Valid()
    {
      ghost var s := State();
      assert s.blocks[fd := 0] == s.blocks;
      var messageSize := handler.ReceiveMessageSize(first.recv, first.peer);
      if messageSize.Err? {
        HandleServerClose(fd);
        return Closed(messageSize.error), map[];
      }
      blocks := blocks[fd := messageSize.value];
      outcome, wires := HandleType(handler, fd, messageSize.value, second, send, sendTo);
    }

    /** The type half of a header: received, recorded, and TERMINATE handled at once. */
    method HandleType(handler: Protocol, fd: int, messageSize: UInt32, second: Incoming, send: nat -> int,
                      sendTo: int -> (nat -> int))
      returns (outcome: RequestOutcome, wires: map<int, seq<Byte>>)
      requires Valid() && 4 <= |second.peer|
      modifies this
      ensures (State(), outcome) == TypeStep(old(State()), fd, messageSize, second)
      ensures wires == Wires(outcome, fd, send, sendTo)
      ensures Valid()
    {
      ghost var s := State();
      var messageType := handler.ReceiveMessageType(second.recv, second.peer);
      if messageType.Err? {
        HandleServerClose(fd);
        return Closed(messageType.error), map[];
      }
      outcome, wires := RecordType(fd, messageSize, messageType.value, send, sendTo);
    }

    /** The type half of handleRequest once the type has arrived. */
    method RecordType(fd: int, messageSize: UInt32, messageType: Int32, send: nat -> int, sendTo: int -> (nat -> int))
      returns (outcome: RequestOutcome, wires: map<int, seq<Byte>>)
      requires Valid()
      modifies this
      ensures (State(), outcome) == Typed(old(State()), fd, messageSize, messageType)
      ensures wires == Wires(outcome, fd, send, sendTo)
      ensures Valid()
    {
      ghost var s := State();
      info := info[fd := messageType];
      ghost var s1 := State();
      assert s1 == s.(info := s.info[fd := messageType]);
      if messageType == TERMINATE {
        var notify := sockets.Keys;
        wires := HandleTerminateRequest(sendTo);
        assert State() == s1.(running := false);
        return Terminating(notify), wires;
      }
      return Announced(messageSize, messageType), map[];
    }
  }
}

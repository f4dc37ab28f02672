// Argument-type words (src/helpers.cpp). A word is a C `int`:
//   bit 31 input flag, bit 30 output flag, bits 23-16 base type,
//   bits 15-0 array length (0 for a scalar).
// Dafny's `/` and `%` are Euclidean, so for a positive divisor they are the
// floor division and the non-negative remainder: `w / 2^k` is the arithmetic
// shift `w >> k` and `w % 2^k` keeps the low k bits of the two's-complement
// pattern, for negative words too.
module Helpers {
  import opened Ints
  import opened Constants

  /** getArgTypeArrayLength: the low 16 bits of the word, returned as a C `short`. */
  function GetArgTypeArrayLength(w: Int32): (s: Int16)
    ensures (s - w) % TWO16 == 0
    ensures s == 0 <==> w % TWO16 == 0
  {
    var low := w % TWO16;
    if low < TWO15 then low else low - TWO16
  }

  /** A scalar argument is one whose array-length field is 0. */
  predicate IsScalar(w: Int32)
  {
    GetArgTypeArrayLength(w) == 0
  }

  /** getArgType: `(w >> 16) & 255`, the base-type field. */
  function GetArgType(w: Int32): (t: int)
    ensures 0 <= t < TWO8
  {
    (w / TWO16) % TWO8
  }

  /** isArgTypeInput: bit 31, which in two's complement is the sign bit. */
  function IsArgTypeInput(w: Int32): (b: bool)
    ensures b <==> w < 0
  {
    (w / TWO31) % 2 == 1
  }

  /** isArgTypeOutput: bit 30 of the word. */
  function IsArgTypeOutput(w: Int32): (b: bool)
    ensures b <==> w % TWO31 >= TWO30
  {
    ((w % TWO32) / TWO30) % 2 == 1
  }

  /** The word a caller builds from its four fields (bits 29-24 left clear). */
  function ArgWord(input: bool, output: bool, base: nat, len: nat): (w: Int32)
    requires base < TWO8 && len < TWO16
    ensures (w < 0) == input
  {
    var u := (if input then TWO31 else 0) + (if output then TWO30 else 0) + base * TWO16 + len;
    if input then u - TWO32 else u
  }

  lemma DivMod16(a: int, q: int, r: int)
    requires 0 <= r < TWO16 && a == q * TWO16 + r
    ensures a / TWO16 == q && a % TWO16 == r
  {
  }

  lemma DivMod8(a: int, q: int, r: int)
    requires 0 <= r < TWO8 && a == q * TWO8 + r
    ensures a / TWO8 == q && a % TWO8 == r
  {
  }

  lemma DivMod30(a: int, q: int, r: int)
    requires 0 <= r < TWO30 && a == q * TWO30 + r
    ensures a / TWO30 == q && a % TWO30 == r
  {
  }

  /** Each accessor reads its own field of the word and nothing else. */
  lemma FieldsOfArgWord(input: bool, output: bool, base: nat, len: nat)
    requires base < TWO8 && len < TWO16
    ensures GetArgType(ArgWord(input, output, base, len)) == base
    ensures IsArgTypeInput(ArgWord(input, output, base, len)) == input
    ensures IsArgTypeOutput(ArgWord(input, output, base, len)) == output
    ensures GetArgTypeArrayLength(ArgWord(input, output, base, len)) % TWO16 == len
    ensures IsScalar(ArgWord(input, output, base, len)) <==> len == 0
  {
    var w := ArgWord(input, output, base, len);
    var flags := (if input then 2 else 0) + (if output then 1 else 0);
    var hi := (if input then flags - 4 else flags) * 64 ;
    // w = hi * 2^24 + base * 2^16 + len, with hi the signed top byte
    assert w == (hi * TWO8 + base) * TWO16 + len;
    DivMod16(w, hi * TWO8 + base, len);
    DivMod8(hi * TWO8 + base, hi, base);
    var u := w % TWO32;
    assert u == (flags * TWO30) + base * TWO16 + len;
    DivMod30(u, flags, base * TWO16 + len);
  }

  /** getArgTypesLength: the number of words up to and including the first 0. */
  function TypesLength(words: seq<Int32>): (n: nat)
    requires 0 in words
    ensures 1 <= n <= |words|
    ensures words[n - 1] == 0
    ensures forall i :: 0 <= i < n - 1 ==> words[i] != 0
  {
    if words[0] == 0 then 1 else 1 + TypesLength(words[1..])
  }

  /** The counting loop of getArgTypesLength. */
  method GetArgTypesLength(words: seq<Int32>) returns (length: nat)
    requires 0 in words
    ensures length == TypesLength(words)
  {
    length := 0;
    while words[length] != 0
      invariant length < |words|
      invariant forall i :: 0 <= i < length ==> words[i] != 0
      invariant 0 in words[length..]
      decreases |words| - length
    {
      length := length + 1;
    }
    length := length + 1;
    TypesLengthUnique(words, length);
  }

  /** A terminator-inclusive count is determined by where the first 0 is. */
  lemma {:induction false} TypesLengthUnique(words: seq<Int32>, n: nat)
    requires 1 <= n <= |words| && words[n - 1] == 0
    requires forall i :: 0 <= i < n - 1 ==> words[i] != 0
    ensures TypesLength(words) == n
  {
    if n > 1 {
      assert 0 in words[1..] by { assert words[1..][n - 2] == 0; }
      TypesLengthUnique(words[1..], n - 1);
    }
  }

  /** type_sizeof: the byte width of each base type on an LP64 build; -1 for anything else. */
  function TypeSizeof(t: int): (size: int)
    ensures IsArgBaseType(t) <==> size > 0
    ensures size == -1 || size == 1 || size == 2 || size == 4 || size == 8
  {
    if t == ARG_CHAR then 1
    else if t == ARG_SHORT then 2
    else if t == ARG_INT then 4
    else if t == ARG_LONG then 8
    else if t == ARG_DOUBLE then 8
    else if t == ARG_FLOAT then 4
    else -1
  }

  /** The arrays agree on base type at every position before `k`, where both base types are 0. */
  predicate SameUpTo(a: seq<Int32>, b: seq<Int32>, k: nat)
  {
    k < |a| && k < |b| && GetArgType(a[k]) == 0 && GetArgType(b[k]) == 0 &&
    forall j :: 0 <= j < k ==> GetArgType(a[j]) == GetArgType(b[j])
  }

  /** Some position of `a` has base type 0, so a scan of `a` stops inside it. */
  predicate HasTypeEnd(a: seq<Int32>)
  {
    exists i :: 0 <= i < |a| && GetArgType(a[i]) == 0
  }

  /** same_int_arr: 0 when the arrays have the same base types up to a common end, 1 otherwise. */
  method SameIntArr(a: seq<Int32>, b: seq<Int32>) returns (r: int)
    requires HasTypeEnd(a) && HasTypeEnd(b)
    ensures r == 0 || r == 1
    ensures r == 0 <==> exists k: nat :: SameUpTo(a, b, k)
  {
    var count := 0;
    while true
      invariant count < |a| && count < |b|
      invariant forall j :: 0 <= j < count ==> GetArgType(a[j]) == GetArgType(b[j]) != 0
      invariant exists i :: count <= i < |a| && GetArgType(a[i]) == 0
      invariant exists i :: count <= i < |b| && GetArgType(b[i]) == 0
      decreases |a| - count
    {
      var arg1 := GetArgType(a[count]);
      var arg2 := GetArgType(b[count]);
      if arg1 == 0 && arg2 == 0 {
        break;
      } else if arg1 == 0 {
        NotSame(a, b, count);
        return 1;
      } else if arg2 == 0 {
        NotSame(a, b, count);
        return 1;
      } else if arg1 != arg2 {
        NotSame(a, b, count);
        return 1;
      } else {
        count := count + 1;
      }
    }
    assert SameUpTo(a, b, count);
    return 0;
  }

  /** A first disagreement at `c` (types differ, or exactly one is 0) rules out any common end. */
  lemma NotSame(a: seq<Int32>, b: seq<Int32>, c: nat)
    requires c < |a| && c < |b|
    requires forall j :: 0 <= j < c ==> GetArgType(a[j]) == GetArgType(b[j]) != 0
    requires GetArgType(a[c]) != GetArgType(b[c])
    ensures !exists k: nat :: SameUpTo(a, b, k)
  {

  }
}

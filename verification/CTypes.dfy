/** The C values the rest of the project is written in: bytes, NUL-terminated strings, size_t. */
module CTypes {

  newtype Byte = x: int | 0 <= x < 256

  const NUL: Byte := 0
  const SLASH: Byte := 47

  /** A C string without its terminator. */
  type CString = s: seq<Byte> | NUL !in s

  datatype Option<+T> = None | Some(value: T)

  /** One more than the largest size_t. */
  const SIZE_T_RANGE: int := 0x1_0000_0000_0000_0000

  /** size_t subtraction, which wraps when the result would be negative. */
  function WrapSub(a: nat, b: nat): nat {
    if b <= a then a - b else (a - b) % SIZE_T_RANGE
  }

  lemma WrapIsFar(a: nat, b: nat)
    requires a < b
    ensures b + WrapSub(a, b) >= SIZE_T_RANGE
  {
    var q := (a - b) / SIZE_T_RANGE;
    assert q <= -1;
    assert a - b == q * SIZE_T_RANGE + (a - b) % SIZE_T_RANGE;
  }

  /** memchr(mem + p, 0, ...): the position of the first NUL at or after p, |mem| when there is none. */
  function NulFrom(mem: seq<Byte>, p: nat): (z: nat)
    requires p <= |mem|
    ensures p <= z <= |mem|
    ensures forall k :: p <= k < z ==> mem[k] != NUL
    ensures z < |mem| ==> mem[z] == NUL
    decreases |mem| - p
  {
    if p == |mem| || mem[p] == NUL then p else NulFrom(mem, p + 1)
  }

  /** The C string stored at p, or None when memory ends before its terminator. */
  function StringAt(mem: seq<Byte>, p: nat): (r: Option<CString>)
    requires p <= |mem|
    ensures r.Some? ==> p + |r.value| < |mem| && mem[p..p + |r.value|] == r.value && mem[p + |r.value|] == NUL
  {
    var z := NulFrom(mem, p);
    if z == |mem| then None else Some(mem[p..z])
  }

  /** memcpy(mem + p, bytes, |bytes|) */
  function Store(mem: seq<Byte>, p: nat, bytes: seq<Byte>): (r: seq<Byte>)
    requires p + |bytes| <= |mem|
    ensures |r| == |mem|
    ensures forall k :: 0 <= k < |mem| ==> r[k] == if p <= k < p + |bytes| then bytes[k - p] else mem[k]
  {
    mem[..p] + bytes + mem[p + |bytes|..]
  }

  /** The first index whose element satisfies p, -1 when there is none. */
  function FirstIndex<T>(s: seq<T>, p: T -> bool): (r: int)
    ensures -1 <= r < |s|
    ensures 0 <= r ==> p(s[r]) && forall k :: 0 <= k < r ==> !p(s[k])
    ensures r == -1 ==> forall k :: 0 <= k < |s| ==> !p(s[k])
  {
    FirstIndexFrom(s, p, 0)
  }

  function FirstIndexFrom<T>(s: seq<T>, p: T -> bool, from: nat): (r: int)
    requires from <= |s|
    ensures r == -1 || from <= r < |s|
    ensures 0 <= r ==> p(s[r]) && forall k :: from <= k < r ==> !p(s[k])
    ensures r == -1 ==> forall k :: from <= k < |s| ==> !p(s[k])
    decreases |s| - from
  {
    if from == |s| then -1 else if p(s[from]) then from else FirstIndexFrom(s, p, from + 1)
  }

  /** A string is found where it lies followed by its terminator. */
  lemma StringAtIs(mem: seq<Byte>, p: nat, t: CString)
    requires p + |t| < |mem| && mem[p..p + |t|] == t && mem[p + |t|] == NUL
    ensures StringAt(mem, p) == Some(t)
  {
    var z := NulFrom(mem, p);
    assert forall k :: 0 <= k < |t| ==> mem[p + k] == t[k];
  }
}

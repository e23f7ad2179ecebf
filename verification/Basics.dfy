/** Machine-level vocabulary shared by every module: bytes, 64-bit integers and optional values. */
module Basics {

  newtype byte = i: int | 0 <= i < 0x100

  /** A Go `string` or `[]byte` value. */
  type Bytes = seq<byte>

  const MAX_INT64: int := 0x7fff_ffff_ffff_ffff
  const MIN_INT64: int := -0x8000_0000_0000_0000
  const MAX_UINT64: int := 0xffff_ffff_ffff_ffff

  type int64 = i: int | -0x8000_0000_0000_0000 <= i <= 0x7fff_ffff_ffff_ffff

  datatype Option<+T> = None | Some(value: T)

  /** Two's-complement wrap-around of Go's int64 arithmetic. */
  function Wrap64(x: int): (w: int64)
    ensures MIN_INT64 <= x <= MAX_INT64 ==> w == x
  {
    (x + 0x8000_0000_0000_0000) % 0x1_0000_0000_0000_0000 - 0x8000_0000_0000_0000
  }

  /** Adding inside or outside an earlier wrap makes no difference. */
  lemma WrapAdd(x: int, y: int, sum: int)
    requires sum == x + y
    ensures Wrap64(Wrap64(x) + y) == Wrap64(sum)
  {
  }

  /** Saturation, as in time.Time.Sub. */
  function Clamp64(x: int): (c: int64)
    ensures MIN_INT64 <= x <= MAX_INT64 ==> c == x
  {
    if x < MIN_INT64 then MIN_INT64 else if x > MAX_INT64 then MAX_INT64 else x
  }

  // ---------- strings ----------

  predicate IsSpace(b: byte) {
    b == 32 || 9 <= b <= 13
  }

  /** strings.TrimSpace on ASCII white space. */
  function TrimSpace(s: Bytes): Bytes {
    if s != [] && IsSpace(s[0]) then TrimSpace(s[1..])
    else if s != [] && IsSpace(s[|s| - 1]) then TrimSpace(s[..|s| - 1])
    else s
  }

  predicate AllSpace(s: Bytes) {
    forall i :: 0 <= i < |s| ==> s[i] == 32 || 9 <= s[i] <= 13
  }

  /** Nothing but white space is cut off, at both ends. */
  lemma {:induction false} TrimSpaceCuts(s: Bytes) returns (left: Bytes, right: Bytes)
    ensures s == left + TrimSpace(s) + right && AllSpace(left) && AllSpace(right)
    decreases |s|
  {
    left, right := [], [];
    if s != [] && IsSpace(s[0]) {
      left, right := TrimSpaceCuts(s[1..]);
      LongerLeft(s, left, TrimSpace(s[1..]), right);
      left := [s[0]] + left;
    } else if s != [] && IsSpace(s[|s| - 1]) {
      left, right := TrimSpaceCuts(s[..|s| - 1]);
      LongerRight(s, left, TrimSpace(s[..|s| - 1]), right);
      right := right + [s[|s| - 1]];
    }
  }

  lemma LongerLeft(s: Bytes, left: Bytes, t: Bytes, right: Bytes)
    requires s != [] && s[1..] == left + t + right
    ensures s == [s[0]] + left + t + right
  {
    assert s == [s[0]] + s[1..];
  }

  lemma LongerRight(s: Bytes, left: Bytes, t: Bytes, right: Bytes)
    requires s != [] && s[..|s| - 1] == left + t + right
    ensures s == left + t + (right + [s[|s| - 1]])
  {
    assert s == s[..|s| - 1] + [s[|s| - 1]];
  }

  /** And none is left there. */
  lemma {:induction false} TrimSpaceEnds(s: Bytes)
    ensures var t := TrimSpace(s);
            t != [] ==> t[0] != 32 && !(9 <= t[0] <= 13) && t[|t| - 1] != 32 && !(9 <= t[|t| - 1] <= 13)
    decreases |s|
  {
    if s != [] && IsSpace(s[0]) {
      TrimSpaceEnds(s[1..]);
    } else if s != [] && IsSpace(s[|s| - 1]) {
      TrimSpaceEnds(s[..|s| - 1]);
    }
  }

  /** Nothing is left exactly of white space. */
  lemma TrimSpaceEmptyIff(s: Bytes)
    ensures TrimSpace(s) == [] <==> AllSpace(s)
  {
    var left, right := TrimSpaceCuts(s);
    TrimSpaceEnds(s);
    var t := TrimSpace(s);
    if t == [] {
      assert s == left + right;
    } else {
      assert s[|left|] == t[0];
    }
  }

  // ---------- maps, one key at a time ----------

  function Lookup<K, V>(m: map<K, V>, k: K): Option<V> {
    if k in m then Some(m[k]) else None
  }

  /** The map with `k` bound to a value, or unbound. */
  function Assign<K(!new), V>(m: map<K, V>, k: K, v: Option<V>): (m': map<K, V>)
    ensures Lookup(m', k) == v
    ensures forall x :: x != k ==> Lookup(m', x) == Lookup(m, x)
  {
    match v
    case Some(value) => m[k := value]
    case None => m - {k}
  }

  /** Maps are equal when all lookups are. */
  lemma SameLookups<K(!new), V>(a: map<K, V>, b: map<K, V>)
    requires forall k :: Lookup(a, k) == Lookup(b, k)
    ensures a == b
  {
    assert forall k :: k in a <==> Lookup(a, k).Some?;
    assert forall k :: k in b <==> Lookup(b, k).Some?;
  }

  /** Binding a key to what it is bound to changes nothing. */
  lemma AssignLookup<K(!new), V>(m: map<K, V>, k: K)
    ensures Assign(m, k, Lookup(m, k)) == m
  {
  }

  /** The later of two bindings of one key counts. */
  lemma AssignTwice<K(!new), V>(m: map<K, V>, k: K, first: Option<V>, second: Option<V>)
    ensures Assign(Assign(m, k, first), k, second) == Assign(m, k, second)
  {
  }
}

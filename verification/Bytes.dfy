/** Byte strings, and the optional-value type the rest of the project shares. */
module Bytes {

  type byte = b: int | 0 <= b < 256

  /** A key, an address or a prefix: the (pointer, length) pairs of the original. */
  type Key = seq<byte>

  /** A non-NULL `void*` stored in the tree. NULL itself is `None`. */
  type Handle = nat

  datatype Option<+T> = None | Some(value: T)

  function Min(a: int, b: int): (m: int)
    ensures m <= a && m <= b && (m == a || m == b)
  {
    if a < b then a else b
  }

  /** A map of two bytes. */
  function Two<T>(a: byte, x: T, b: byte, y: T): (m: map<byte, T>)
    ensures m.Keys == {a, b}
    ensures a != b ==> m[a] == x && |m| == 2
    ensures m[b] == y
  {
    var m: map<byte, T> := map[a := x, b := y];
    assert a != b ==> |m.Keys| == 2 && |m| == |m.Keys|;
    m
  }

  lemma TakeAgrees(a: Key, b: Key, n: nat)
    requires n <= |a| && n <= |b|
    ensures a[..n] == b[..n] <==> forall i :: 0 <= i < n ==> a[i] == b[i]
  {
    if a[..n] == b[..n] {
      forall i | 0 <= i < n ensures a[i] == b[i] { assert a[i] == a[..n][i] && b[i] == b[..n][i]; }
    }
  }

  /** Length of the longest common prefix. */
  function Lcp(a: Key, b: Key): (n: nat)
    ensures n <= |a| && n <= |b|
    ensures forall i :: 0 <= i < n ==> a[i] == b[i]
    ensures n < |a| && n < |b| ==> a[n] != b[n]
  {
    if a == [] || b == [] || a[0] != b[0] then 0 else 1 + Lcp(a[1..], b[1..])
  }

  /** The three facts that `Lcp` promises determine it. */
  lemma LcpUnique(a: Key, b: Key, n: nat)
    requires n <= |a| && n <= |b|
    requires forall i :: 0 <= i < n ==> a[i] == b[i]
    requires n < |a| && n < |b| ==> a[n] != b[n]
    ensures n == Lcp(a, b)
  {
    var m := Lcp(a, b);
    assert forall i :: 0 <= i < m ==> a[i] == b[i];
  }

  lemma LcpWhole(a: Key, b: Key)
    ensures Lcp(a, b) == |a| <==> a <= b
    ensures Lcp(a, b) == |b| <==> b <= a
  {
    var m := Lcp(a, b);
    if a <= b { LcpUnique(a, b, |a|); }
    if b <= a { LcpUnique(a, b, |b|); }
  }

  /** Two prefixes of one string are comparable. */
  lemma PrefixesComparable(a: Key, b: Key, k: Key)
    requires a <= k && b <= k
    ensures if |a| <= |b| then a <= b else b <= a
  {
  }

  lemma Associative<T>(a: seq<T>, b: seq<T>, c: seq<T>)
    ensures a + (b + c) == (a + b) + c
  {
  }

  ghost predicate Distinct<T>(s: seq<T>) {
    forall i, j :: 0 <= i < j < |s| ==> s[i] != s[j]
  }
}

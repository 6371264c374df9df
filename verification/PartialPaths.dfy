/**
  The ten-byte buffer in which a node keeps the start of its compressed path, and what the
  copies made by splits and merges leave in it.
 */
module PartialPaths {
  import opened Bytes

  const MAX_PREFIX_LEN := 10

  /** A header (`partial`, `partial_len`) stands for `path`: full length, first ten bytes. */
  ghost predicate Stored(partial: seq<byte>, partialLen: nat, path: Key) {
    && |partial| == MAX_PREFIX_LEN
    && partialLen == |path|
    && forall i :: 0 <= i < Min(MAX_PREFIX_LEN, partialLen) ==> partial[i] == path[i]
  }

  /** The bytes of `key` from `depth` on agree with the first `n` bytes of `s`. */
  ghost predicate AgreeFor(s: seq<byte>, key: Key, depth: nat, n: nat) {
    && n <= |s| && depth + n <= |key|
    && forall i :: 0 <= i < n ==> s[i] == key[depth + i]
  }

  /**
    The buffer of a node4 after it has been collapsed into its last child: its own bytes, the
    edge byte if there is room, then as much of the child's path as still fits.
   */
  function Merged(upper: seq<byte>, upperLen: nat, edge: byte, lower: seq<byte>, lowerLen: nat): (m: seq<byte>)
    requires |upper| == |lower| == MAX_PREFIX_LEN
    ensures |m| == MAX_PREFIX_LEN
  {
    if upperLen >= MAX_PREFIX_LEN then upper
    else
      var withEdge := upper[upperLen := edge];
      var at := upperLen + 1;
      var sub := Min(lowerLen, MAX_PREFIX_LEN - at);
      withEdge[..at] + lower[..sub] + withEdge[at + sub..]
  }

  /** Collapsing is exact for all combinations of the two path lengths. */
  lemma MergeExact(upper: seq<byte>, upperPath: Key, edge: byte, lower: seq<byte>, lowerPath: Key)
    requires Stored(upper, |upperPath|, upperPath) && Stored(lower, |lowerPath|, lowerPath)
    ensures Stored(Merged(upper, |upperPath|, edge, lower, |lowerPath|),
                   |lowerPath| + |upperPath| + 1, upperPath + [edge] + lowerPath)
  {
  }

  /** The part below when the whole path was stored: shift the buffer. */
  lemma SplitLowerShort(partial: seq<byte>, path: Key, n: nat, shifted: seq<byte>)
    requires Stored(partial, |path|, path) && n < |path| <= MAX_PREFIX_LEN
    requires |shifted| == MAX_PREFIX_LEN
    requires forall i :: 0 <= i < |path| - (n + 1) ==> shifted[i] == partial[n + 1 + i]
    ensures Stored(shifted, |path| - (n + 1), path[n + 1..])
    ensures partial[n] == path[n]
  {
  }

  /** The part below when it was not: refill the buffer from any leaf whose key runs that far. */
  lemma SplitLowerLong(path: Key, n: nat, leafKey: Key, depth: nat, refilled: seq<byte>)
    requires n < |path|
    requires AgreeFor(path, leafKey, depth, |path|)
    requires |refilled| == MAX_PREFIX_LEN
    requires forall i :: 0 <= i < Min(MAX_PREFIX_LEN, |path| - (n + 1)) ==> refilled[i] == leafKey[depth + n + 1 + i]
    ensures Stored(refilled, |path| - (n + 1), path[n + 1..])
    ensures leafKey[depth + n] == path[n]
  {
    var lower := path[n + 1..];
    forall i | 0 <= i < |lower| ensures lower[i] == leafKey[depth + n + 1 + i] {
      assert path[n + 1 + i] == leafKey[depth + (n + 1 + i)];
    }
  }
}

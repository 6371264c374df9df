/**
  `art_disable` on the heap. The original walks down in a loop that carries the slot `ref` to
  overwrite; here each step of the walk is a call that returns what goes into that slot.
 */
module Disabling {
  import opened Bytes
  import opened PartialPaths
  import opened Nodes
  import opened Tries
  import opened TrieOrder
  import opened TrieMaps
  import opened RadixTrees
  import opened Traversals

  /** What `art_disable(p)` returns, leaves behind and subtracts from the size, for the subtree `t`. */
  ghost predicate Disables(t: Trie, p: Key, code: int, t': Trie, removed: nat)
    requires WellFormed(t)
  {
    if NoneAbove(t, p) then code == 1 && t' == Disable(t, p) && removed == |Extending(EntriesOf(t), p)|
    else code == -1 && t' == t && removed == 0
  }

  lemma LeafCases(t: Trie, p: Key)
    requires t.Leaf? && OnlyTagsAbove(t, p)
    ensures NoneAbove(t, p) <==> !(t.key < p)
    ensures t.key < p ==> t.value == None
  {
    assert t.key in Keys(t);
  }

  /** `leaf_disable_prefix`. */
  method DisableAtLeaf(l: ArtLeaf, key: Key, depth: nat) returns (code: int, r: Ptr, removed: nat)
    requires l.keyLen <= |l.buf| && OnlyTagsAbove(Leaf(KeyOf(l), l.value), key)
    requires SamePath(KeyOf(l), key, depth)
    modifies l
    ensures Valid(r, depth) && fresh(Foot(r) - {l})
    ensures Disables(old(Leaf(KeyOf(l), l.value)), key, code, Model(r), removed)
  {
    hide OnlyTagsAbove, NoneAbove, Disable, Entry, InOrder, Extending, Valid, Split;
    ghost var t := Leaf(KeyOf(l), l.value);
    LeafCases(t, key);
    LcpWhole(KeyOf(l), key);
    var idx := LongestCommonPrefix(l.buf[..l.keyLen], key, depth);
    if idx == |key| - depth {
      DisableWhole(t, key);
      OneEntry(t);
      l.keyLen := |key|;
      l.value := None;
      LeafIs(l, key, depth);
      code, r, removed := 1, L(l), 1;
    } else if idx == l.keyLen - depth && l.value.None? {
      LeafIs(l, KeyOf(l), depth);
      code, r, removed := -1, L(l), 0;
    } else {
      DisableAside(t, key);
      var n := SplitLeaf(l, key, None, depth);
      code, r, removed := 1, N(n), 0;
    }
  }

  lemma OneEntry(t: Trie)
    requires t.Leaf?
    ensures |InOrder(t)| == 1
  {
  }

  lemma LeafIs(l: ArtLeaf, key: Key, d: nat)
    requires l.keyLen <= |l.buf| && KeyOf(l) == key
    ensures Valid(L(l), d) && Model(L(l)) == Leaf(key, l.value) && Foot(L(l)) == {l}
  {
  }

  /** `make_leaf(key, key_len, NULL)` in the place of a whole subtree. */
  method Tag(key: Key, ghost d: nat) returns (l: ArtLeaf)
    ensures fresh(l) && Valid(L(l), d) && Model(L(l)) == Leaf(key, None) && Foot(L(l)) == {l}
    ensures Kid(L(l), Leaf(key, None), d, {l})
  {
    hide Valid, Kid;
    l := MakeLeaf(key, None, d);
    LeafIs(l, key, d);
  }

  method DisableInto(p: Ptr, key: Key, depth: nat) returns (code: int, r: Ptr, removed: nat)
    requires Valid(p, depth) && WellFormed(Model(p)) && OnlyTagsAbove(Model(p), key)
    requires SamePath(Prefix(Model(p)), key, depth) && depth < |key|
    modifies Foot(p)
    ensures Valid(r, depth) && fresh(Foot(r) - old(Foot(p)))
    ensures Disables(old(Model(p)), key, code, Model(r), removed)
    decreases Foot(p), 2
  {
    hide ArtNode.Layout, ArtNode.Header, WellFormed, AllKids, Made, OnlyTagsAbove, Disables;
    match p
    case L(l) => code, r, removed := DisableAtLeaf(l, key, depth);
    case N(n) => code, r, removed := DisableAtNode(n, key, depth);
  }

  method DisableAtNode(n: ArtNode, key: Key, depth: nat) returns (code: int, r: Ptr, removed: nat)
    requires Valid(N(n), depth) && WellFormed(n.trie) && OnlyTagsAbove(n.trie, key)
    requires SamePath(n.trie.pre, key, depth) && depth < |key|
    modifies n.Repr
    ensures Valid(r, depth) && fresh(Foot(r) - old(n.Repr))
    ensures Disables(old(n.trie), key, code, Model(r), removed)
    decreases n.Repr, 1
  {
    hide ArtNode.Layout, ArtNode.Header, WellFormed, AllKids, RadixTrees.Apart, OnlyTagsAbove, NoneAbove, Disable,
         Split, Extending, InOrder;
    PathLength(n, depth);
    if n.partialLen != 0 {
      var prefixLen := Matched(n, key, depth);
      if |key| - depth == prefixLen {
        DisableWhole(n.trie, key);
        removed := Destroy(N(n), depth);
        var l := Tag(key, depth);
        return 1, L(l), removed;
      }
      if prefixLen < n.partialLen {
        DisableAside(n.trie, key);
        var s := SplitNode(n, key, None, depth, prefixLen);
        return 1, N(s), 0;
      }
    }
    code, r, removed := DisableChild(n, key, depth);
  }

  /** The rest of the loop body, when the whole path agrees. */
  method DisableChild(n: ArtNode, key: Key, depth: nat) returns (code: int, r: Ptr, removed: nat)
    requires Valid(N(n), depth) && WellFormed(n.trie) && OnlyTagsAbove(n.trie, key)
    requires n.trie.pre < key
    modifies n.Repr
    ensures Valid(r, depth) && fresh(Foot(r) - old(n.Repr))
    ensures Disables(old(n.trie), key, code, Model(r), removed)
    decreases n.Repr, 0, 1
  {
    hide ArtNode.Layout, ArtNode.Header, WellFormed, AllKids, RadixTrees.Apart, Kid, OnlyTagsAbove, NoneAbove, Disable,
         Extending;
    PathLength(n, depth);
    var at := depth + n.partialLen;
    var slot := n.FindChild(key[at]);
    if slot >= 0 {
      code, removed := DisableBelow(n, key[at], slot, key, at, depth);
      r := N(n);
    } else {
      DisableBeside(n.trie, key);
      var l := Tag(key, at + 1);
      var s := AddKid(n, key[at], L(l), depth, Leaf(key, None), {l});
      code, r, removed := 1, N(s), 0;
    }
  }

  method DisableBelow(n: ArtNode, b: byte, slot: int, key: Key, at: nat, ghost d: nat)
    returns (code: int, removed: nat)
    requires Valid(N(n), d) && WellFormed(n.trie) && OnlyTagsAbove(n.trie, key)
    requires n.trie.pre < key && at == |n.trie.pre| && key[at] == b && b in n.kids
    requires n.SlotFor(b, slot) && n.children[slot] == n.kids[b]
    modifies n.Repr
    ensures Valid(N(n), d) && fresh(n.Repr - old(n.Repr))
    ensures Disables(old(n.trie), key, code, n.trie, removed)
    decreases n.Repr, 0, 0
  {
    hide ArtNode.Layout, ArtNode.Header, WellFormed, AllKids, RadixTrees.Apart, OnlyTagsAbove, Disables,
         Around, Kid, Valid;
    PathLength(n, d);
    ghost var t, pre, ts, fs := n.trie, n.trie.pre, n.trie.kids, n.feet;
    Open(n, d, b);
    OnlyTagsAboveKid(t, key, b);
    var q;
    code, q, removed := DisableKid(n.children[slot], key, at + 1);
    PtrKid(q, at + 1);
    DisablesBelow(t, key, b, code, Model(q), removed);
    ReplaceKid(n, b, slot, q, pre, d, ts, fs);
  }

  lemma DisablesBelow(t: Trie, p: Key, b: byte, code: int, s: Trie, removed: nat)
    requires WellFormed(t) && t.Inner? && t.pre < p && p[|t.pre|] == b && b in t.kids && WellFormed(t.kids[b])
    requires Disables(t.kids[b], p, code, s, removed)
    ensures Disables(t, p, code, Inner(t.pre, t.kids[b := s]), removed)
  {
    hide WellFormed, NoneAbove, Disable, Extending;
    DisableInside(t, p);
    assert t.kids[b := t.kids[b]] == t.kids;
  }

  /** A child whose slot ends at the end of the prefix goes, no matter what; otherwise the walk goes on. */
  method DisableKid(p: Ptr, key: Key, depth: nat) returns (code: int, r: Ptr, removed: nat)
    requires Valid(p, depth) && WellFormed(Model(p)) && OnlyTagsAbove(Model(p), key)
    requires SamePath(Prefix(Model(p)), key, depth)
    modifies Foot(p)
    ensures Valid(r, depth) && fresh(Foot(r) - old(Foot(p)))
    ensures Disables(old(Model(p)), key, code, Model(r), removed)
    decreases Foot(p), 3
  {
    hide ArtNode.Layout, ArtNode.Header, WellFormed, AllKids, RadixTrees.Apart, OnlyTagsAbove, NoneAbove, Disable,
         Extending, InOrder;
    if depth == |key| {
      DisableWhole(Model(p), key);
      removed := Destroy(p, depth);
      var l := Tag(key, depth);
      code, r := 1, L(l);
    } else {
      code, r, removed := DisableInto(p, key, depth);
    }
  }
}

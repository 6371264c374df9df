/** The recursive walks of art.cc that visit a whole subtree. */
module Traversals {
  import opened Bytes
  import opened Nodes
  import opened Tries
  import opened TrieOrder
  import opened RadixTrees

  lemma DenseEdges(bs: seq<byte>, cs: seq<Ptr>, kids: map<byte, Ptr>, t: Trie)
    requires Dense(bs, cs, |kids|, kids) && |bs| == |cs| == |kids| && t.Inner? && t.kids.Keys == kids.Keys
    ensures EdgesInOrder(t, bs)
    ensures forall i :: 0 <= i < |bs| ==> bs[i] in kids && cs[i] == kids[bs[i]]
  {
    forall b | b in kids ensures b in bs {
      var i :| FoundAt(bs, |kids|, b, i);
    }
  }

  lemma NodeLayout(n: ArtNode, d: nat)
    requires Valid(N(n), d)
    ensures n.Layout() && n.trie.Inner? && n.trie.kids.Keys == n.kids.Keys && FewestKids(n.kind) <= |n.kids|
  {
    hide ArtNode.Layout, ArtNode.Header, AllKids, RadixTrees.Apart;
  }

  /** The children of a valid node, in traversal order. */
  method Branches(n: ArtNode, ghost d: nat) returns (cs: seq<Ptr>, ghost bs: seq<byte>)
    requires Valid(N(n), d) && WellFormed(n.trie)
    ensures |bs| == |cs| && EdgesInOrder(n.trie, bs)
    ensures forall i :: 0 <= i < |cs| ==> bs[i] in n.kids && cs[i] == n.kids[bs[i]]
    ensures Valid(N(n), d)
  {
    hide WellFormed, AllKids, RadixTrees.Apart, Laid, Dense, ArtNode.Layout, ArtNode.Header;
    NodeLayout(n, d);
    cs, bs := n.InByteOrder();
    DenseEdges(bs, cs, n.kids, n.trie);
  }

  lemma Branch(n: ArtNode, d: nat, b: byte)
    requires Valid(N(n), d) && WellFormed(n.trie) && b in n.kids
    ensures b in n.trie.kids && n.kids[b] != Null
    ensures Valid(n.kids[b], |n.trie.pre| + 1) && WellFormed(Model(n.kids[b]))
    ensures Model(n.kids[b]) == n.trie.kids[b] && Foot(n.kids[b]) < n.Repr && Obj(n.kids[b]) <= n.Repr
  {
    hide ArtNode.Layout, ArtNode.Header, WellFormed;
    Child(n, d, b);
  }

  /** `destroy_node`: how many leaves went. */
  method Destroy(p: Ptr, ghost d: nat) returns (count: nat)
    requires Valid(p, d) && WellFormed(Model(p))
    ensures count == |InOrder(Model(p))|
    decreases Foot(p)
  {
    hide ArtNode.Layout, ArtNode.Header, WellFormed, AllKids, RadixTrees.Apart, Kid, EdgesInOrder, From;
    match p
    case L(_) => count := 1;
    case N(n) =>
      ghost var bs;
      var cs;
      cs, bs := Branches(n, d);
      FromEnds(n.trie, bs);
      count := 0;
      var i := 0;
      while i < |cs|
        invariant 0 <= i <= |cs|
        invariant count + |From(n.trie, bs, i)| == |InOrder(n.trie)|
      {
        Branch(n, d, bs[i]);
        FromStep(n.trie, bs, i);
        var c := Destroy(cs[i], |n.trie.pre| + 1);
        count := count + c;
        i := i + 1;
      }
  }

  lemma OneCall(t: Trie, callback: Pair -> int)
    requires t.Leaf?
    ensures Calls(InOrder(t), callback) == [Pair(t.key, t.value)]
    ensures Outcome(InOrder(t), callback) == callback(Pair(t.key, t.value))
  {
  }

  method CallOnce(l: ArtLeaf, callback: Pair -> int) returns (res: int, calls: seq<Pair>)
    requires l.keyLen <= |l.buf|
    ensures res == Outcome(InOrder(Leaf(KeyOf(l), l.value)), callback)
    ensures calls == Calls(InOrder(Leaf(KeyOf(l), l.value)), callback)
  {
    hide InOrder, Calls, Outcome;
    OneCall(Leaf(KeyOf(l), l.value), callback);
    var x := Pair(l.buf[..l.keyLen], l.value);
    res, calls := callback(x), [x];
  }

  lemma OneValue(t: Trie)
    requires t.Leaf?
    ensures ActiveValues(InOrder(t)) == ActiveValue(Pair(t.key, t.value))
  {
  }

  /** `recursive_iter`: `calls` are the callback's arguments, in order. */
  method Iterate(p: Ptr, callback: Pair -> int, ghost d: nat) returns (res: int, calls: seq<Pair>)
    requires Valid(p, d) && WellFormed(Model(p))
    ensures res == Outcome(InOrder(Model(p)), callback)
    ensures calls == Calls(InOrder(Model(p)), callback)
    decreases Foot(p)
  {
    hide ArtNode.Layout, ArtNode.Header, WellFormed, AllKids, RadixTrees.Apart, Kid,
         EdgesInOrder, From, InOrder, Calls, Outcome, Under;
    match p
    case L(l) =>
      res, calls := CallOnce(l, callback);
    case N(n) =>
      ghost var bs;
      ghost var t := n.trie;
      var cs, more;
      cs, bs := Branches(n, d);
      FromEnds(t, bs);
      res, calls := 0, [];
      UnderEnds(calls, InOrder(t), callback);
      var i := 0;
      while i < |cs|
        invariant 0 <= i <= |cs|
        invariant res == 0 && Under(calls, From(t, bs, i), InOrder(t), callback)
      {
        Branch(n, d, bs[i]);
        FromStep(t, bs, i);
        UnderStep(calls, InOrder(t.kids[bs[i]]), From(t, bs, i + 1), InOrder(t), callback);
        res, more := Iterate(cs[i], callback, |t.pre| + 1);
        calls := calls + more;
        if res != 0 { return; }
        i := i + 1;
      }
      UnderEnds(calls, InOrder(t), callback);
  }

  /** `recursive_iter_active`: the values handed to the callback. */
  method IterateActive(p: Ptr, ghost d: nat) returns (values: seq<Handle>)
    requires Valid(p, d) && WellFormed(Model(p))
    ensures values == ActiveValues(InOrder(Model(p)))
    decreases Foot(p)
  {
    hide ArtNode.Layout, ArtNode.Header, WellFormed, AllKids, RadixTrees.Apart, Kid,
         EdgesInOrder, From, InOrder, ActiveValues, Handed;
    match p
    case L(l) =>
      OneValue(Leaf(KeyOf(l), l.value));
      values := if l.value.Some? then [l.value.value] else [];
    case N(n) =>
      ghost var bs;
      ghost var t := n.trie;
      var cs;
      cs, bs := Branches(n, d);
      FromEnds(t, bs);
      values := [];
      HandedEnds(values, InOrder(t));
      var i := 0;
      while i < |cs|
        invariant 0 <= i <= |cs|
        invariant Handed(values, From(t, bs, i), InOrder(t))
      {
        Branch(n, d, bs[i]);
        FromStep(t, bs, i);
        HandedStep(values, InOrder(t.kids[bs[i]]), From(t, bs, i + 1), InOrder(t));
        var more := IterateActive(cs[i], |t.pre| + 1);
        values := values + more;
        i := i + 1;
      }
      HandedEnds(values, InOrder(t));
  }
}

/**
  art.cc on the heap: nodes are changed in place, and a method that the original gives a slot
  `ref` to overwrite returns the pointer to be written there.

  `Valid(p, d)` is the path invariant for a node whose slot lies `d` bytes from the root. It ties
  the node's ten stored path bytes to the full path `trie.pre`; every leaf below agrees with that
  path, and no leaf's key is shorter than the depth of its slot.
 */
module RadixTrees {
  import opened Bytes
  import opened PartialPaths
  import opened Nodes
  import opened Tries
  import opened TrieOrder

  function Obj(p: Ptr): set<object> {
    match p
    case Null => {}
    case L(l) => {l}
    case N(n) => {n}
  }

  /** The objects of a subtree. */
  ghost function Foot(p: Ptr): set<object>
    reads Obj(p)
  {
    match p
    case Null => {}
    case L(l) => {l}
    case N(n) => n.Repr
  }

  ghost function KeyOf(l: ArtLeaf): Key
    reads l
  {
    if l.keyLen <= |l.buf| then l.buf[..l.keyLen] else l.buf
  }

  /** The subtree as a trie. */
  ghost function Model(p: Ptr): Trie
    reads Obj(p)
    requires p != Null
  {
    match p
    case L(l) => Leaf(KeyOf(l), l.value)
    case N(n) => n.trie
  }

  type Feet = map<byte, set<object>>

  ghost function Union(feet: Feet): set<object> {
    set b, o | b in feet && o in feet[b] :: o
  }

  ghost predicate Apart(feet: Feet, own: set<object>) {
    && (forall b | b in feet :: feet[b] !! own)
    && (forall b, c | b in feet && c in feet && b != c :: feet[b] !! feet[c])
  }

  /** A node is made of its own objects and those of its children, all apart. */
  ghost predicate Made(n: ArtNode)
    reads n
  {
    && n.feet.Keys == n.kids.Keys
    && Apart(n.feet, n.Own())
    && n.Repr == n.Own() + Union(n.feet)
  }

  /** Everything about a node but its children. */
  ghost predicate Shell(n: ArtNode, d: nat)
    reads n, n.partial, n.keys, n.children
  {
    && n.Layout() && FewestKids(n.kind) <= |n.kids|
    && n.trie.Inner? && d <= |n.trie.pre| && n.Header(n.trie.pre[d..])
    && n.trie.kids.Keys == n.kids.Keys
  }

  /** `c` is a valid subtree made of the objects of `foot`, and stands for `t`. */
  ghost predicate Kid(c: Ptr, t: Trie, d: nat, foot: set<object>)
    reads foot
    decreases foot, 1
  {
    c != Null && Obj(c) <= foot && Foot(c) == foot && Valid(c, d) && Model(c) == t
  }

  /** Each of these children is a valid subtree, made of `feet[b]`, that stands for `tries[b]`. */
  ghost predicate AllKids(kids: map<byte, Ptr>, tries: map<byte, Trie>, feet: Feet, d: nat)
    reads Union(feet)
    decreases Union(feet), 2
  {
    && kids.Keys == tries.Keys == feet.Keys
    && forall b | b in kids :: Kid(kids[b], tries[b], d, feet[b])
  }

  ghost predicate Valid(p: Ptr, d: nat)
    reads Obj(p), Foot(p)
    decreases Foot(p), 0
  {
    match p
    case Null => false
    case L(l) => l.keyLen <= |l.buf|
    case N(n) => Made(n) && Shell(n, d) && AllKids(n.kids, n.trie.kids, n.feet, |n.trie.pre| + 1)
  }

  lemma ObjInFoot(p: Ptr, d: nat)
    requires Valid(p, d)
    ensures Obj(p) <= Foot(p)
  {
  }

  lemma KidsSplit(kids: map<byte, Ptr>, tries: map<byte, Trie>, feet: Feet, d: nat, b: byte)
    requires AllKids(kids, tries, feet, d) && b in kids
    ensures AllKids(kids - {b}, tries - {b}, feet - {b}, d)
    ensures Kid(kids[b], tries[b], d, feet[b])
  {
  }

  lemma KidsJoin(kids: map<byte, Ptr>, tries: map<byte, Trie>, feet: Feet, d: nat,
                 b: byte, p: Ptr, t: Trie, f: set<object>)
    requires AllKids(kids - {b}, tries - {b}, feet - {b}, d) && Kid(p, t, d, f)
    requires kids.Keys == tries.Keys == feet.Keys
    ensures kids[b := p].Keys == tries[b := t].Keys == feet[b := f].Keys
    ensures AllKids(kids[b := p], tries[b := t], feet[b := f], d)
  {
    hide Kid;
    forall c | c in kids && c != b ensures Kid(kids[c], tries[c], d, feet[c]) {
      assert c in kids - {b};
      assert Kid((kids - {b})[c], (tries - {b})[c], d, (feet - {b})[c]);
    }
  }

  lemma ApartUpdate(feet: Feet, own: set<object>, b: byte, f: set<object>)
    requires Apart(feet, own) && f !! own && f !! Union(feet - {b})
    ensures Apart(feet[b := f], own)
  {
    forall c | c in feet && c != b ensures f !! feet[c] && feet[c] <= Union(feet - {b}) {
      assert (feet - {b})[c] == feet[c];
    }
  }

  lemma UnionUpdate(feet: Feet, b: byte, f: set<object>)
    ensures Union(feet[b := f]) == Union(feet - {b}) + f
  {
    var u := feet[b := f];
    forall o | o in Union(u) ensures o in Union(feet - {b}) + f {
      var c :| c in u && o in u[c];
      if c != b { assert o in (feet - {b})[c]; }
    }
    forall o | o in Union(feet - {b}) + f ensures o in Union(u) {
      if o in f {
        assert o in u[b];
      } else {
        var c :| c in feet - {b} && o in (feet - {b})[c];
        assert o in u[c];
      }
    }
  }

  lemma UnionApart(feet: Feet, own: set<object>)
    requires Apart(feet, own)
    ensures Union(feet) !! own
  {
  }

  /** The ghost side of a change: what the node now stands for. */
  ghost method Record(n: ArtNode, t: Trie, feet: Feet, kids: map<byte, Ptr>, tries: map<byte, Trie>, d: nat)
    requires Apart(feet, n.Own()) && AllKids(kids, tries, feet, d)
    modifies n`trie, n`feet, n`Repr
    ensures n.trie == t && n.feet == feet && n.Repr == n.Own() + Union(feet)
    ensures AllKids(kids, tries, feet, d)
  {
    hide AllKids, Apart, Union;
    UnionApart(feet, n.Own());
    assert n !in Union(feet);
    n.trie, n.feet, n.Repr := t, feet, n.Own() + Union(feet);
  }

  /** A node whose buffers hold `kids` and a path that ends at `pre`. */
  ghost predicate Holds(n: ArtNode, pre: Key, d: nat, kids: map<byte, Ptr>)
    reads n, n.partial, n.keys, n.children
  {
    && n.kids == kids && n.Layout() && FewestKids(n.kind) <= |kids|
    && d <= |pre| && n.Header(pre[d..])
  }

  /** A node that holds valid children is valid once they are recorded. */
  ghost method Seal(n: ArtNode, pre: Key, d: nat, kids: map<byte, Ptr>, tries: map<byte, Trie>, feet: Feet)
    requires Holds(n, pre, d, kids) && kids.Keys == tries.Keys == feet.Keys
    requires Apart(feet, n.Own()) && AllKids(kids, tries, feet, |pre| + 1)
    modifies n`trie, n`feet, n`Repr
    ensures Valid(N(n), d)
    ensures n.trie == Inner(pre, tries) && n.feet == feet && n.Repr == n.Own() + Union(feet)
  {
    hide ArtNode.Layout, Stored, AllKids, Apart;
    Record(n, Inner(pre, tries), feet, kids, tries, |pre| + 1);
    assert Shell(n, d);
  }

  /** The children `ks` with `p` put in at `b`. */
  lemma Join(ks: map<byte, Ptr>, ts: map<byte, Trie>, fs: Feet, d: nat, own: set<object>,
             b: byte, p: Ptr, t: Trie, f: set<object>)
    requires ks.Keys == ts.Keys == fs.Keys && Apart(fs, own)
    requires AllKids(ks - {b}, ts - {b}, fs - {b}, d) && Kid(p, t, d, f)
    requires f !! own && f !! Union(fs - {b})
    ensures AllKids(ks[b := p], ts[b := t], fs[b := f], d)
    ensures Apart(fs[b := f], own)
    ensures Union(fs[b := f]) == Union(fs - {b}) + f
    ensures ks[b := p].Keys == ts[b := t].Keys == fs[b := f].Keys
  {
    ApartUpdate(fs, own, b, f);
    UnionUpdate(fs, b, f);
    KidsJoin(ks, ts, fs, d, b, p, t, f);
  }

  lemma SameCount(kids: map<byte, Ptr>, b: byte, p: Ptr)
    requires b in kids
    ensures |kids[b := p]| == |kids|
  {
    assert kids[b := p].Keys == kids.Keys;
    assert |kids[b := p]| == |kids[b := p].Keys| && |kids| == |kids.Keys|;
  }

  /** A node whose child at `b` is being worked on. */
  ghost predicate Around(n: ArtNode, pre: Key, d: nat, ts: map<byte, Trie>, fs: Feet, b: byte)
    reads n, n.partial, n.keys, n.children, Union(fs - {b})
  {
    && Holds(n, pre, d, n.kids)
    && n.kids.Keys == ts.Keys == fs.Keys && b in n.kids && Apart(fs, n.Own())
    && AllKids(n.kids - {b}, ts - {b}, fs - {b}, |pre| + 1)
  }

  /** `*child = p`, and the parent is whole again. */
  method ReplaceKid(n: ArtNode, b: byte, slot: int, p: Ptr,
                    ghost pre: Key, ghost d: nat, ghost ts: map<byte, Trie>, ghost fs: Feet)
    requires Around(n, pre, d, ts, fs, b) && n.SlotFor(b, slot)
    requires p != Null && Kid(p, Model(p), |pre| + 1, Foot(p))
    requires Foot(p) !! n.Own() && Foot(p) !! Union(fs - {b})
    modifies n, n.children
    ensures Valid(N(n), d)
    ensures n.trie == Inner(pre, ts[b := old(Model(p))])
    ensures n.Repr == n.Own() + Union(fs - {b}) + old(Foot(p))
  {
    hide ArtNode.Layout, Stored, Apart, AllKids, Kid, Valid;
    ghost var ks, t, f := n.kids, Model(p), Foot(p);
    Join(ks, ts, fs, |pre| + 1, n.Own(), b, p, t, f);
    UnionApart(fs[b := f], n.Own());
    assert n !in Union(fs[b := f]) && n.children !in Union(fs[b := f]);
    SameCount(ks, b, p);
    n.SetSlot(b, slot, p);
    Seal(n, pre, d, ks[b := p], ts[b := t], fs[b := f]);
  }

  // ---------------------------------------------------------------- reading

  ghost function PairOf(l: ArtLeaf): Pair
    reads l
  {
    Pair(KeyOf(l), l.value)
  }

  lemma Child(n: ArtNode, d: nat, b: byte)
    requires Valid(N(n), d) && WellFormed(n.trie) && b in n.kids
    ensures b in n.trie.kids && Kid(n.kids[b], n.trie.kids[b], |n.trie.pre| + 1, n.feet[b])
    ensures n.feet[b] <= n.Repr && n.feet[b] !! n.Own()
    ensures WellFormed(n.trie.kids[b])
  {
    hide ArtNode.Layout, ArtNode.Header;
  }

  /**
    The path invariant, leaf by leaf: a key below the node, be it a tag cut short, reaches the branching
    byte, agrees with the whole compressed path and so with its stored bytes, and goes on to a child.
   */
  lemma PathInvariant(n: ArtNode, d: nat, k: Key)
    requires Valid(N(n), d) && WellFormed(n.trie) && k in Keys(n.trie)
    ensures d + n.partialLen < |k| && k[d + n.partialLen] in n.kids
    ensures AgreeFor(n.trie.pre[d..], k, d, n.partialLen)
    ensures n.partial.Length == 10 && forall i :: 0 <= i < Min(10, n.partialLen) ==> n.partial[..][i] == k[d + i]
  {
    hide ArtNode.Layout, AllKids, Apart, WellFormed, Keys;
    KeysExtendPrefix(n.trie, k);
    var path := n.trie.pre[d..];
    assert forall i :: 0 <= i < |path| ==> path[i] == n.trie.pre[d + i] == k[d + i];
  }

  /** `minimum`: the leaf that comes first in the traversal. */
  method Minimum(p: Ptr, ghost d: nat) returns (l: ArtLeaf)
    requires Valid(p, d) && WellFormed(Model(p))
    ensures {l} <= Foot(p) && l.keyLen <= |l.buf|
    ensures |InOrder(Model(p))| > 0 && PairOf(l) == InOrder(Model(p))[0]
    decreases Foot(p)
  {
    hide ArtNode.Header, WellFormed, Laid, Apart;
    match p
    case L(leaf) => l := leaf;
    case N(n) =>
      ghost var b;
      var q: Ptr;
      q, b := n.FirstChild();
      Child(n, d, b);
      FirstBelow(n.trie, b);
      l := Minimum(q, |n.trie.pre| + 1);
  }

  /** `maximum`: the leaf that comes last. */
  method Maximum(p: Ptr, ghost d: nat) returns (l: ArtLeaf)
    requires Valid(p, d) && WellFormed(Model(p))
    ensures {l} <= Foot(p) && l.keyLen <= |l.buf|
    ensures |InOrder(Model(p))| > 0 && PairOf(l) == InOrder(Model(p))[|InOrder(Model(p))| - 1]
    decreases Foot(p)
  {
    hide ArtNode.Header, WellFormed, Laid, Apart;
    match p
    case L(leaf) => l := leaf;
    case N(n) =>
      ghost var b;
      var q: Ptr;
      q, b := n.LastChild();
      Child(n, d, b);
      LastBelow(n.trie, b);
      l := Maximum(q, |n.trie.pre| + 1);
  }

  /**
    `check_prefix`: looks at ten bytes at most. Stopping early refutes the whole path; not
    stopping says nothing about a longer one.
   */
  method CheckPrefix(n: ArtNode, key: Key, depth: nat, ghost path: Key) returns (idx: nat)
    requires n.Header(path) && depth <= |key|
    ensures idx <= Min(MAX_PREFIX_LEN, |path|) && AgreeFor(path, key, depth, idx)
    ensures idx < Min(MAX_PREFIX_LEN, |path|) ==> !AgreeFor(path, key, depth, |path|)
    ensures idx < Min(MAX_PREFIX_LEN, |path|) && depth + idx < |key| ==> path[idx] != key[depth + idx]
  {
    var maxCmp := Min(Min(n.partialLen, MAX_PREFIX_LEN), |key| - depth);
    idx := 0;
    while idx < maxCmp && n.partial[idx] == key[depth + idx]
      invariant idx <= maxCmp
      invariant AgreeFor(path, key, depth, idx)
    {
      assert n.partial[..][idx] == path[idx];
      idx := idx + 1;
    }
    assert idx < maxCmp ==> n.partial[..][idx] == path[idx];
  }

  /** Comparing `key` with `pre` byte by byte from `depth` on. */
  ghost predicate Parted(pre: Key, key: Key, depth: nat, idx: nat) {
    && depth + idx <= |pre| && depth + idx <= |key|
    && (forall i :: depth <= i < depth + idx ==> pre[i] == key[i])
    && (depth + idx < |pre| && depth + idx < |key| ==> pre[depth + idx] != key[depth + idx])
  }

  lemma PartedLcp(pre: Key, key: Key, depth: nat, idx: nat)
    requires Parted(pre, key, depth, idx)
    ensures idx == Lcp(pre[depth..], key[depth..])
  {
    forall i | 0 <= i < idx ensures pre[depth..][i] == key[depth..][i] {
      assert pre[depth + i] == key[depth + i];
    }
    LcpUnique(pre[depth..], key[depth..], idx);
  }

  /** The second loop of `prefix_mismatch`: the bytes that are not stored come from a leaf below. */
  method LeafMismatch(l: ArtLeaf, key: Key, depth: nat, from: nat, ghost pre: Key) returns (idx: nat)
    requires l.keyLen <= |l.buf| && pre <= KeyOf(l) && depth <= |pre|
    requires depth + from <= |pre| && depth + from <= |key|
    requires forall i :: depth <= i < depth + from ==> pre[i] == key[i]
    ensures idx >= from
    ensures Parted(pre, key, depth, Min(idx, |pre| - depth))
  {
    idx := from;
    var maxCmp := Min(l.keyLen, |key|) - depth;
    while idx < maxCmp && l.buf[idx + depth] == key[depth + idx]
      invariant from <= idx <= maxCmp
      invariant forall i :: depth <= i < depth + idx && i < |pre| ==> pre[i] == key[i]
    {
      assert depth + idx < |pre| ==> pre[depth + idx] == KeyOf(l)[depth + idx];
      idx := idx + 1;
    }
    assert idx < maxCmp && depth + idx < |pre| ==> pre[depth + idx] == KeyOf(l)[depth + idx];
  }

  /**
    `prefix_mismatch`: the exact point at which `key` leaves the node's path, however long that
    is. A result beyond the end of the path (the callers cap it) means that the whole path agrees.
    Past the end of the key there is nothing to compare.
   */
  method PrefixMismatch(n: ArtNode, key: Key, depth: nat) returns (idx: nat)
    requires Valid(N(n), depth) && WellFormed(n.trie)
    ensures depth <= |n.trie.pre|
    ensures depth <= |key| ==> Min(idx, n.partialLen) == Lcp(n.trie.pre[depth..], key[depth..])
    ensures depth > |key| ==> idx == 0
  {
    hide ArtNode.Layout, AllKids, WellFormed;
    ghost var pre := n.trie.pre;
    if depth > |key| { return 0; }
    idx := CheckPrefix(n, key, depth, pre[depth..]);
    assert forall i :: depth <= i < depth + idx ==> pre[i] == pre[depth..][i - depth];
    if n.partialLen > MAX_PREFIX_LEN && idx == Min(MAX_PREFIX_LEN, |key| - depth) {
      var l := Minimum(N(n), depth);
      FirstExtends(n.trie);
      idx := LeafMismatch(l, key, depth, idx, pre);
      PartedLcp(pre, key, depth, Min(idx, |pre| - depth));
    } else {
      PartedLcp(pre, key, depth, idx);
    }
  }

  /** Bytes already known to agree need not be compared again. */
  lemma LcpDrop(pre: Key, key: Key, depth: nat)
    requires SamePath(pre, key, depth)
    ensures depth + Lcp(pre[depth..], key[depth..]) == Lcp(pre, key)
  {
    var m := Lcp(pre[depth..], key[depth..]);
    forall i | depth <= i < depth + m ensures pre[i] == key[i] {
      assert pre[i] == pre[depth..][i - depth] && key[i] == key[depth..][i - depth];
    }
    assert depth + m < |pre| && depth + m < |key| ==> pre[depth..][m] != key[depth..][m];
    LcpUnique(pre, key, depth + m);
  }

  lemma FirstExtends(t: Trie)
    requires WellFormed(t)
    ensures |InOrder(t)| > 0 && Prefix(t) <= InOrder(t)[0].key
  {
    InOrderSome(t);
    var x := InOrder(t)[0];
    InOrderEntry(t, x.key, x.value);
    EntryExtends(t, x.key);
  }

  // ---------------------------------------------------------------- search and lookup

  /** Every stored key is at most `n` bytes long. */
  ghost predicate AtMost(t: Trie, n: nat) {
    forall k | k in Keys(t) :: |k| <= n
  }

  lemma AtMostKid(t: Trie, n: nat, b: byte)
    requires t.Inner? && b in t.kids && AtMost(t, n)
    ensures AtMost(t.kids[b], n)
  {
    forall k | k in Keys(t.kids[b]) ensures |k| <= n { KidKey(t, b, k); }
  }

  lemma BranchInRange(t: Trie, n: nat)
    requires WellFormed(t) && t.Inner? && AtMost(t, n)
    ensures |t.pre| < n
  {
    var k := SomeKey(t);
    KeysExtendPrefix(t, k);
  }

  lemma OnPath(t: Trie, key: Key, d: nat)
    requires WellFormed(t) && t.Inner? && d <= |t.pre|
    ensures Holder(t, key).Some? ==> AgreeFor(t.pre[d..], key, d, |t.pre| - d)
  {
    if Holder(t, key).Some? {
      HolderLeaf(t, key);
      assert forall i :: 0 <= i < |t.pre| - d ==> t.pre[d..][i] == t.pre[d + i];
    }
  }

  /** The prefix test of the optimistic walks: at most ten bytes are compared, all are skipped. */
  method SkipPath(n: ArtNode, key: Key, d: nat) returns (on: bool, depth: nat)
    requires Valid(N(n), d) && WellFormed(n.trie) && |n.trie.pre| < |key|
    ensures on ==> depth == |n.trie.pre|
    ensures !on ==> Holder(n.trie, key).None?
  {
    hide ArtNode.Layout, WellFormed, AllKids, Apart;
    on, depth := true, d;
    if n.partialLen != 0 {
      var prefixLen := CheckPrefix(n, key, depth, n.trie.pre[d..]);
      on := prefixLen == Min(MAX_PREFIX_LEN, n.partialLen);
      OnPath(n.trie, key, d);
      depth := depth + n.partialLen;
    }
  }

  /** One step of such a walk: the child to go on with, or Null when it can stop. */
  method Step(n: ArtNode, key: Key, d: nat) returns (q: Ptr, depth: nat)
    requires Valid(N(n), d) && WellFormed(n.trie) && AtMost(n.trie, |key|)
    ensures q == Null ==> Holder(n.trie, key).None?
    ensures q != Null ==>
              && Foot(q) < n.Repr && Obj(q) <= n.Repr && depth == |n.trie.pre| + 1 && Valid(q, depth)
              && WellFormed(Model(q)) && AtMost(Model(q), |key|)
              && Holder(Model(q), key) == Holder(n.trie, key)
  {
    hide ArtNode.Layout, ArtNode.Header, WellFormed, AllKids, Apart, AtMost;
    BranchInRange(n.trie, |key|);
    var on;
    on, depth := SkipPath(n, key, d);
    if !on { return Null, depth; }
    var slot := n.FindChild(key[depth]);
    if slot < 0 { return Null, depth; }
    Child(n, d, key[depth]);
    AtMostKid(n.trie, |key|, key[depth]);
    q, depth := n.children[slot], depth + 1;
  }

  // ---------------------------------------------------------------- forks

  /** A NODE4 whose path is `key[depth..depth + len]`. */
  method ForkFromKey(key: Key, depth: nat, len: nat) returns (r: ArtNode)
    requires depth + len <= |key|
    ensures fresh(r.Own()) && r.kind.Node4? && r.Layout() && r.kids == map[]
    ensures r.Header(key[..depth + len][depth..])
  {
    hide ArtNode.Layout;
    r := new ArtNode(Node4);
    r.partialLen := len;
    forall i | 0 <= i < Min(MAX_PREFIX_LEN, len) { r.partial[i] := key[depth + i]; }
  }

  /** A NODE4 whose path is the first `len` bytes of the path of `n`. */
  method ForkFromNode(n: ArtNode, len: nat, ghost path: Key) returns (r: ArtNode)
    requires n.Header(path) && len < |path|
    ensures fresh(r.Own()) && r.kind.Node4? && r.Layout() && r.kids == map[]
    ensures r.Header(path[..len])
  {
    hide ArtNode.Layout;
    r := new ArtNode(Node4);
    r.partialLen := len;
    CopyFirst(r.partial, n.partial, Min(MAX_PREFIX_LEN, len));
    assert forall i :: 0 <= i < Min(MAX_PREFIX_LEN, len) ==> r.partial[i] == n.partial[..][i];
  }

  /** Both prongs of a fork. */
  method Prongs(r: ArtNode, ka: byte, a: Ptr, kb: byte, b: Ptr, ghost pre: Key, ghost d: nat)
    requires r.kind.Node4? && r.Layout() && r.kids == map[] && d <= |pre| && r.Header(pre[d..])
    requires ka != kb && a != Null && b != Null
    modifies r`numChildren, r`kids, r.keys, r.children
    ensures Holds(r, pre, d, Two(ka, a, kb, b))
  {
    hide ArtNode.Layout, ArtNode.Header;
    var s := r.AddChild4(ka, a, pre[d..]);
    s := r.AddChild4(kb, b, pre[d..]);
    assert r.kids == Two(ka, a, kb, b);
  }

  lemma ProngsApart(ka: byte, fa: set<object>, kb: byte, fb: set<object>, own: set<object>)
    requires ka != kb && fa !! fb && fa !! own && fb !! own
    ensures Apart(Two(ka, fa, kb, fb), own)
    ensures Union(Two(ka, fa, kb, fb)) == fa + fb
  {
    var feet := Two(ka, fa, kb, fb);
    forall o | o in fa + fb ensures o in Union(feet) {
      assert if o in fa then o in feet[ka] else o in feet[kb];
    }
  }

  lemma ProngsKids(ka: byte, a: Ptr, ta: Trie, fa: set<object>, kb: byte, b: Ptr, tb: Trie, fb: set<object>, d: nat)
    requires ka != kb && Kid(a, ta, d, fa) && Kid(b, tb, d, fb)
    ensures AllKids(Two(ka, a, kb, b), Two(ka, ta, kb, tb), Two(ka, fa, kb, fb), d)
  {
    hide Kid;
    var kids, tries, feet := Two(ka, a, kb, b), Two(ka, ta, kb, tb), Two(ka, fa, kb, fb);
    assert kids.Keys == tries.Keys == feet.Keys == {ka, kb};
  }

  method Fork(r: ArtNode, ka: byte, a: Ptr, kb: byte, b: Ptr, ghost pre: Key, ghost d: nat,
              ghost ta: Trie, ghost fa: set<object>, ghost tb: Trie, ghost fb: set<object>)
    requires r.kind.Node4? && r.Layout() && r.kids == map[] && d <= |pre| && r.Header(pre[d..])
    requires ka != kb && a != Null && b != Null
    requires Kid(a, ta, |pre| + 1, fa) && Kid(b, tb, |pre| + 1, fb)
    requires fa !! fb && fa !! r.Own() && fb !! r.Own()
    modifies r, r.keys, r.children
    ensures Valid(N(r), d)
    ensures r.trie == Inner(pre, Two(ka, ta, kb, tb))
    ensures r.Repr == r.Own() + fa + fb
  {
    hide ArtNode.Layout, ArtNode.Header, Kid, Valid, AllKids, Apart;
    ghost var kids, tries, feet := Two(ka, a, kb, b), Two(ka, ta, kb, tb), Two(ka, fa, kb, fb);
    ProngsKids(ka, a, ta, fa, kb, b, tb, fb, |pre| + 1);
    ProngsApart(ka, fa, kb, fb, r.Own());
    assert r !in Union(feet) && r.keys !in Union(feet) && r.children !in Union(feet);
    Prongs(r, ka, a, kb, b, pre, d);
    assert kids.Keys == tries.Keys == feet.Keys == {ka, kb};
    Seal(r, pre, d, kids, tries, feet);
  }

  /** Drop the first `diff + 1` bytes of a path that is stored in full: shift the buffer. */
  method ShiftPath(n: ArtNode, diff: nat, ghost path: Key) returns (edge: byte)
    requires n.Header(path) && diff < |path| <= MAX_PREFIX_LEN
    modifies n`partialLen, n.partial
    ensures edge == path[diff] && n.Header(path[diff + 1..])
  {
    ghost var was := n.partial[..];
    edge := n.partial[diff];
    n.partialLen := n.partialLen - (diff + 1);
    forall i | 0 <= i < Min(MAX_PREFIX_LEN, n.partialLen) { n.partial[i] := n.partial[diff + 1 + i]; }
    SplitLowerShort(was, path, diff, n.partial[..]);
  }

  /** Drop them from a longer path: refill the buffer from a leaf below. */
  method RefillPath(n: ArtNode, l: ArtLeaf, depth: nat, diff: nat, ghost path: Key) returns (edge: byte)
    requires n.Header(path) && diff < |path| && l.keyLen <= |l.buf|
    requires AgreeFor(path, KeyOf(l), depth, |path|)
    modifies n`partialLen, n.partial
    ensures edge == path[diff] && n.Header(path[diff + 1..])
  {
    ghost var leafKey := KeyOf(l);
    n.partialLen := n.partialLen - (diff + 1);
    edge := l.buf[depth + diff];
    forall i | 0 <= i < Min(MAX_PREFIX_LEN, n.partialLen) { n.partial[i] := l.buf[depth + diff + 1 + i]; }
    SplitLowerLong(path, diff, leafKey, depth, n.partial[..]);
  }

  /** What a change to a node's stored path leaves alone. */
  lemma Rehang(n: ArtNode, d: nat, m: nat)
    requires Made(n) && n.Layout() && FewestKids(n.kind) <= |n.kids|
    requires n.trie.Inner? && m <= |n.trie.pre| && n.Header(n.trie.pre[m..])
    requires n.trie.kids.Keys == n.kids.Keys
    requires AllKids(n.kids, n.trie.kids, n.feet, |n.trie.pre| + 1)
    ensures Valid(N(n), m)
  {
    hide ArtNode.Layout, AllKids, Apart, Stored;
  }

  /** Hang a node `diff + 1` bytes further down its own path. */
  method Chop(n: ArtNode, depth: nat, diff: nat) returns (edge: byte)
    requires Valid(N(n), depth) && WellFormed(n.trie) && diff < n.partialLen
    modifies n`partialLen, n.partial
    ensures depth + diff < |n.trie.pre| && edge == n.trie.pre[depth + diff]
    ensures Valid(N(n), depth + diff + 1)
  {
    hide ArtNode.Layout, AllKids, WellFormed, Apart;
    ghost var pre, path := n.trie.pre, n.trie.pre[depth..];
    assert path[diff + 1..] == pre[depth + diff + 1..];
    UnionApart(n.feet, n.Own());
    assert n !in Union(n.feet) && n.partial !in Union(n.feet);
    if n.partialLen <= MAX_PREFIX_LEN {
      edge := ShiftPath(n, diff, path);
    } else {
      var l := Minimum(N(n), depth);
      FirstExtends(n.trie);
      edge := RefillPath(n, l, depth, diff, path);
    }
    Rehang(n, depth, depth + diff + 1);
  }

  lemma LeafKid(l: ArtLeaf, d: nat)
    requires l.keyLen <= |l.buf|
    ensures Kid(L(l), Leaf(KeyOf(l), l.value), d, {l})
  {
  }

  lemma NodeKid(n: ArtNode, d: nat)
    requires Valid(N(n), d)
    ensures Kid(N(n), n.trie, d, n.Repr)
  {
    hide ArtNode.Layout, ArtNode.Header, AllKids, Apart;
  }

  /** `make_leaf`. */
  method MakeLeaf(key: Key, value: Option<Handle>, ghost d: nat) returns (l: ArtLeaf)
    ensures fresh(l) && KeyOf(l) == key && l.value == value && l.keyLen == |l.buf|
    ensures Kid(L(l), Leaf(key, value), d, {l})
  {
    l := new ArtLeaf(key, value);
    assert l.buf[..l.keyLen] == key;
  }

  lemma SplitMap(t: Trie, key: Key, value: Option<Handle>, m: nat)
    requires Diverge(Prefix(t), key) && m == Lcp(Prefix(t), key)
    ensures m < |key| && m < |Prefix(t)| && Prefix(t)[m] != key[m]
    ensures Split(t, key, value)
         == Inner(key[..m], Two(Prefix(t)[m], t, key[m], Leaf(key, value)))
    ensures Prefix(t)[..m] == key[..m]
  {
    LcpWhole(Prefix(t), key);
    TakeAgrees(Prefix(t), key, m);
  }

  /** A new NODE4 takes the first `diff` bytes of the path of `n`, and `n` is hung below it. */
  method Part(n: ArtNode, depth: nat, diff: nat) returns (r: ArtNode, edge: byte)
    requires Valid(N(n), depth) && WellFormed(n.trie) && diff < n.partialLen
    modifies n`partialLen, n.partial
    ensures depth + diff < |n.trie.pre| && edge == n.trie.pre[depth + diff]
    ensures Kid(N(n), n.trie, depth + diff + 1, n.Repr)
    ensures fresh(r.Own()) && r.kind.Node4? && r.Layout() && r.kids == map[]
    ensures r.Header(n.trie.pre[..depth + diff][depth..])
  {
    hide ArtNode.Layout, WellFormed, Kid, AllKids, Apart, Stored;
    PathLength(n, depth);
    r := ForkFromNode(n, diff, n.trie.pre[depth..]);
    edge := Chop(n, depth, diff);
    NodeKid(n, depth + diff + 1);
    assert n.trie.pre[depth..][..diff] == n.trie.pre[..depth + diff][depth..];
  }

  /** The spot where a key leaves the path of a node: a fork above it, with a new leaf. */
  method SplitNode(n: ArtNode, key: Key, value: Option<Handle>, depth: nat, diff: nat) returns (r: ArtNode)
    requires Valid(N(n), depth) && WellFormed(n.trie)
    requires Diverge(n.trie.pre, key) && depth + diff == Lcp(n.trie.pre, key)
    modifies n`partialLen, n.partial
    ensures Valid(N(r), depth) && r.trie == Split(old(n.trie), key, value)
    ensures fresh(r.Repr - old(n.Repr))
  {
    hide ArtNode.Layout, ArtNode.Header, WellFormed, Kid, Diverge, Split, Valid;
    PathLength(n, depth);
    ghost var t, m := n.trie, depth + diff;
    SplitMap(t, key, value, m);
    var edge;
    r, edge := Part(n, depth, diff);
    var l := MakeLeaf(key, value, m + 1);
    Fork(r, edge, N(n), key[depth + diff], L(l), key[..m], depth, t, n.Repr, Leaf(key, value), {l});
  }

  lemma PathLength(n: ArtNode, d: nat)
    requires Valid(N(n), d)
    ensures n.trie.Inner? && d <= |n.trie.pre| && n.partialLen == |n.trie.pre| - d
    ensures n.Header(n.trie.pre[d..]) && n.Own() <= n.Repr && n.partial != n.keys
  {
    hide ArtNode.Layout, AllKids, Apart;
  }

  /** The first `depth` bytes agree. */
  ghost predicate SamePath(pre: Key, key: Key, depth: nat) {
    depth <= |pre| && depth <= |key| && forall i :: 0 <= i < depth ==> pre[i] == key[i]
  }

  /** `longest_common_prefix` of two leaves, from `depth` on. */
  method LongestCommonPrefix(a: Key, b: Key, depth: nat) returns (idx: nat)
    requires SamePath(a, b, depth)
    ensures depth + idx == Lcp(a, b)
  {
    var maxCmp := Min(|a|, |b|) - depth;
    idx := 0;
    while idx < maxCmp && a[depth + idx] == b[depth + idx]
      invariant idx <= maxCmp
      invariant forall i :: 0 <= i < depth + idx ==> a[i] == b[i]
    {
      idx := idx + 1;
    }
    LcpUnique(a, b, depth + idx);
  }

  /** The same for a leaf: a fork above it and a new leaf. */
  method SplitLeaf(l: ArtLeaf, key: Key, value: Option<Handle>, depth: nat) returns (r: ArtNode)
    requires l.keyLen <= |l.buf| && Diverge(KeyOf(l), key) && SamePath(KeyOf(l), key, depth)
    ensures Valid(N(r), depth) && r.trie == Split(Leaf(KeyOf(l), l.value), key, value)
    ensures fresh(r.Repr - {l})
  {
    hide ArtNode.Layout, ArtNode.Header, Kid, Diverge, Split, Valid;
    var len := LongestCommonPrefix(l.buf[..l.keyLen], key, depth);
    ghost var t, m := Leaf(KeyOf(l), l.value), depth + len;
    SplitMap(t, key, value, m);
    r := ForkFromKey(key, depth, len);
    var l2 := MakeLeaf(key, value, m + 1);
    ForkLeaves(r, l, l2, key, depth, len, t, Leaf(key, value));
  }

  method ForkLeaves(r: ArtNode, l: ArtLeaf, l2: ArtLeaf, key: Key, depth: nat, len: nat, ghost t: Trie, ghost t2: Trie)
    requires l.keyLen <= |l.buf| && depth + len < l.keyLen && depth + len < |key|
    requires l.buf[depth + len] != key[depth + len]
    requires t == Leaf(KeyOf(l), l.value) && Kid(L(l2), t2, depth + len + 1, {l2}) && l != l2
    requires r.kind.Node4? && r.Layout() && r.kids == map[] && r.Header(key[..depth + len][depth..])
    modifies r, r.keys, r.children
    ensures Valid(N(r), depth)
    ensures r.trie == Inner(key[..depth + len], Two(l.buf[depth + len], t, key[depth + len], t2))
    ensures r.Repr == r.Own() + {l} + {l2}
  {
    hide ArtNode.Layout, ArtNode.Header, Kid, Valid;
    LeafKid(l, depth + len + 1);
    Fork(r, l.buf[depth + len], L(l), key[depth + len], L(l2), key[..depth + len], depth, t, {l}, t2, {l2});
  }

  // ---------------------------------------------------------------- a new child

  lemma Without(kids: map<byte, Ptr>, tries: map<byte, Trie>, feet: Feet, d: nat, b: byte)
    requires AllKids(kids, tries, feet, d) && b !in kids
    ensures AllKids(kids - {b}, tries - {b}, feet - {b}, d)
    ensures Union(feet - {b}) == Union(feet)
  {
    hide Kid;
    assert kids - {b} == kids && tries - {b} == tries && feet - {b} == feet;
  }

  lemma ApartFrom(feet: Feet, own: set<object>, own': set<object>)
    requires Apart(feet, own) && Union(feet) !! own'
    ensures Apart(feet, own')
  {
    forall b | b in feet ensures feet[b] !! own' { assert feet[b] <= Union(feet); }
  }

  /** Store a child that is not there yet; the layout may grow, so the node may move. */
  method AddKid(n: ArtNode, b: byte, p: Ptr, ghost d: nat, ghost t: Trie, ghost f: set<object>) returns (r: ArtNode)
    requires Valid(N(n), d) && b !in n.kids && p != Null
    requires Kid(p, t, |n.trie.pre| + 1, f) && f !! n.Repr
    modifies n, n.keys, n.children
    ensures Valid(N(r), d) && r.trie == Inner(old(n.trie.pre), old(n.trie.kids)[b := t])
    ensures fresh(r.Repr - old(n.Repr) - f)
  {
    hide ArtNode.Layout, ArtNode.Header, Kid, AllKids, Apart;
    ghost var pre, ks, ts, fs := n.trie.pre, n.kids, n.trie.kids, n.feet;
    ghost var ks', ts', fs' := ks[b := p], ts[b := t], fs[b := f];
    Without(ks, ts, fs, |pre| + 1, b);
    Join(ks, ts, fs, |pre| + 1, n.Own(), b, p, t, f);
    UnionApart(fs', n.Own());
    assert n !in Union(fs') && n.keys !in Union(fs') && n.children !in Union(fs');
    assert |ks'| == |ks| + 1;
    r := n.AddChild(b, p, pre[d..]);
    if r != n { ApartFrom(fs', n.Own(), r.Own()); }
    Seal(r, pre, d, ks', ts', fs');
  }

  // ---------------------------------------------------------------- working on one child

  lemma PtrKid(p: Ptr, d: nat)
    requires Valid(p, d)
    ensures p != Null && Kid(p, Model(p), d, Foot(p))
  {
    hide ArtNode.Layout, ArtNode.Header, AllKids, Apart;
  }

  lemma FootApart(feet: Feet, own: set<object>, b: byte)
    requires Apart(feet, own) && b in feet
    ensures feet[b] !! own && feet[b] !! Union(feet - {b})
    ensures Union(feet - {b}) !! own
    ensures feet[b] + Union(feet - {b}) == Union(feet)
  {
    forall c, o | c in feet - {b} && o in (feet - {b})[c] ensures o !in feet[b] && o !in own {
      assert (feet - {b})[c] == feet[c];
    }
    UnionUpdate(feet, b, feet[b]);
    assert feet[b := feet[b]] == feet;
  }

  /** Set one child apart: it can be changed without touching what `Around` says. */
  lemma Open(n: ArtNode, d: nat, b: byte)
    requires Valid(N(n), d) && WellFormed(n.trie) && b in n.kids
    ensures b in n.trie.kids && b in n.feet
    ensures n.kids[b] != Null && Valid(n.kids[b], |n.trie.pre| + 1)
    ensures Model(n.kids[b]) == n.trie.kids[b] && Foot(n.kids[b]) == n.feet[b]
    ensures Around(n, n.trie.pre, d, n.trie.kids, n.feet, b)
    ensures WellFormed(n.trie.kids[b]) && Below(n.trie.pre, b, Prefix(n.trie.kids[b]))
    ensures n.feet[b] !! n.Own() && n.feet[b] !! Union(n.feet - {b}) && Union(n.feet - {b}) !! n.Own()
    ensures n.Repr == n.Own() + Union(n.feet - {b}) + n.feet[b]
  {
    hide ArtNode.Layout, Stored, Below, Prefix;
    KidsSplit(n.kids, n.trie.kids, n.feet, |n.trie.pre| + 1, b);
    FootApart(n.feet, n.Own(), b);
  }

  // ---------------------------------------------------------------- insert

  method InsertAtLeaf(l: ArtLeaf, key: Key, v: Handle, depth: nat)
    returns (r: Ptr, was: bool, previous: Option<Handle>)
    requires l.keyLen <= |l.buf| && Insertable(Leaf(KeyOf(l), l.value), key)
    requires SamePath(KeyOf(l), key, depth)
    modifies l`value
    ensures Valid(r, depth) && Model(r) == Insert(old(Leaf(KeyOf(l), l.value)), key, v)
    ensures fresh(Foot(r) - {l})
    ensures was <==> KeyOf(l) == key
    ensures previous == if was then old(l.value) else None
  {
    InsertCases(Leaf(KeyOf(l), l.value), key);
    if l.keyLen == |key| && l.buf[..l.keyLen] == key {
      was, previous := true, l.value;
      l.value := Some(v);
      r := L(l);
    } else {
      hide Valid;
      was, previous := false, None;
      var n := SplitLeaf(l, key, Some(v), depth);
      r := N(n);
    }
  }

  lemma LeafEntry(l: ArtLeaf, key: Key)
    ensures Entry(Leaf(KeyOf(l), l.value), key) == if KeyOf(l) == key then Some(l.value) else None
  {
  }

  /** `recursive_insert`; `r` is what the original writes through `ref`. */
  method InsertInto(p: Ptr, key: Key, v: Handle, depth: nat)
    returns (r: Ptr, was: bool, previous: Option<Handle>)
    requires Valid(p, depth) && WellFormed(Model(p)) && Insertable(Model(p), key)
    requires SamePath(Prefix(Model(p)), key, depth)
    modifies Foot(p)
    ensures Valid(r, depth) && Model(r) == Insert(old(Model(p)), key, v)
    ensures fresh(Foot(r) - old(Foot(p)))
    ensures was <==> Entry(old(Model(p)), key).Some?
    ensures previous == if was then Entry(old(Model(p)), key).value else None
    decreases Foot(p), 3
  {
    hide ArtNode.Layout, ArtNode.Header, WellFormed, Kid, AllKids, Made, Insertable, Insert, Entry;
    match p
    case L(l) => LeafEntry(l, key); r, was, previous := InsertAtLeaf(l, key, v, depth);
    case N(n) => r, was, previous := InsertAtNode(n, key, v, depth);
  }

  /** `prefix_mismatch`, capped at the length of the path, when the bytes above are known to agree. */
  method Matched(n: ArtNode, key: Key, depth: nat) returns (len: nat)
    requires Valid(N(n), depth) && WellFormed(n.trie) && SamePath(n.trie.pre, key, depth)
    ensures depth + len == Lcp(n.trie.pre, key)
    ensures len == n.partialLen <==> n.trie.pre <= key
    ensures len == |key| - depth <==> key <= n.trie.pre
    ensures len <= n.partialLen && len <= |key| - depth
    ensures Valid(N(n), depth)
  {
    hide ArtNode.Layout, ArtNode.Header, WellFormed, Kid, AllKids, Apart;
    PathLength(n, depth);
    len := PrefixMismatch(n, key, depth);
    if len > n.partialLen { len := n.partialLen; }
    LcpDrop(n.trie.pre, key, depth);
    LcpWhole(n.trie.pre, key);
  }

  /** Whether, and where, `key` leaves the path of `n`. */
  method LeavesPath(n: ArtNode, key: Key, depth: nat) returns (leaves: bool, diff: nat)
    requires Valid(N(n), depth) && WellFormed(n.trie) && SamePath(n.trie.pre, key, depth)
    ensures leaves <==> !(n.trie.pre <= key)
    ensures leaves ==> depth + diff == Lcp(n.trie.pre, key)
    ensures depth + n.partialLen == |n.trie.pre|
    ensures Valid(N(n), depth)
  {
    hide ArtNode.Layout, ArtNode.Header, WellFormed, Kid, AllKids, Apart, Lcp;
    PathLength(n, depth);
    leaves, diff := false, 0;
    if n.partialLen != 0 {
      diff := Matched(n, key, depth);
      leaves := diff < n.partialLen;
    }
  }

  method InsertAtNode(n: ArtNode, key: Key, v: Handle, depth: nat)
    returns (r: Ptr, was: bool, previous: Option<Handle>)
    requires Valid(N(n), depth) && WellFormed(n.trie) && Insertable(n.trie, key)
    requires SamePath(n.trie.pre, key, depth)
    modifies n.Repr
    ensures Valid(r, depth) && Model(r) == Insert(old(n.trie), key, v)
    ensures fresh(Foot(r) - old(n.Repr))
    ensures was <==> Entry(old(n.trie), key).Some?
    ensures previous == if was then Entry(old(n.trie), key).value else None
    decreases n.Repr, 2
  {
    hide ArtNode.Layout, ArtNode.Header, WellFormed, Insertable, Valid, Entry, Insert, Split;
    PathLength(n, depth);
    InsertCases(n.trie, key);
    var leaves, diff := LeavesPath(n, key, depth);
    if leaves {
      InsertLeaves(n.trie, key, v);
      var s := SplitNode(n, key, Some(v), depth, diff);
      return N(s), false, None;
    }
    r, was, previous := InsertChild(n, key, v, depth);
  }

  lemma InsertLeaves(t: Trie, key: Key, v: Handle)
    requires WellFormed(t) && Insertable(t, key) && t.Inner? && !(t.pre <= key)
    ensures Diverge(t.pre, key) && Insert(t, key, v) == Split(t, key, Some(v))
    ensures Entry(t, key).None?
  {
    hide WellFormed, Insertable;
    InsertCases(t, key);
    if Entry(t, key).Some? { EntryExtends(t, key); }
  }

  /** The end of `recursive_insert`, when the whole path agrees. */
  method InsertChild(n: ArtNode, key: Key, v: Handle, depth: nat)
    returns (r: Ptr, was: bool, previous: Option<Handle>)
    requires Valid(N(n), depth) && WellFormed(n.trie) && Insertable(n.trie, key)
    requires n.trie.pre < key
    modifies n.Repr
    ensures Valid(r, depth) && Model(r) == Insert(old(n.trie), key, v)
    ensures fresh(Foot(r) - old(n.Repr))
    ensures was <==> Entry(old(n.trie), key).Some?
    ensures previous == if was then Entry(old(n.trie), key).value else None
    decreases n.Repr, 1
  {
    hide ArtNode.Layout, ArtNode.Header, WellFormed, Kid, AllKids, Apart, Insertable;
    ghost var t, pre, b := n.trie, n.trie.pre, key[|n.trie.pre|];
    PathLength(n, depth);
    var at := depth + n.partialLen;
    var slot := n.FindChild(key[at]);
    if slot >= 0 {
      was, previous := InsertBelow(n, key[at], slot, key, v, at, depth);
      r := N(n);
    } else {
      var l := MakeLeaf(key, Some(v), at + 1);
      var s := AddKid(n, key[at], L(l), depth, Leaf(key, Some(v)), {l});
      r, was, previous := N(s), false, None;
    }
  }

  lemma InsertStep(t: Trie, key: Key, v: Handle, b: byte)
    requires WellFormed(t) && Insertable(t, key)
    requires t.Inner? && t.pre < key && key[|t.pre|] == b && b in t.kids && Insertable(t.kids[b], key)
    ensures Insert(t, key, v) == Inner(t.pre, t.kids[b := Insert(t.kids[b], key, v)])
    ensures Entry(t, key) == Entry(t.kids[b], key)
  {
    hide WellFormed, Insertable;
  }

  /** Insert into the child at `b`, and store what comes back in its slot. */
  method InsertBelow(n: ArtNode, b: byte, slot: int, key: Key, v: Handle, at: nat, ghost d: nat)
    returns (was: bool, previous: Option<Handle>)
    requires Valid(N(n), d) && WellFormed(n.trie) && Insertable(n.trie, key)
    requires n.trie.pre < key && at == |n.trie.pre| && key[at] == b && b in n.kids
    requires n.SlotFor(b, slot) && n.children[slot] == n.kids[b]
    modifies n.Repr
    ensures Valid(N(n), d) && n.trie == Insert(old(n.trie), key, v)
    ensures fresh(n.Repr - old(n.Repr))
    ensures was <==> Entry(old(n.trie), key).Some?
    ensures previous == if was then Entry(old(n.trie), key).value else None
    decreases n.Repr, 0
  {
    hide ArtNode.Layout, ArtNode.Header, WellFormed, AllKids, Apart, Insertable, Around, Insert, Entry, Kid, Valid;
    PathLength(n, d);
    ghost var t, pre, ts, fs := n.trie, n.trie.pre, n.trie.kids, n.feet;
    Open(n, d, b);
    InsertableKid(t, key, b);
    InsertStep(t, key, v, b);
    var q;
    q, was, previous := InsertInto(n.children[slot], key, v, at + 1);
    PtrKid(q, at + 1);
    ReplaceKid(n, b, slot, q, pre, d, ts, fs);
  }

  // ---------------------------------------------------------------- delete

  lemma UnionMinus(feet: Feet, own: set<object>, b: byte)
    requires Apart(feet, own)
    ensures Apart(feet - {b}, own) && Union(feet - {b}) <= Union(feet)
  {
    var rest := feet - {b};
    forall c | c in rest ensures rest[c] == feet[c] {}
  }

  /** `remove_child` for NODE16, NODE48 and NODE256; the layout may shrink, so the node may move. */
  method RemoveLarge(n: ArtNode, b: byte, slot: int, ghost d: nat) returns (r: Ptr)
    requires Valid(N(n), d) && WellFormed(n.trie) && b in n.kids && !n.kind.Node4? && n.SlotFor(b, slot)
    modifies n, n.keys, n.children
    ensures r != Null && Valid(r, d) && b in old(n.trie).kids && Model(r) == DropKid(old(n.trie), b)
    ensures fresh(Foot(r) - old(n.Repr))
  {
    hide ArtNode.Layout, ArtNode.Header, ArtNode.SlotFor, Kid, AllKids, Apart, WellFormed, Below, Valid, DropKid;
    PathLength(n, d);
    Open(n, d, b);
    UnionMinus(n.feet, n.Own(), b);
    KidsMinus(n.kids, b);
    DropOneOfMany(n.trie, n.kids, b);
    ghost var t, pre, ks, ts, fs := n.trie, n.trie.pre, n.kids - {b}, n.trie.kids - {b}, n.feet - {b};
    assert n !in Union(fs) && n.keys !in Union(fs) && n.children !in Union(fs);
    assert ks.Keys == ts.Keys == fs.Keys;
    var s := n.RemoveChildLarge(b, slot, pre[d..]);
    if s != n { ApartFrom(fs, n.Own(), s.Own()); }
    Seal(s, pre, d, ks, ts, fs);
    r := N(s);
  }

  lemma DropOneOfMany(t: Trie, kids: map<byte, Ptr>, b: byte)
    requires t.Inner? && b in t.kids && t.kids.Keys == kids.Keys && |kids| >= 3
    ensures DropKid(t, b) == Inner(t.pre, t.kids - {b})
  {
    SameSize(kids, t.kids);
    DropKidCount(t.kids, b);
  }

  lemma SameSize(kids: map<byte, Ptr>, tries: map<byte, Trie>)
    requires kids.Keys == tries.Keys
    ensures |kids| == |tries|
  {
    assert |kids| == |kids.Keys| && |tries| == |tries.Keys|;
  }

  /** The child of a collapsing node4 takes over its path and its slot. */
  method Promote(n: ArtNode, c: byte, m: ArtNode, ghost pre: Key, ghost d: nat)
    requires d <= |pre| && n.Header(pre[d..]) && n.keys.Length > 0 && n.keys[0] == c
    requires Valid(N(m), |pre| + 1) && Below(pre, c, m.trie.pre)
    requires n.Own() !! m.Repr
    modifies n.partial, m`partialLen, m.partial
    ensures Valid(N(m), d)
  {
    hide ArtNode.Layout, AllKids, Apart, Stored, Kid;
    UnionApart(m.feet, m.Own());
    assert m !in Union(m.feet) && m.partial !in Union(m.feet) && n.partial !in Union(m.feet);
    n.Absorb(m, pre[d..], m.trie.pre[|pre| + 1..]);
    assert pre[d..] + [c] + m.trie.pre[|pre| + 1..] == m.trie.pre[d..];
    Rehang(m, |pre| + 1, d);
  }

  /** `remove_child4`. */
  method RemoveSmall(n: ArtNode, b: byte, slot: int, ghost d: nat) returns (r: Ptr)
    requires Valid(N(n), d) && WellFormed(n.trie) && b in n.kids && n.kind.Node4? && n.SlotFor(b, slot)
    modifies n.Repr
    ensures r != Null && Valid(r, d) && b in old(n.trie).kids && Model(r) == DropKid(old(n.trie), b)
    ensures fresh(Foot(r) - old(n.Repr))
  {
    hide ArtNode.Layout, ArtNode.Header, Kid, AllKids, Apart, WellFormed, Below, Valid;
    PathLength(n, d);
    Open(n, d, b);
    UnionMinus(n.feet, n.Own(), b);
    KidsMinus(n.kids, b);
    DropKidCount(n.trie.kids, b);
    SameSize(n.kids, n.trie.kids);
    ghost var t, pre, ks, ts, fs := n.trie, n.trie.pre, n.kids - {b}, n.trie.kids - {b}, n.feet - {b};
    assert n !in Union(fs) && n.keys !in Union(fs) && n.children !in Union(fs);
    assert ks.Keys == ts.Keys == fs.Keys;
    KidsBelow(t, b);
    n.TakeAt(b, slot);
    if n.numChildren == 1 {
      r := Collapse(n, pre, d, ks, ts, fs);
    } else {
      Seal(n, pre, d, ks, ts, fs);
      r := N(n);
    }
  }

  lemma KidsBelow(t: Trie, b: byte)
    requires WellFormed(t) && t.Inner?
    ensures forall c | c in t.kids - {b} :: Below(t.pre, c, Prefix((t.kids - {b})[c]))
  {
    hide Below, Prefix;
  }

  lemma PickKid(kids: map<byte, Ptr>, tries: map<byte, Trie>, feet: Feet, d: nat, b: byte)
    requires AllKids(kids, tries, feet, d) && b in tries
    ensures kids.Keys == tries.Keys == feet.Keys
    ensures kids[b] != Null && Valid(kids[b], d) && Model(kids[b]) == tries[b]
    ensures Foot(kids[b]) == feet[b] && Obj(kids[b]) <= feet[b] && feet[b] <= Union(feet)
  {
    hide Valid;
    assert Kid(kids[b], tries[b], d, feet[b]);
  }

  method Collapse(n: ArtNode, ghost pre: Key, ghost d: nat,
                  ghost ks: map<byte, Ptr>, ghost ts: map<byte, Trie>, ghost fs: Feet) returns (r: Ptr)
    requires n.kind.Node4? && n.kids == ks && n.Layout() && |ks| == 1 && d <= |pre| && n.Header(pre[d..])
    requires AllKids(ks, ts, fs, |pre| + 1) && Union(fs) !! n.Own()
    requires |ts| == 1 && forall c | c in ts :: Below(pre, c, Prefix(ts[c]))
    modifies n.partial, Union(fs)
    ensures r != Null && Valid(r, d) && Model(r) == ts[SoleByte(ts)] && Foot(r) <= Union(fs)
  {
    hide ArtNode.Layout, ArtNode.Header, Apart, Below, AllKids, Kid, Union;
    PickKid(ks, ts, fs, |pre| + 1, SoleByte(ts));
    var c;
    r, c := n.SoleChild();
    assert c in {SoleByte(ts)};
    match r
    case L(_) =>
    case N(m) => Promote(n, c, m, pre, d);
  }

  method RemoveChild(n: ArtNode, b: byte, slot: int, ghost d: nat) returns (r: Ptr)
    requires Valid(N(n), d) && WellFormed(n.trie) && b in n.kids && n.SlotFor(b, slot)
    modifies n.Repr
    ensures r != Null && Valid(r, d) && b in old(n.trie).kids && Model(r) == DropKid(old(n.trie), b)
    ensures fresh(Foot(r) - old(n.Repr))
  {
    hide ArtNode.Layout, ArtNode.Header, WellFormed, AllKids, Apart, DropKid;
    PathLength(n, d);
    match n.kind {
      case Node4 => r := RemoveSmall(n, b, slot, d);
      case Node16 => r := RemoveLarge(n, b, slot, d);
      case Node48 => r := RemoveLarge(n, b, slot, d);
      case Node256 => r := RemoveLarge(n, b, slot, d);
    }
  }

  lemma {:induction false} DeleteMiss(t: Trie, key: Key)
    requires WellFormed(t) && Entry(t, key).None?
    ensures Delete(t, key) == Some(t)
  {
    if t.Inner? && |t.pre| < |key| && key[|t.pre|] in t.kids {
      DeleteMiss(t.kids[key[|t.pre|]], key);
      assert t.kids[key[|t.pre|] := t.kids[key[|t.pre|]]] == t.kids;
    }
  }

  /** What `Delete` does below the branching byte. */
  lemma DeleteStep(t: Trie, key: Key, b: byte)
    requires WellFormed(t) && t.Inner? && |t.pre| < |key| && key[|t.pre|] == b && b in t.kids
    requires WellFormed(t.kids[b])
    ensures Entry(t, key) == Entry(t.kids[b], key)
    ensures t.kids[b].Leaf? && t.kids[b].key == key ==> Delete(t, key) == Some(DropKid(t, b))
    ensures t.kids[b].Leaf? && t.kids[b].key != key ==> Delete(t, key) == Some(t)
    ensures t.kids[b].Inner? ==>
              && Delete(t.kids[b], key).Some?
              && Delete(t, key) == Some(Inner(t.pre, t.kids[b := Delete(t.kids[b], key).value]))
  {
    hide WellFormed, DropKid;
    assert t.kids[b].Leaf? && t.kids[b].key != key ==> t.kids[b := t.kids[b]] == t.kids;
  }

  /**
    `recursive_delete` on an inner node; a leaf at the root is the caller's business. The value is
    that of the removed leaf.
   */
  method DeleteAtNode(n: ArtNode, key: Key, depth: nat)
    returns (r: Ptr, found: bool, value: Option<Handle>)
    requires Valid(N(n), depth) && WellFormed(n.trie) && AtMost(n.trie, |key|)
    modifies n.Repr
    ensures r != Null && Valid(r, depth) && Some(Model(r)) == Delete(old(n.trie), key)
    ensures fresh(Foot(r) - old(n.Repr))
    ensures found <==> Entry(old(n.trie), key).Some?
    ensures value == if found then Entry(old(n.trie), key).value else None
    decreases n.Repr, 1
  {
    hide ArtNode.Layout, ArtNode.Header, WellFormed, AllKids, Apart, AtMost, Delete, DropKid;
    r, found, value := N(n), false, None;
    BranchInRange(n.trie, |key|);
    var on, at := SkipPath(n, key, depth);
    if !on { NoHolder(n.trie, key); DeleteMiss(n.trie, key); return; }
    var slot := n.FindChild(key[at]);
    if slot < 0 { DeleteMiss(n.trie, key); return; }
    r, found, value := DeleteBelow(n, key[at], slot, key, at, depth);
  }

  method DeleteBelow(n: ArtNode, b: byte, slot: int, key: Key, at: nat, ghost d: nat)
    returns (r: Ptr, found: bool, value: Option<Handle>)
    requires Valid(N(n), d) && WellFormed(n.trie) && AtMost(n.trie, |key|)
    requires at == |n.trie.pre| < |key| && key[at] == b && b in n.kids
    requires n.SlotFor(b, slot) && n.children[slot] == n.kids[b]
    modifies n.Repr
    ensures r != Null && Valid(r, d) && Some(Model(r)) == Delete(old(n.trie), key)
    ensures fresh(Foot(r) - old(n.Repr))
    ensures found <==> Entry(old(n.trie), key).Some?
    ensures value == if found then Entry(old(n.trie), key).value else None
    decreases n.Repr, 0
  {
    hide ArtNode.Layout, ArtNode.Header, WellFormed, AllKids, Apart, AtMost, Delete, DropKid, Around, Kid, Entry;
    r, found, value := N(n), false, None;
    ghost var t, pre, ts, fs := n.trie, n.trie.pre, n.trie.kids, n.feet;
    Open(n, d, b);
    DeleteStep(t, key, b);
    AtMostKid(t, |key|, b);
    match n.children[slot]
    case L(l) =>
      LeafEntry(l, key);
      if l.keyLen == |key| && l.buf[..l.keyLen] == key {
        found, value := true, l.value;
        r := RemoveChild(n, b, slot, d);
      }
    case N(m) =>
      var q;
      q, found, value := DeleteAtNode(m, key, at + 1);
      PtrKid(q, at + 1);
      ReplaceKid(n, b, slot, q, pre, d, ts, fs);
  }
}

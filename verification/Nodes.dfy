/**
  The four node layouts of art.hh, changed in place. `kids` is the map that the key and child
  buffers stand for; every operation here is an update of that map.

  `num_children` is an 8-bit counter. A full NODE256 has 256 children, so the counter is the
  number of children modulo 256.
 */
module Nodes {
  import opened Bytes
  import opened PartialPaths
  import Tries

  /** A leaf: `buf` is the key as allocated, of which disabling may cut off the end. */
  class ArtLeaf {
    const buf: Key
    var keyLen: nat
    var value: Option<Handle>

    constructor (key: Key, value: Option<Handle>)
      ensures buf == key && keyLen == |key| && this.value == value
    {
      buf, keyLen, this.value := key, |key|, value;
    }
  }

  /** The tagged pointer `art_node*`: its low bit says leaf or inner node. */
  datatype Ptr = Null | L(leaf: ArtLeaf) | N(node: ArtNode)

  datatype Kind = Node4 | Node16 | Node48 | Node256

  function KeySlots(kind: Kind): nat {
    match kind case Node4 => 4 case Node16 => 16 case Node48 => 256 case Node256 => 0
  }

  function ChildSlots(kind: Kind): nat {
    match kind case Node4 => 4 case Node16 => 16 case Node48 => 48 case Node256 => 256
  }

  /** A layout is left for a smaller one before it holds fewer children than this. */
  function FewestKids(kind: Kind): nat {
    match kind case Node4 => 2 case Node16 => 4 case Node48 => 13 case Node256 => 38
  }

  /** The layout once one of `count` children is added: the next larger one when this one is full. */
  function Grown(kind: Kind, count: nat): (k: Kind)
    ensures k == kind <==> kind.Node256? || count < ChildSlots(kind)
    ensures count <= ChildSlots(kind) && count < 256 ==> count + 1 <= ChildSlots(k)
    ensures count == ChildSlots(kind) ==> FewestKids(k) <= count + 1
  {
    match kind
    case Node4 => if count < 4 then Node4 else Node16
    case Node16 => if count < 16 then Node16 else Node48
    case Node48 => if count < 48 then Node48 else Node256
    case Node256 => Node256
  }

  /** The layout once one of `count` children goes: a smaller one at exactly three, twelve and 37 that are left. */
  function Shrunk(kind: Kind, count: nat): (k: Kind)
    ensures FewestKids(kind) <= count ==> (k == kind <==> kind.Node4? || FewestKids(kind) < count)
    ensures FewestKids(kind) <= count && !kind.Node4? ==> FewestKids(k) <= count - 1
    ensures FewestKids(kind) <= count <= ChildSlots(kind) ==> count - 1 <= ChildSlots(k)
  {
    match kind
    case Node4 => Node4
    case Node16 => if count == 4 then Node4 else Node16
    case Node48 => if count == 13 then Node16 else Node48
    case Node256 => if count == 38 then Node48 else Node256
  }

  /** An 8-bit count of at most 256 children. */
  function EightBits(count: nat): (low: int)
    ensures count <= 256 ==> low == count % 256
  {
    if count < 256 then count else count - 256
  }

  // ------------------------------------------------------------ the layouts as sequences

  ghost predicate Ascending(keys: seq<byte>, n: nat) {
    n <= |keys| && forall i, j :: 0 <= i < j < n ==> keys[i] < keys[j]
  }

  ghost predicate Beside(keys: seq<byte>, children: seq<Ptr>, n: nat, kids: map<byte, Ptr>) {
    && n <= |keys| && n <= |children|
    && forall i :: 0 <= i < n ==> keys[i] in kids && kids[keys[i]] == children[i] != Null
  }

  ghost predicate FoundAt(keys: seq<byte>, n: int, b: byte, i: int) {
    0 <= i < n <= |keys| && keys[i] == b
  }

  ghost predicate Covers(keys: seq<byte>, n: int, kids: map<byte, Ptr>) {
    forall b :: b in kids ==> exists i :: FoundAt(keys, n, b, i)
  }

  /** NODE4 and NODE16: the first `n` keys are in strictly ascending order, children beside them. */
  ghost predicate Dense(keys: seq<byte>, children: seq<Ptr>, n: nat, kids: map<byte, Ptr>) {
    && n == |kids|
    && Ascending(keys, n)
    && Beside(keys, children, n, kids)
    && Covers(keys, n, kids)
  }

  /** NODE48: `keys[b]` is one more than the slot of `b`, 0 when `b` has none. */
  ghost predicate Slotted(keys: seq<byte>, children: seq<Ptr>, kids: map<byte, Ptr>, b: byte) {
    && |keys| == 256 && |children| == 48
    && (b in kids <==> keys[b] != 0)
    && (b in kids ==> keys[b] <= 48 && children[keys[b] - 1] == kids[b] != Null)
  }

  ghost predicate SlotOf(keys: seq<byte>, kids: map<byte, Ptr>, s: int, b: byte) {
    |keys| == 256 && b in kids && keys[b] == s + 1
  }

  /** No two bytes share a slot. */
  ghost predicate SlotsApart(keys: seq<byte>, kids: map<byte, Ptr>) {
    |keys| == 256 && forall b, c :: b in kids && c in kids && keys[b] == keys[c] ==> b == c
  }

  /** Every used slot belongs to some byte. */
  ghost predicate Owned(keys: seq<byte>, children: seq<Ptr>, kids: map<byte, Ptr>) {
    |children| == 48 && forall s :: 0 <= s < 48 && children[s] != Null ==> exists b :: SlotOf(keys, kids, s, b)
  }

  /** NODE48: key map and slots are mutually inverse. */
  ghost predicate Indexed(keys: seq<byte>, children: seq<Ptr>, kids: map<byte, Ptr>) {
    && |keys| == 256 && |children| == 48
    && (forall b: byte :: Slotted(keys, children, kids, b))
    && SlotsApart(keys, kids)
    && Owned(keys, children, kids)
  }

  /** NODE256: one slot a byte. */
  ghost predicate Direct(children: seq<Ptr>, kids: map<byte, Ptr>) {
    && |children| == 256
    && (forall b: byte :: b in kids <==> children[b] != Null)
    && (forall b :: b in kids ==> children[b] == kids[b])
  }

  ghost predicate Laid(kind: Kind, keys: seq<byte>, children: seq<Ptr>, kids: map<byte, Ptr>) {
    match kind
    case Node4 => |keys| == 4 && |children| == 4 && Dense(keys, children, |kids|, kids)
    case Node16 => |keys| == 16 && |children| == 16 && Dense(keys, children, |kids|, kids)
    case Node48 => Indexed(keys, children, kids)
    case Node256 => Direct(children, kids)
  }

  /** The buffers determine the map: `find_child` has only one right answer. */
  lemma LaidUnique(kind: Kind, keys: seq<byte>, children: seq<Ptr>, a: map<byte, Ptr>, b: map<byte, Ptr>)
    requires Laid(kind, keys, children, a) && Laid(kind, keys, children, b) && |a| == |b|
    ensures a == b
  {
    hide SlotsApart, Owned, Ascending;
    forall c: byte ensures (c in a <==> c in b) && (c in a ==> a[c] == b[c]) {
      match kind {
        case Node4 => DenseSame(keys, children, a, b, c);
        case Node16 => DenseSame(keys, children, a, b, c);
        case Node48 => assert Slotted(keys, children, a, c) && Slotted(keys, children, b, c);
        case Node256 =>
      }
    }
  }

  lemma DenseSame(keys: seq<byte>, children: seq<Ptr>, a: map<byte, Ptr>, b: map<byte, Ptr>, c: byte)
    requires Dense(keys, children, |a|, a) && Dense(keys, children, |b|, b) && |a| == |b|
    ensures (c in a <==> c in b) && (c in a ==> a[c] == b[c])
  {
    hide Ascending;
    if c in a { var i :| FoundAt(keys, |a|, c, i); }
    if c in b { var i :| FoundAt(keys, |b|, c, i); }
  }

  /** `s'` is `s` with `x` moved in at index `at`, the last `n - at` elements one place up. */
  ghost predicate MovedUp<T>(s: seq<T>, n: nat, at: nat, x: T, s': seq<T>) {
    && at <= n < |s| == |s'| && s'[at] == x
    && (forall i :: 0 <= i < at ==> s'[i] == s[i])
    && (forall i :: at < i <= n ==> s'[i] == s[i - 1])
  }

  /** `s'` is `s` without its element at index `at`, the later ones among the first `n` one place down. */
  ghost predicate MovedDown<T>(s: seq<T>, n: nat, at: nat, s': seq<T>) {
    && at < n <= |s| == |s'|
    && (forall i :: 0 <= i < at ==> s'[i] == s[i])
    && (forall i :: at <= i < n - 1 ==> s'[i] == s[i + 1])
  }

  lemma AscendingInsert(ks: seq<byte>, n: nat, at: nat, c: byte, ks': seq<byte>)
    requires Ascending(ks, n) && MovedUp(ks, n, at, c, ks')
    requires forall i :: 0 <= i < at ==> ks[i] < c
    requires forall i :: at <= i < n ==> c < ks[i]
    ensures Ascending(ks', n + 1)
  {
  }

  lemma BesideInsert(ks: seq<byte>, cs: seq<Ptr>, kids: map<byte, Ptr>, n: nat, at: nat, c: byte, child: Ptr,
                     ks': seq<byte>, cs': seq<Ptr>)
    requires Beside(ks, cs, n, kids) && c !in kids && child != Null
    requires MovedUp(ks, n, at, c, ks') && MovedUp(cs, n, at, child, cs')
    ensures Beside(ks', cs', n + 1, kids[c := child])
  {
    var kids' := kids[c := child];
    forall i | 0 <= i < n + 1 ensures ks'[i] in kids' && kids'[ks'[i]] == cs'[i] != Null {
      if i > at { assert ks'[i] == ks[i - 1]; }
    }
  }

  lemma CoversInsert(ks: seq<byte>, n: nat, at: nat, c: byte, ks': seq<byte>, kids: map<byte, Ptr>, child: Ptr)
    requires MovedUp(ks, n, at, c, ks') && Covers(ks, n, kids)
    ensures Covers(ks', n + 1, kids[c := child])
  {
    var m := n + 1;
    assert FoundAt(ks', m, c, at);
    forall b | b in kids ensures exists i :: FoundAt(ks', m, b, i) {
      var i :| FoundAt(ks, n, b, i);
      assert FoundAt(ks', m, b, if i < at then i else i + 1);
    }
  }

  lemma DenseInsert(ks: seq<byte>, cs: seq<Ptr>, kids: map<byte, Ptr>, at: nat, c: byte, child: Ptr,
                    ks': seq<byte>, cs': seq<Ptr>)
    requires Dense(ks, cs, |kids|, kids) && c !in kids && child != Null
    requires MovedUp(ks, |kids|, at, c, ks') && MovedUp(cs, |kids|, at, child, cs')
    requires forall i :: 0 <= i < at ==> ks[i] < c
    requires forall i :: at <= i < |kids| ==> c < ks[i]
    ensures Dense(ks', cs', |kids| + 1, kids[c := child])
  {
    AscendingInsert(ks, |kids|, at, c, ks');
    BesideInsert(ks, cs, kids, |kids|, at, c, child, ks', cs');
    CoversInsert(ks, |kids|, at, c, ks', kids, child);
  }

  lemma AscendingRemove(ks: seq<byte>, n: nat, at: nat, ks': seq<byte>)
    requires Ascending(ks, n) && MovedDown(ks, n, at, ks')
    ensures Ascending(ks', n - 1)
  {
  }

  lemma BesideRemove(ks: seq<byte>, cs: seq<Ptr>, kids: map<byte, Ptr>, n: nat, at: nat,
                     ks': seq<byte>, cs': seq<Ptr>)
    requires Beside(ks, cs, n, kids) && Ascending(ks, n)
    requires MovedDown(ks, n, at, ks') && MovedDown(cs, n, at, cs')
    ensures Beside(ks', cs', n - 1, kids - {ks[at]})
  {
    forall i | 0 <= i < n - 1 ensures ks'[i] in kids - {ks[at]} && (kids - {ks[at]})[ks'[i]] == cs'[i] != Null {
      assert if i < at then ks'[i] == ks[i] < ks[at] else ks'[i] == ks[i + 1] > ks[at];
    }
  }

  lemma CoversRemove(ks: seq<byte>, n: nat, at: nat, ks': seq<byte>, kids: map<byte, Ptr>)
    requires MovedDown(ks, n, at, ks') && Covers(ks, n, kids)
    ensures Covers(ks', n - 1, kids - {ks[at]})
  {
    var m := n - 1;
    forall b | b in kids && b != ks[at] ensures exists i :: FoundAt(ks', m, b, i) {
      var i :| FoundAt(ks, n, b, i);
      assert FoundAt(ks', m, b, if i < at then i else i - 1);
    }
  }

  lemma DenseRemove(ks: seq<byte>, cs: seq<Ptr>, kids: map<byte, Ptr>, at: nat, ks': seq<byte>, cs': seq<Ptr>)
    requires Dense(ks, cs, |kids|, kids)
    requires MovedDown(ks, |kids|, at, ks') && MovedDown(cs, |kids|, at, cs')
    ensures ks[at] in kids
    ensures Dense(ks', cs', |kids| - 1, kids - {ks[at]})
  {
    hide Ascending, Covers;
    assert ks[at] in kids;
    KidsMinus(kids, ks[at]);
    RemoveParts(ks, cs, kids, at, ks', cs');
  }

  lemma RemoveParts(ks: seq<byte>, cs: seq<Ptr>, kids: map<byte, Ptr>, at: nat, ks': seq<byte>, cs': seq<Ptr>)
    requires Dense(ks, cs, |kids|, kids)
    requires MovedDown(ks, |kids|, at, ks') && MovedDown(cs, |kids|, at, cs')
    ensures Ascending(ks', |kids| - 1) && Beside(ks', cs', |kids| - 1, kids - {ks[at]})
    ensures Covers(ks', |kids| - 1, kids - {ks[at]})
  {
    hide Ascending, Beside, Covers;
    AscendingRemove(ks, |kids|, at, ks');
    BesideRemove(ks, cs, kids, |kids|, at, ks', cs');
    CoversRemove(ks, |kids|, at, ks', kids);
  }

  lemma KidsMinus(kids: map<byte, Ptr>, b: byte)
    requires b in kids
    ensures |kids - {b}| == |kids| - 1
  {
    assert (kids - {b}).Keys == kids.Keys - {b};
    assert |kids - {b}| == |(kids - {b}).Keys|;
  }

  lemma UnusedSlot(ks: seq<byte>, cs: seq<Ptr>, kids: map<byte, Ptr>, at: nat, b: byte)
    requires Indexed(ks, cs, kids) && at < 48 && cs[at] == Null && b in kids
    ensures ks[b] != at + 1
  {
    assert Slotted(ks, cs, kids, b);
  }

  lemma SlottedInsert(ks: seq<byte>, cs: seq<Ptr>, kids: map<byte, Ptr>, at: nat, c: byte, child: Ptr, b: byte)
    requires Indexed(ks, cs, kids) && c !in kids && child != Null
    requires at < 48 && cs[at] == Null
    ensures Slotted(ks[c := at + 1], cs[at := child], kids[c := child], b)
  {
    assert Slotted(ks, cs, kids, b);
  }

  lemma IndexedInsert(ks: seq<byte>, cs: seq<Ptr>, kids: map<byte, Ptr>, at: nat, c: byte, child: Ptr)
    requires Indexed(ks, cs, kids) && c !in kids && child != Null
    requires at < 48 && cs[at] == Null
    ensures Indexed(ks[c := at + 1], cs[at := child], kids[c := child])
  {
    var ks', cs', kids' := ks[c := at + 1], cs[at := child], kids[c := child];
    forall b: byte ensures Slotted(ks', cs', kids', b) { SlottedInsert(ks, cs, kids, at, c, child, b); }
    assert SlotsApart(ks', kids') by {
      forall b | b in kids ensures ks[b] != at + 1 { UnusedSlot(ks, cs, kids, at, b); }
    }
    assert Owned(ks', cs', kids') by {
      assert SlotOf(ks', kids', at, c);
      forall s | 0 <= s < 48 && cs[s] != Null ensures exists b :: SlotOf(ks', kids', s, b) {
        var b :| SlotOf(ks, kids, s, b);
        assert SlotOf(ks', kids', s, b);
      }
    }
  }

  lemma SlottedRemove(ks: seq<byte>, cs: seq<Ptr>, kids: map<byte, Ptr>, c: byte, b: byte)
    requires Indexed(ks, cs, kids) && c in kids && Slotted(ks, cs, kids, c)
    ensures Slotted(ks[c := 0], cs[ks[c] - 1 := Null], kids - {c}, b)
  {
    assert Slotted(ks, cs, kids, b);
  }

  lemma IndexedRemove(ks: seq<byte>, cs: seq<Ptr>, kids: map<byte, Ptr>, c: byte)
    requires Indexed(ks, cs, kids) && c in kids && Slotted(ks, cs, kids, c)
    ensures Indexed(ks[c := 0], cs[ks[c] - 1 := Null], kids - {c})
  {
    var ks', cs', kids' := ks[c := 0], cs[ks[c] - 1 := Null], kids - {c};
    forall b: byte ensures Slotted(ks', cs', kids', b) { SlottedRemove(ks, cs, kids, c, b); }
    assert Owned(ks', cs', kids') by {
      forall s | 0 <= s < 48 && cs'[s] != Null ensures exists b :: SlotOf(ks', kids', s, b) {
        var b :| SlotOf(ks, kids, s, b);
        assert SlotOf(ks', kids', s, b);
      }
    }
  }

  lemma SubsetCount(a: set<byte>, b: set<byte>)
    requires a <= b
    ensures |a| <= |b|
  {
    assert b == a + (b - a);
  }

  /** Forty-eight used slots need forty-eight bytes: a free slot exists below that. */
  lemma {:induction false} UsedSlots(ks: seq<byte>, cs: seq<Ptr>, kids: map<byte, Ptr>, n: nat)
    requires Owned(ks, cs, kids) && |ks| == 256 && n <= 48
    requires forall s :: 0 <= s < n ==> cs[s] != Null
    ensures |set b | b in kids.Keys && ks[b] <= n| >= n
  {
    if n > 0 {
      UsedSlots(ks, cs, kids, n - 1);
      assert cs[n - 1] != Null;
      var b :| SlotOf(ks, kids, n - 1, b);
      var before := set b | b in kids.Keys && ks[b] <= n - 1;
      var now := set b | b in kids.Keys && ks[b] <= n;
      assert b !in before && before + {b} <= now;
      SubsetCount(before + {b}, now);
    }
  }

  lemma FreeSlot(ks: seq<byte>, cs: seq<Ptr>, kids: map<byte, Ptr>)
    requires Indexed(ks, cs, kids) && |kids| < 48
    ensures exists s :: 0 <= s < 48 && cs[s] == Null
  {
    if forall s :: 0 <= s < 48 ==> cs[s] != Null {
      UsedSlots(ks, cs, kids, 48);
      SubsetCount((set b | b in kids.Keys && ks[b] <= 48), kids.Keys);
    }
  }

  lemma {:induction false} SlotsUsed(ks: seq<byte>, kids: map<byte, Ptr>, n: nat)
    requires SlotsApart(ks, kids) && n <= 48
    ensures |set b | b in kids.Keys && 1 <= ks[b] <= n| <= n
  {
    var now := set b | b in kids.Keys && 1 <= ks[b] <= n;
    if n == 0 {
      assert now == {};
    } else {
      SlotsUsed(ks, kids, n - 1);
      var before := set b | b in kids.Keys && 1 <= ks[b] <= n - 1;
      if b :| b in now && ks[b] == n {
        assert now == before + {b};
      } else {
        assert now == before;
      }
    }
  }

  lemma AtMost48Kids(ks: seq<byte>, cs: seq<Ptr>, kids: map<byte, Ptr>)
    requires Indexed(ks, cs, kids)
    ensures |kids| <= 48
  {
    SlotsUsed(ks, kids, 48);
    var all := set b | b in kids.Keys && 1 <= ks[b] <= 48;
    forall b | b in kids ensures b in all { assert Slotted(ks, cs, kids, b); }
    SubsetCount(kids.Keys, all);
    assert |kids| == |kids.Keys|;
  }

  lemma {:induction false} UpToCount(kids: map<byte, Ptr>, n: nat)
    requires n <= 256
    ensures |KidsUpTo(kids, n)| <= n
  {
    if n > 0 {
      UpToCount(kids, n - 1);
      UpToStep(kids, n - 1);
    } else {
      UpToEnds(kids);
    }
  }

  lemma AtMost256Kids(kids: map<byte, Ptr>)
    ensures |kids| <= 256
  {
    UpToCount(kids, 256);
    UpToEnds(kids);
  }

  ghost predicate SameFirst<T>(s: seq<T>, s': seq<T>, n: nat) {
    n <= |s| && n <= |s'| && forall i :: 0 <= i < n ==> s'[i] == s[i]
  }

  lemma DenseCopy(ks: seq<byte>, cs: seq<Ptr>, kids: map<byte, Ptr>, ks': seq<byte>, cs': seq<Ptr>)
    requires Dense(ks, cs, |kids|, kids)
    requires SameFirst(ks, ks', |kids|) && SameFirst(cs, cs', |kids|)
    ensures Dense(ks', cs', |kids|, kids)
  {
    forall b | b in kids ensures exists i :: FoundAt(ks', |kids|, b, i) {
      var i :| FoundAt(ks, |kids|, b, i);
      assert FoundAt(ks', |kids|, b, i);
    }
  }

  lemma SlottedCopy(ks: seq<byte>, cs: seq<Ptr>, kids: map<byte, Ptr>, ks': seq<byte>, cs': seq<Ptr>, b: byte)
    requires Dense(ks, cs, |kids|, kids) && |kids| == 16
    requires KeyMapOf(ks', ks) && SlotsOf(cs', cs)
    ensures Slotted(ks', cs', kids, b)
  {
    if b in kids { var i :| FoundAt(ks, |kids|, b, i); }
  }

  lemma IndexedCopy(ks: seq<byte>, cs: seq<Ptr>, kids: map<byte, Ptr>, ks': seq<byte>, cs': seq<Ptr>)
    requires Dense(ks, cs, |kids|, kids) && |kids| == 16
    requires KeyMapOf(ks', ks) && SlotsOf(cs', cs)
    ensures Indexed(ks', cs', kids)
  {
    forall b: byte ensures Slotted(ks', cs', kids, b) { SlottedCopy(ks, cs, kids, ks', cs', b); }
    forall b, c | b in kids && c in kids && ks'[b] == ks'[c] ensures b == c {
      assert Slotted(ks', cs', kids, b) && Slotted(ks', cs', kids, c);
    }
    forall s | 0 <= s < 48 && cs'[s] != Null ensures exists b :: SlotOf(ks', kids, s, b) {
      assert s < 16;
      assert SlotOf(ks', kids, s, ks[s]);
    }
  }

  /** The children of the bytes below `n`: how much of a node a loop over the bytes has copied. */
  ghost function KidsUpTo(kids: map<byte, Ptr>, n: nat): map<byte, Ptr> {
    map b | b in kids && b < n :: kids[b]
  }

  lemma UpToStep(kids: map<byte, Ptr>, n: byte)
    ensures KidsUpTo(kids, n + 1) == if n in kids then KidsUpTo(kids, n)[n := kids[n]] else KidsUpTo(kids, n)
    ensures |KidsUpTo(kids, n + 1)| == |KidsUpTo(kids, n)| + if n in kids then 1 else 0
    ensures |KidsUpTo(kids, n + 1)| <= |kids|
  {
    assert KidsUpTo(kids, n + 1) == if n in kids then KidsUpTo(kids, n)[n := kids[n]] else KidsUpTo(kids, n);
    SubsetCount(KidsUpTo(kids, n + 1).Keys, kids.Keys);
    assert |KidsUpTo(kids, n + 1)| == |KidsUpTo(kids, n + 1).Keys| && |kids| == |kids.Keys|;
  }

  lemma UpToEnds(kids: map<byte, Ptr>)
    ensures KidsUpTo(kids, 0) == map[] && KidsUpTo(kids, 256) == kids
  {
  }

  /** A new largest byte goes at the end. */
  lemma DenseAppend(ks: seq<byte>, cs: seq<Ptr>, kids: map<byte, Ptr>, c: byte, child: Ptr)
    requires Dense(ks, cs, |kids|, kids) && child != Null && |kids| < |ks| && |kids| < |cs|
    requires forall b :: b in kids ==> b < c
    ensures Dense(ks[|kids| := c], cs[|kids| := child], |kids| + 1, kids[c := child])
  {
    DenseInsert(ks, cs, kids, |kids|, c, child, ks[|kids| := c], cs[|kids| := child]);
  }

  lemma DenseSize(ks: seq<byte>, cs: seq<Ptr>, n: nat, kids: map<byte, Ptr>)
    requires Dense(ks, cs, n, kids)
    ensures n == |kids| && n <= |ks| && n <= |cs|
  {
  }

  lemma DenseNothing(ks: seq<byte>, cs: seq<Ptr>)
    ensures Dense(ks, cs, 0, map[])
  {
  }

  lemma SlottedIn(ks: seq<byte>, cs: seq<Ptr>, kids: map<byte, Ptr>, b: byte)
    requires Indexed(ks, cs, kids)
    ensures Slotted(ks, cs, kids, b) && |ks| == 256 && |cs| == 48
  {
  }

  lemma DenseEmpty()
    ensures Dense([], [], 0, map[])
  {
  }

  lemma DensePrefix(ks: seq<byte>, cs: seq<Ptr>, kids: map<byte, Ptr>)
    requires Dense(ks, cs, |kids|, kids)
    ensures Dense(ks[..|kids|], cs[..|kids|], |kids|, kids)
  {
    DenseCopy(ks, cs, kids, ks[..|kids|], cs[..|kids|]);
  }

  /** A new largest byte, on sequences without spare room. */
  lemma DensePlus(ks: seq<byte>, cs: seq<Ptr>, kids: map<byte, Ptr>, c: byte, child: Ptr)
    requires Dense(ks, cs, |kids|, kids) && child != Null && |kids| == |ks| == |cs|
    requires forall b :: b in kids ==> b < c
    ensures Dense(ks + [c], cs + [child], |kids| + 1, kids[c := child])
    ensures |kids[c := child]| == |kids| + 1
  {
    hide Dense;
    var ks', cs' := ks + [c], cs + [child];
    assert SameFirst(ks, ks', |kids|) && SameFirst(cs, cs', |kids|);
    DenseCopy(ks, cs, kids, ks', cs');
    DenseAppend(ks', cs', kids, c, child);
    assert ks'[|kids| := c] == ks' && cs'[|kids| := child] == cs';
  }

  lemma DenseWrite(ks: seq<byte>, cs: seq<Ptr>, kids: map<byte, Ptr>, at: nat, p: Ptr)
    requires Dense(ks, cs, |kids|, kids) && at < |kids| && p != Null
    ensures ks[at] in kids && Dense(ks, cs[at := p], |kids|, kids[ks[at] := p])
  {
    assert kids[ks[at] := p].Keys == kids.Keys;
    assert |kids[ks[at] := p]| == |kids[ks[at] := p].Keys|;
  }

  lemma IndexedWrite(ks: seq<byte>, cs: seq<Ptr>, kids: map<byte, Ptr>, c: byte, p: Ptr)
    requires Indexed(ks, cs, kids) && c in kids && p != Null && Slotted(ks, cs, kids, c)
    ensures Indexed(ks, cs[ks[c] - 1 := p], kids[c := p]) && |kids[c := p]| == |kids|
  {
    var cs', kids' := cs[ks[c] - 1 := p], kids[c := p];
    assert kids'.Keys == kids.Keys;
    assert |kids'| == |kids'.Keys|;
    forall b: byte ensures Slotted(ks, cs', kids', b) { assert Slotted(ks, cs, kids, b); }
    forall s | 0 <= s < 48 && cs'[s] != Null ensures exists b :: SlotOf(ks, kids', s, b) {
      assert cs[s] != Null;
      var b :| SlotOf(ks, kids, s, b);
      assert SlotOf(ks, kids', s, b);
    }
  }

  lemma SomeKid(kids: map<byte, Ptr>) returns (b: byte)
    requires |kids| >= 1
    ensures b in kids
  {
    b :| b in kids.Keys;
  }

  lemma LeastKey(ks: seq<byte>, cs: seq<Ptr>, kids: map<byte, Ptr>)
    requires Dense(ks, cs, |kids|, kids) && |kids| >= 1
    ensures ks[0] in kids && kids[ks[0]] == cs[0]
    ensures forall c :: c in kids ==> ks[0] <= c
  {
    forall c | c in kids ensures ks[0] <= c {
      var i :| FoundAt(ks, |kids|, c, i);
    }
  }

  lemma GreatestKey(ks: seq<byte>, cs: seq<Ptr>, kids: map<byte, Ptr>)
    requires Dense(ks, cs, |kids|, kids) && |kids| >= 1
    ensures ks[|kids| - 1] in kids && kids[ks[|kids| - 1]] == cs[|kids| - 1]
    ensures forall c :: c in kids ==> c <= ks[|kids| - 1]
  {
    forall c | c in kids ensures c <= ks[|kids| - 1] {
      var i :| FoundAt(ks, |kids|, c, i);
    }
  }

  // ------------------------------------------------------------ memmove and memcpy

  method MoveUp<T>(a: array<T>, n: nat, at: nat, x: T)
    requires at <= n < a.Length
    modifies a
    ensures MovedUp(old(a[..]), n, at, x, a[..])
  {
    forall i | at < i <= n { a[i] := a[i - 1]; }
    a[at] := x;
  }

  method MoveDown<T>(a: array<T>, n: nat, at: nat)
    requires at < n <= a.Length
    modifies a
    ensures MovedDown(old(a[..]), n, at, a[..])
  {
    forall i | at <= i < n - 1 { a[i] := a[i + 1]; }
  }

  method CopyFirst<T>(dest: array<T>, src: array<T>, n: nat)
    requires n <= dest.Length && n <= src.Length && dest != src
    modifies dest
    ensures forall i :: 0 <= i < n ==> dest[i] == src[i]
    ensures forall i :: n <= i < dest.Length ==> dest[i] == old(dest[i])
  {
    forall i | 0 <= i < n { dest[i] := src[i]; }
  }

  /** The key map of a NODE48 that keeps the children of a full NODE16 in their slots. */
  ghost predicate KeyMapOf(map48: seq<byte>, ks: seq<byte>) {
    && |map48| == 256 && |ks| == 16
    && (forall j :: 0 <= j < 16 ==> map48[ks[j]] == j + 1)
    && (forall b: byte :: map48[b] != 0 ==> map48[b] <= 16 && ks[map48[b] - 1] == b)
  }

  /** The first sixteen slots of a NODE48 taken over from a NODE16, the others free. */
  ghost predicate SlotsOf(slots: seq<Ptr>, cs: seq<Ptr>) {
    && |slots| == 48 && |cs| == 16
    && (forall i :: 0 <= i < 16 ==> slots[i] == cs[i])
    && (forall i :: 16 <= i < 48 ==> slots[i] == Null)
  }

  method FillSlots(cs: array<Ptr>, slots: array<Ptr>)
    requires cs.Length == 16 && slots.Length == 48 && cs != slots
    requires forall i :: 0 <= i < 48 ==> slots[i] == Null
    modifies slots
    ensures SlotsOf(slots[..], cs[..])
  {
    CopyFirst(slots, cs, 16);
  }

  method FillKeyMap(ks: array<byte>, map48: array<byte>)
    requires ks.Length == 16 && Ascending(ks[..], 16)
    requires map48 != ks && map48.Length == 256
    requires forall b: byte :: map48[b] == 0
    modifies map48
    ensures KeyMapOf(map48[..], ks[..])
  {
    var i: byte := 0;
    while i < 16
      invariant 0 <= i <= 16
      invariant forall j :: 0 <= j < i ==> map48[ks[j]] == j + 1
      invariant forall b: byte :: map48[b] != 0 ==> map48[b] <= i && ks[map48[b] - 1] == b
    {
      assert forall j :: 0 <= j < i ==> ks[..][j] != ks[..][i];
      map48[ks[i]] := i + 1;
      i := i + 1;
    }
  }

  method AppendPair(ks: array<byte>, cs: array<Ptr>, c: byte, child: Ptr, n: nat, ghost kids: map<byte, Ptr>)
    requires n == |kids| && Dense(ks[..], cs[..], n, kids) && child != Null && n < ks.Length && n < cs.Length
    requires forall b :: b in kids ==> b < c
    modifies ks, cs
    ensures Dense(ks[..], cs[..], n + 1, kids[c := child])
  {
    DenseAppend(ks[..], cs[..], kids, c, child);
    ghost var ks', cs' := ks[..][n := c], cs[..][n := child];
    ks[n], cs[n] := c, child;
    assert ks[..] == ks' && cs[..] == cs';
  }

  method IndexPair(map48: array<byte>, slots: array<Ptr>, c: byte, child: Ptr, pos: byte, ghost kids: map<byte, Ptr>)
    requires Indexed(map48[..], slots[..], kids) && c !in kids && child != Null
    requires pos < 48 && slots[pos] == Null
    modifies map48, slots
    ensures Indexed(map48[..], slots[..], kids[c := child])
    ensures forall s :: 0 <= s < 48 && s != pos ==> slots[s] == old(slots[s])
  {
    IndexedInsert(map48[..], slots[..], kids, pos, c, child);
    var key: byte := pos + 1;
    ghost var ks', cs' := map48[..][c := key], slots[..][pos := child];
    map48[c], slots[pos] := key, child;
    assert map48[..] == ks' && slots[..] == cs';
  }

  // ------------------------------------------------------------ sequences of changes

  datatype Edit = Add(c: byte, child: Ptr) | Take(c: byte)

  ghost predicate EditFits(kids: map<byte, Ptr>, e: Edit) {
    match e
    case Add(c, child) => c !in kids && child != Null
    case Take(c) => c in kids && |kids| >= 3
  }

  ghost function Edited(kids: map<byte, Ptr>, e: Edit): map<byte, Ptr> {
    match e
    case Add(c, child) => kids[c := child]
    case Take(c) => kids - {c}
  }

  ghost function EditedAll(kids: map<byte, Ptr>, edits: seq<Edit>): map<byte, Ptr> {
    if edits == [] then kids else Edited(EditedAll(kids, edits[..|edits| - 1]), edits[|edits| - 1])
  }

  ghost predicate EditsFit(kids: map<byte, Ptr>, edits: seq<Edit>) {
    forall i | 0 <= i < |edits| :: EditFits(EditedAll(kids, edits[..i]), edits[i])
  }

  ghost function KindAfter(kind: Kind, kids: map<byte, Ptr>, e: Edit): Kind {
    if e.Add? then Grown(kind, |kids|) else Shrunk(kind, |kids|)
  }

  ghost function KindAfterAll(kind: Kind, kids: map<byte, Ptr>, edits: seq<Edit>): Kind {
    if edits == [] then kind
    else
      var before := edits[..|edits| - 1];
      KindAfter(KindAfterAll(kind, kids, before), EditedAll(kids, before), edits[|edits| - 1])
  }

  /** No fewer children than the layout is kept for; a NODE4 may still be filling up. */
  ghost predicate Enough(kind: Kind, kids: map<byte, Ptr>) {
    kind.Node4? || FewestKids(kind) <= |kids|
  }

  lemma AddedCount(kids: map<byte, Ptr>, c: byte, child: Ptr)
    requires c !in kids
    ensures |kids[c := child]| == |kids| + 1
  {
    assert kids[c := child].Keys == kids.Keys + {c};
    assert |kids[c := child]| == |kids[c := child].Keys|;
  }

  lemma EditedStep(kind: Kind, kids: map<byte, Ptr>, edits: seq<Edit>, i: nat)
    requires i < |edits|
    ensures EditedAll(kids, edits[..i + 1]) == Edited(EditedAll(kids, edits[..i]), edits[i])
    ensures KindAfterAll(kind, kids, edits[..i + 1])
         == KindAfter(KindAfterAll(kind, kids, edits[..i]), EditedAll(kids, edits[..i]), edits[i])
  {
    hide Edited, KindAfter;
    assert edits[..i + 1][..i] == edits[..i];
  }

  // ------------------------------------------------------------ the node

  class ArtNode {
    const kind: Kind
    var numChildren: byte
    var partialLen: nat
    const partial: array<byte>
    const keys: array<byte>
    const children: array<Ptr>

    /** The map the buffers stand for. */
    ghost var kids: map<byte, Ptr>

    /** The subtree this node stands for, paths in full, and the objects it is made of. */
    ghost var trie: Tries.Trie
    ghost var Repr: set<object>

    /** The objects of each child's subtree. */
    ghost var feet: map<byte, set<object>>

    /** The node's own objects: in the original one block of memory. */
    ghost function Own(): set<object> {
      {this, partial, keys, children}
    }

    ghost predicate Layout()
      reads this`numChildren, this`kids, keys, children
    {
      && numChildren == EightBits(|kids|)
      && Laid(kind, keys[..], children[..], kids)
    }

    ghost predicate Header(path: Key)
      reads this`partialLen, partial
    {
      partial != keys && Stored(partial[..], partialLen, path)
    }

    /** `num_children++` on eight bits. */
    method CountUp()
      modifies this`numChildren
      ensures numChildren == if old(numChildren) == 255 then 0 else old(numChildren) + 1
    {
      numChildren := if numChildren == 255 then 0 else numChildren + 1;
    }

    /** `num_children--` on eight bits. */
    method CountDown()
      modifies this`numChildren
      ensures numChildren == if old(numChildren) == 0 then 255 else old(numChildren) - 1
    {
      numChildren := if numChildren == 0 then 255 else numChildren - 1;
    }

    /** `alloc_node`: all zero. */
    constructor (kind: Kind)
      ensures this.kind == kind
      ensures fresh(Own())
      ensures Layout() && kids == map[] && numChildren == 0
      ensures partial.Length == 10 && partialLen == 0 && partial != keys
      ensures forall i :: 0 <= i < keys.Length ==> keys[i] == 0
      ensures forall i :: 0 <= i < children.Length ==> children[i] == Null
    {
      this.kind := kind;
      numChildren, partialLen := 0, 0;
      partial := new byte[MAX_PREFIX_LEN](_ => 0);
      keys := new byte[KeySlots(kind)](_ => 0);
      children := new Ptr[ChildSlots(kind)](_ => Null);
      kids := map[];
    }

    /** `*slot` is where the child of `c` is kept. */
    ghost predicate SlotFor(c: byte, slot: int)
      reads this`numChildren, keys
    {
      match kind
      case Node4 => keys.Length == children.Length == 4 && 0 <= slot < numChildren <= 4 && keys[slot] == c
      case Node16 => keys.Length == children.Length == 16 && 0 <= slot < numChildren <= 16 && keys[slot] == c
      case Node48 => keys.Length == 256 && children.Length == 48 && 0 <= slot < 48 && keys[c] == slot + 1
      case Node256 => slot == c && children.Length == 256
    }

    /** `find_child`: the slot of `c`, or -1 for the original's NULL. */
    method FindChild(c: byte) returns (slot: int)
      requires Layout()
      ensures slot >= -1
      ensures slot >= 0 <==> c in kids
      ensures slot >= 0 ==> SlotFor(c, slot) && children[slot] == kids[c]
    {
      match kind {
        case Node4 => slot := ScanKeys(c);
        case Node16 => slot := ScanKeys(c);
        case Node48 =>
          assert Slotted(keys[..], children[..], kids, c);
          slot := keys[c] as int - 1;
        case Node256 => slot := if children[c] != Null then c else -1;
      }
    }

    /** The key comparison of NODE4 and NODE16: the lowest index that holds `c`. */
    method ScanKeys(c: byte) returns (slot: int)
      requires kind.Node4? || kind.Node16?
      requires Layout()
      ensures slot >= -1
      ensures slot >= 0 <==> c in kids
      ensures slot >= 0 ==> SlotFor(c, slot) && children[slot] == kids[c]
    {
      var i := 0;
      while i < numChildren
        invariant 0 <= i <= numChildren
        invariant forall j :: 0 <= j < i ==> keys[j] != c
      {
        if keys[i] == c { return i; }
        i := i + 1;
      }
      ghost var ks := keys[..];
      assert c in kids ==> exists j :: FoundAt(ks, |kids|, c, j);
      return -1;
    }

    // ---------------------------------------------------------- adding a child

    /** `copy_header`, onto a new node. */
    method CopyHeader(src: ArtNode, ghost path: Key)
      requires partial != src.partial && partial != keys && partial.Length == MAX_PREFIX_LEN
      requires src.Header(path)
      modifies this`numChildren, this`partialLen, partial
      ensures numChildren == src.numChildren && Header(path)
    {
      numChildren, partialLen := src.numChildren, src.partialLen;
      CopyFirst(partial, src.partial, Min(MAX_PREFIX_LEN, src.partialLen));
    }

    /** The first index whose key is greater than `c`. */
    method InsertIndex(c: byte) returns (at: nat)
      requires (kind.Node4? || kind.Node16?) && Layout() && c !in kids
      ensures at <= |kids|
      ensures forall i :: 0 <= i < at ==> keys[i] < c
      ensures forall i :: at <= i < |kids| ==> c < keys[i]
    {
      at := 0;
      while at < numChildren && c >= keys[at]
        invariant at <= numChildren
        invariant forall i :: 0 <= i < at ==> keys[i] < c
      {
        at := at + 1;
      }
    }

    /** Shift the tail up by one and write the new pair. */
    method PlaceAt(at: nat, c: byte, child: Ptr)
      requires (kind.Node4? || kind.Node16?) && Layout() && c !in kids && child != Null
      requires at <= |kids| < keys.Length
      requires forall i :: 0 <= i < at ==> keys[i] < c
      requires forall i :: at <= i < |kids| ==> c < keys[i]
      modifies this`numChildren, this`kids, keys, children
      ensures Layout() && kids == old(kids)[c := child]
    {
      hide Dense, MovedUp, Indexed, Direct;
      ghost var ks, cs := keys[..], children[..];
      DenseSize(ks, cs, |kids|, kids);
      AddedCount(kids, c, child);
      MoveUp(keys, numChildren, at, c);
      MoveUp(children, numChildren, at, child);
      DenseInsert(ks, cs, kids, at, c, child, keys[..], children[..]);
      CountUp();
      kids := kids[c := child];
    }

    /** A NODE4 or NODE16 with the first `n` pairs of this one. */
    method Copied(kind': Kind, n: nat, ghost path: Key) returns (r: ArtNode)
      requires kind'.Node4? || kind'.Node16?
      requires n <= keys.Length && n <= children.Length && n <= KeySlots(kind') && Header(path)
      ensures fresh(r.Own()) && r.kind == kind' && r.numChildren == numChildren && r.Header(path)
      ensures r.keys.Length == r.children.Length == KeySlots(kind')
      ensures SameFirst(keys[..], r.keys[..], n) && SameFirst(children[..], r.children[..], n)
    {
      hide Stored;
      r := new ArtNode(kind');
      CopyFirst(r.children, children, n);
      CopyFirst(r.keys, keys, n);
      r.CopyHeader(this, path);
    }

    /** A NODE16 with the contents of a full NODE4. */
    method GrowTo16(ghost path: Key) returns (r: ArtNode)
      requires kind.Node4? && Layout() && |kids| == 4 && Header(path)
      ensures fresh(r.Own()) && r.kind.Node16? && r.Layout() && r.kids == kids && r.Header(path)
    {
      hide Dense, SameFirst, Stored;
      r := Copied(Node16, numChildren, path);
      DenseCopy(keys[..], children[..], kids, r.keys[..], r.children[..]);
      r.kids := kids;
    }

    /** Allocate the NODE48 and copy the buffers of a full NODE16 into it. */
    method Spread(ghost path: Key) returns (r: ArtNode)
      requires kind.Node16? && keys.Length == 16 && children.Length == 16
      requires Ascending(keys[..], 16) && Header(path)
      ensures fresh(r.Own()) && r.kind.Node48? && r.numChildren == numChildren
      ensures KeyMapOf(r.keys[..], keys[..]) && SlotsOf(r.children[..], children[..])
      ensures r.Header(path)
    {
      r := new ArtNode(Node48);
      FillSlots(children, r.children);
      FillKeyMap(keys, r.keys);
      r.CopyHeader(this, path);
    }

    /** A NODE48 with the contents of a full NODE16: child `i` keeps its place, its key points there. */
    method GrowTo48(ghost path: Key) returns (r: ArtNode)
      requires kind.Node16? && Layout() && |kids| == 16 && Header(path)
      ensures fresh(r.Own()) && r.kind.Node48? && r.Layout() && r.kids == kids && r.Header(path)
    {
      r := Spread(path);
      IndexedCopy(keys[..], children[..], kids, r.keys[..], r.children[..]);
      r.kids := kids;
    }

    /** The slots of a NODE256, from the key map of a NODE48. */
    method Unfold(slots: array<Ptr>)
      requires kind.Node48? && Layout() && slots.Length == 256 && slots != children
      requires forall i :: 0 <= i < 256 ==> slots[i] == Null
      modifies slots
      ensures Direct(slots[..], kids)
    {
      ghost var ks, cs, m := keys[..], children[..], kids;
      var i := 0;
      while i < 256
        invariant 0 <= i <= 256
        invariant children[..] == cs
        invariant forall b: byte :: slots[b] == if b < i && b in m then m[b] else Null
      {
        assert Slotted(ks, cs, m, i);
        if keys[i] != 0 { slots[i] := children[keys[i] - 1]; }
        i := i + 1;
      }
      assert forall b: byte :: b in m ==> Slotted(ks, cs, m, b);
    }

    method GrowTo256(ghost path: Key) returns (r: ArtNode)
      requires kind.Node48? && Layout() && Header(path)
      ensures fresh(r.Own()) && r.kind.Node256? && r.Layout() && r.kids == kids && r.Header(path)
    {
      r := new ArtNode(Node256);
      Unfold(r.children);
      r.CopyHeader(this, path);
      r.kids := kids;
    }

    method AddChild256(c: byte, child: Ptr)
      requires kind.Node256? && Layout() && c !in kids && child != Null
      modifies this`numChildren, this`kids, children
      ensures Layout() && kids == old(kids)[c := child]
    {
      AtMost256Kids(kids[c := child]);
      CountUp();
      children[c] := child;
      kids := kids[c := child];
    }

    /** The first free slot of a NODE48. */
    method FirstFree() returns (pos: byte)
      requires kind.Node48? && Layout() && |kids| < 48
      ensures pos < 48 && children[pos] == Null && forall s :: 0 <= s < pos ==> children[s] != Null
    {
      FreeSlot(keys[..], children[..], kids);
      ghost var free :| 0 <= free < 48 && children[..][free] == Null;
      pos := 0;
      while children[pos] != Null
        invariant 0 <= pos <= free && forall s :: 0 <= s < pos ==> children[s] != Null
        decreases 48 - pos
      {
        pos := pos + 1;
      }
    }

    method PlaceSlot(pos: byte, c: byte, child: Ptr)
      requires kind.Node48? && Layout() && |kids| < 48 && c !in kids && child != Null
      requires pos < 48 && children[pos] == Null
      modifies this`numChildren, this`kids, keys, children
      ensures Layout() && kids == old(kids)[c := child]
    {
      ghost var ks, cs := keys[..], children[..];
      children[pos] := child;
      keys[c] := pos + 1;
      CountUp();
      IndexedInsert(ks, cs, kids, pos, c, child);
      var key: byte := pos + 1;
      assert keys[..] == ks[c := key] && children[..] == cs[pos := child];
      kids := kids[c := child];
    }

    method AddChild48(c: byte, child: Ptr, ghost path: Key) returns (r: ArtNode)
      requires kind.Node48? && Layout() && Header(path) && c !in kids && child != Null
      modifies this`numChildren, this`kids, keys, children
      ensures r == this || (fresh(r.Own()) && FewestKids(r.kind) <= |r.kids|)
      ensures r.kind == Grown(kind, |old(kids)|) && (r == this <==> r.kind == kind)
      ensures r == this <==> |old(kids)| < 48
      ensures r.Layout() && r.kids == old(kids)[c := child] && r.Header(path)
    {
      AtMost48Kids(keys[..], children[..], kids);
      if numChildren < 48 {
        var pos := FirstFree();
        PlaceSlot(pos, c, child);
        r := this;
      } else {
        r := GrowTo256(path);
        r.AddChild256(c, child);
      }
    }

    method AddChild16(c: byte, child: Ptr, ghost path: Key) returns (r: ArtNode)
      requires kind.Node16? && Layout() && Header(path) && c !in kids && child != Null
      modifies this`numChildren, this`kids, keys, children
      ensures r == this || (fresh(r.Own()) && FewestKids(r.kind) <= |r.kids|)
      ensures r.kind == Grown(kind, |old(kids)|) && (r == this <==> r.kind == kind)
      ensures r == this <==> |old(kids)| < 16
      ensures r.Layout() && r.kids == old(kids)[c := child] && r.Header(path)
    {
      if numChildren < 16 {
        var at := InsertIndex(c);
        PlaceAt(at, c, child);
        r := this;
      } else {
        r := GrowTo48(path);
        r := r.AddChild48(c, child, path);
      }
    }

    method AddChild4(c: byte, child: Ptr, ghost path: Key) returns (r: ArtNode)
      requires kind.Node4? && Layout() && Header(path) && c !in kids && child != Null
      modifies this`numChildren, this`kids, keys, children
      ensures r == this || (fresh(r.Own()) && FewestKids(r.kind) <= |r.kids|)
      ensures r.kind == Grown(kind, |old(kids)|) && (r == this <==> r.kind == kind)
      ensures r == this <==> |old(kids)| < 4
      ensures r.Layout() && r.kids == old(kids)[c := child] && r.Header(path)
    {
      if numChildren < 4 {
        var at := InsertIndex(c);
        PlaceAt(at, c, child);
        r := this;
      } else {
        r := GrowTo16(path);
        r := r.AddChild16(c, child, path);
      }
    }

    /** `add_child`: the node that must be stored through `ref`, with one more child. */
    method AddChild(c: byte, child: Ptr, ghost path: Key) returns (r: ArtNode)
      requires Layout() && Header(path) && c !in kids && child != Null
      modifies this`numChildren, this`kids, keys, children
      ensures r == this || (fresh(r.Own()) && FewestKids(r.kind) <= |r.kids|)
      ensures r.kind == Grown(kind, |old(kids)|) && (r == this <==> r.kind == kind)
      ensures r == this <==> |old(kids)| < children.Length
      ensures r.Layout() && r.kids == old(kids)[c := child] && r.Header(path)
    {
      match kind {
        case Node4 => r := AddChild4(c, child, path);
        case Node16 => r := AddChild16(c, child, path);
        case Node48 => r := AddChild48(c, child, path);
        case Node256 =>
          AddedCount(kids, c, child);
          AddChild256(c, child);
          AtMost256Kids(kids);
          r := this;
      }
    }

    // ---------------------------------------------------------- writing through a slot

    /** `*child = p`, where `child` is a slot of this node. */
    method SetSlot(c: byte, slot: int, p: Ptr)
      requires Layout() && c in kids && SlotFor(c, slot) && p != Null
      modifies this`kids, children
      ensures Layout() && kids == old(kids)[c := p]
    {
      ghost var ks, cs := keys[..], children[..];
      children[slot] := p;
      assert children[..] == cs[slot := p];
      match kind {
        case Node4 => DenseWrite(ks, cs, kids, slot, p);
        case Node16 => DenseWrite(ks, cs, kids, slot, p);
        case Node48 => assert Slotted(ks, cs, kids, c); IndexedWrite(ks, cs, kids, c, p);
        case Node256 => assert kids[c := p].Keys == kids.Keys; assert |kids[c := p].Keys| == |kids[c := p]|;
      }
      kids := kids[c := p];
    }

    // ---------------------------------------------------------- removing a child

    /** Shift the tails of both buffers down over index `at`. */
    method Squeeze(at: nat)
      requires at < numChildren <= keys.Length && numChildren <= children.Length
      modifies this`numChildren, keys, children
      ensures MovedDown(old(keys[..]), old(numChildren), at, keys[..])
      ensures MovedDown(old(children[..]), old(numChildren), at, children[..])
      ensures numChildren == old(numChildren) - 1
    {
      MoveDown(keys, numChildren, at);
      MoveDown(children, numChildren, at);
      CountDown();
    }

    method TakeAt(c: byte, slot: int)
      requires (kind.Node4? || kind.Node16?) && Layout() && SlotFor(c, slot) && c in kids
      modifies this`numChildren, this`kids, keys, children
      ensures Layout() && kids == old(kids) - {c} && numChildren == |kids|
    {
      hide Dense, MovedDown, Indexed, Direct;
      ghost var ks, cs := keys[..], children[..];
      DenseSize(ks, cs, |kids|, kids);
      Squeeze(slot);
      ghost var rest := kids - {c};
      KidsMinus(kids, c);
      DenseRemove(ks, cs, kids, slot, keys[..], children[..]);
      kids := rest;
    }

    /** A NODE4 with the three children a NODE16 has left; the original copies four slots. */
    method ShrinkTo4(ghost path: Key) returns (r: ArtNode)
      requires kind.Node16? && Layout() && |kids| == 3 && Header(path)
      ensures fresh(r.Own()) && r.kind.Node4? && r.Layout() && r.kids == kids && r.Header(path)
    {
      hide Dense, Stored;
      r := Copied(Node4, 4, path);
      DenseCopy(keys[..], children[..], kids, r.keys[..], r.children[..]);
      r.kids := kids;
    }

    method RemoveChild16(c: byte, slot: int, ghost path: Key) returns (r: ArtNode)
      requires kind.Node16? && Layout() && Header(path) && SlotFor(c, slot) && c in kids
      requires FewestKids(kind) <= |kids|
      modifies this`numChildren, this`kids, keys, children
      ensures r == this || fresh(r.Own())
      ensures r.kind == Shrunk(kind, |old(kids)|) && (r == this <==> r.kind == kind)
      ensures r == this <==> |r.kids| != 3
      ensures r.Layout() && r.kids == old(kids) - {c} && r.Header(path) && FewestKids(r.kind) <= |r.kids|
    {
      hide Layout, Stored, SlotFor;
      KidsMinus(kids, c);
      TakeAt(c, slot);
      if numChildren == 3 {
        r := ShrinkTo4(path);
      } else {
        r := this;
      }
    }

    /** The pairs of a NODE48 in ascending byte order, packed into the buffers of a NODE16. */
    method Pack(ks16: array<byte>, cs16: array<Ptr>)
      requires kind.Node48? && Layout() && |kids| <= 16
      requires ks16.Length == 16 && cs16.Length == 16 && ks16 != keys && cs16 != children
      modifies ks16, cs16
      ensures Dense(ks16[..], cs16[..], |kids|, kids)
    {
      hide Dense, Indexed;
      ghost var ks, cs, m := keys[..], children[..], kids;
      var child, i := 0, 0;
      UpToEnds(m);
      DenseNothing(ks16[..], cs16[..]);
      while i < 256
        invariant 0 <= i <= 256 && child == |KidsUpTo(m, i)|
        invariant keys[..] == ks && children[..] == cs
        invariant Dense(ks16[..], cs16[..], child, KidsUpTo(m, i))
      {
        SlottedIn(ks, cs, m, i);
        var pos := keys[i];
        UpToStep(m, i);
        if pos != 0 {
          AppendPair(ks16, cs16, i, children[pos - 1], child, KidsUpTo(m, i));
          child := child + 1;
        }
        i := i + 1;
      }
    }

    method ShrinkTo16(ghost path: Key) returns (r: ArtNode)
      requires kind.Node48? && Layout() && |kids| == 12 && Header(path)
      ensures fresh(r.Own()) && r.kind.Node16? && r.Layout() && r.kids == kids && r.Header(path)
    {
      r := new ArtNode(Node16);
      r.CopyHeader(this, path);
      Pack(r.keys, r.children);
      r.kids := kids;
    }

    method ClearSlot(c: byte)
      requires kind.Node48? && Layout() && c in kids
      modifies this`numChildren, this`kids, keys, children
      ensures Layout() && kids == old(kids) - {c}
    {
      ghost var ks, cs, rest := keys[..], children[..], kids - {c};
      assert Slotted(ks, cs, kids, c);
      AtMost48Kids(ks, cs, kids);
      KidsMinus(kids, c);
      var pos := keys[c];
      keys[c] := 0;
      children[pos - 1] := Null;
      CountDown();
      IndexedRemove(ks, cs, kids, c);
      assert keys[..] == ks[c := 0] && children[..] == cs[pos - 1 := Null];
      kids := rest;
    }

    method RemoveChild48(c: byte, ghost path: Key) returns (r: ArtNode)
      requires kind.Node48? && Layout() && Header(path) && c in kids && FewestKids(kind) <= |kids|
      modifies this`numChildren, this`kids, keys, children
      ensures r == this || fresh(r.Own())
      ensures r.kind == Shrunk(kind, |old(kids)|) && (r == this <==> r.kind == kind)
      ensures r == this <==> |r.kids| != 12
      ensures r.Layout() && r.kids == old(kids) - {c} && r.Header(path) && FewestKids(r.kind) <= |r.kids|
    {
      KidsMinus(kids, c);
      AtMost48Kids(keys[..], children[..], kids);
      ClearSlot(c);
      if numChildren == 12 {
        r := ShrinkTo16(path);
      } else {
        r := this;
      }
    }

    /** The slots of a NODE256 renumbered into the forty-eight of a NODE48. */
    method Fold(map48: array<byte>, slots: array<Ptr>)
      requires kind.Node256? && Layout() && |kids| <= 48
      requires map48.Length == 256 && slots.Length == 48 && slots != children
      requires forall b: byte :: map48[b] == 0
      requires forall s :: 0 <= s < 48 ==> slots[s] == Null
      modifies map48, slots
      ensures Indexed(map48[..], slots[..], kids)
    {
      ghost var cs, m := children[..], kids;
      var pos, i := 0, 0;
      UpToEnds(m);
      while i < 256
        invariant 0 <= i <= 256 && pos == |KidsUpTo(m, i)|
        invariant Indexed(map48[..], slots[..], KidsUpTo(m, i))
        invariant children[..] == cs
        invariant forall s :: pos <= s < 48 ==> slots[s] == Null
      {
        UpToStep(m, i);
        if children[i] != Null {
          IndexPair(map48, slots, i, children[i], pos, KidsUpTo(m, i));
          pos := pos + 1;
        }
        i := i + 1;
      }
    }

    method ShrinkTo48(ghost path: Key) returns (r: ArtNode)
      requires kind.Node256? && Layout() && |kids| == 37 && Header(path)
      ensures fresh(r.Own()) && r.kind.Node48? && r.Layout() && r.kids == kids && r.Header(path)
    {
      r := new ArtNode(Node48);
      r.CopyHeader(this, path);
      Fold(r.keys, r.children);
      r.kids := kids;
    }

    method ClearByte(c: byte)
      requires kind.Node256? && Layout() && c in kids
      modifies this`numChildren, this`kids, children
      ensures Layout() && kids == old(kids) - {c}
    {
      AtMost256Kids(kids);
      KidsMinus(kids, c);
      children[c] := Null;
      CountDown();
      kids := kids - {c};
    }

    method RemoveChild256(c: byte, ghost path: Key) returns (r: ArtNode)
      requires kind.Node256? && Layout() && Header(path) && c in kids && FewestKids(kind) <= |kids|
      modifies this`numChildren, this`kids, children
      ensures r == this || fresh(r.Own())
      ensures r.kind == Shrunk(kind, |old(kids)|) && (r == this <==> r.kind == kind)
      ensures r == this <==> |r.kids| != 37
      ensures r.Layout() && r.kids == old(kids) - {c} && r.Header(path) && FewestKids(r.kind) <= |r.kids|
    {
      KidsMinus(kids, c);
      AtMost256Kids(kids);
      ClearByte(c);
      if numChildren == 37 {
        r := ShrinkTo48(path);
      } else {
        r := this;
      }
    }

    /** `remove_child` for the three larger layouts. */
    method RemoveChildLarge(c: byte, slot: int, ghost path: Key) returns (r: ArtNode)
      requires !kind.Node4? && Layout() && Header(path) && SlotFor(c, slot) && c in kids
      requires FewestKids(kind) <= |kids|
      modifies this`numChildren, this`kids, keys, children
      ensures r == this || fresh(r.Own())
      ensures r.kind == Shrunk(kind, |old(kids)|) && (r == this <==> r.kind == kind)
      ensures r == this <==> |r.kids| != match kind case Node16 => 3 case Node48 => 12 case _ => 37
      ensures r.Layout() && r.kids == old(kids) - {c} && r.Header(path) && FewestKids(r.kind) <= |r.kids|
    {
      match kind {
        case Node16 => r := RemoveChild16(c, slot, path);
        case Node48 => r := RemoveChild48(c, path);
        case Node256 => r := RemoveChild256(c, path);
      }
    }

    // ---------------------------------------------------------- sequences of changes

    /** One `add_child` or `remove_child` that leaves a child or more beside the one removed. */
    method Edit(e: Edit, ghost path: Key) returns (r: ArtNode)
      requires Layout() && Header(path) && Enough(kind, kids) && EditFits(kids, e)
      modifies this`numChildren, this`kids, keys, children
      ensures r == this || fresh(r.Own())
      ensures r.Layout() && r.Header(path) && r.kids == Edited(old(kids), e) && Enough(r.kind, r.kids)
      ensures r.kind == KindAfter(kind, old(kids), e)
      ensures e.Add? ==> (r == this <==> |old(kids)| < children.Length)
      ensures e.Take? ==>
                (r != this <==> match kind case Node4 => false case Node16 => |r.kids| == 3
                                           case Node48 => |r.kids| == 12 case Node256 => |r.kids| == 37)
    {
      hide Layout, Header;
      match e {
        case Add(c, child) =>
          AddedCount(kids, c, child);
          r := AddChild(c, child, path);
        case Take(c) =>
          KidsMinus(kids, c);
          r := RemoveEdge(c, path);
      }
    }

    /** `find_child` and `remove_child` together. */
    method RemoveEdge(c: byte, ghost path: Key) returns (r: ArtNode)
      requires Layout() && Header(path) && Enough(kind, kids) && c in kids && |kids| >= 3
      modifies this`numChildren, this`kids, keys, children
      ensures r == this || fresh(r.Own())
      ensures r.Layout() && r.Header(path) && r.kids == old(kids) - {c}
      ensures r.kind == Shrunk(kind, |old(kids)|) && FewestKids(r.kind) <= |r.kids|
      ensures r != this <==> match kind case Node4 => false case Node16 => |r.kids| == 3
                                        case Node48 => |r.kids| == 12 case Node256 => |r.kids| == 37
    {
      hide Layout, Header, Stored;
      var slot := FindChild(c);
      if kind.Node4? {
        KidsMinus(kids, c);
        TakeHere(c, slot, path);
        r := this;
      } else {
        r := RemoveChildLarge(c, slot, path);
      }
    }

    method TakeHere(c: byte, slot: int, ghost path: Key)
      requires kind.Node4? && Layout() && Header(path) && SlotFor(c, slot) && c in kids
      modifies this`numChildren, this`kids, keys, children
      ensures Layout() && Header(path) && kids == old(kids) - {c}
    {
      hide Layout, Stored;
      TakeAt(c, slot);
    }

    /**
      Any sequence of changes, through every growth and shrinking: the node that is left holds the map
      that the changes make of the old one, so `FindChild` finds the last child stored under each byte.
     */
    method EditAll(edits: seq<Edit>, ghost path: Key) returns (r: ArtNode)
      requires Layout() && Header(path) && Enough(kind, kids) && EditsFit(kids, edits)
      modifies this`numChildren, this`kids, keys, children
      ensures r == this || fresh(r.Own())
      ensures r.Layout() && r.Header(path) && r.kids == EditedAll(old(kids), edits)
      ensures r.kind == KindAfterAll(kind, old(kids), edits)
    {
      hide Layout, Header, EditFits, Edited, KindAfter, Enough;
      ghost var start := kids;
      r := this;
      var i := 0;
      assert edits[..0] == [];
      while i < |edits|
        invariant 0 <= i <= |edits|
        invariant r == this || fresh(r.Own())
        invariant r.Layout() && r.Header(path) && Enough(r.kind, r.kids)
        invariant r.kids == EditedAll(start, edits[..i])
        invariant r.kind == KindAfterAll(kind, start, edits[..i])
        modifies this`numChildren, this`kids, keys, children
      {
        EditedStep(kind, start, edits, i);
        r := r.Edit(edits[i], path);
        i := i + 1;
      }
      assert edits[..|edits|] == edits;
    }

    /**
      The end of `remove_child4`: the edge byte and as much of the child's path as fits are
      appended to this node's buffer, which then becomes the child's.
     */
    method Absorb(child: ArtNode, ghost upper: Key, ghost lower: Key)
      requires Header(upper) && child.Header(lower) && partial != child.partial && this != child
      requires partial != child.keys && keys.Length > 0 && keys != child.partial
      modifies partial, child`partialLen, child.partial
      ensures child.Header(upper + [keys[0]] + lower)
    {
      ghost var up, low := partial[..], child.partial[..];
      var prefix := partialLen;
      if prefix < MAX_PREFIX_LEN {
        partial[prefix] := keys[0];
        prefix := prefix + 1;
      }
      if prefix < MAX_PREFIX_LEN {
        var sub := Min(child.partialLen, MAX_PREFIX_LEN - prefix);
        forall i | 0 <= i < sub { partial[prefix + i] := child.partial[i]; }
        prefix := prefix + sub;
      }
      CopyFirst(child.partial, partial, Min(prefix, MAX_PREFIX_LEN));
      child.partialLen := child.partialLen + partialLen + 1;
      MergeExact(up, upper, keys[0], low, lower);
      ghost var merged := Merged(up, |upper|, keys[0], low, |lower|);
      assert forall i :: 0 <= i < Min(prefix, MAX_PREFIX_LEN) ==> partial[i] == merged[i];
    }

    /** The one child a node4 has left, where its collapse starts. */
    method SoleChild() returns (p: Ptr, b: byte)
      requires kind.Node4? && Layout() && |kids| == 1
      ensures b in kids && p == kids[b] && keys.Length > 0 && b == keys[0]
    {
      p, b := children[0], keys[0];
    }

    // ---------------------------------------------------------- the ends

    /** The child with the least edge byte, where `minimum` goes on. */
    method FirstChild() returns (p: Ptr, ghost b: byte)
      requires Layout() && |kids| >= 1
      ensures b in kids && p == kids[b]
      ensures forall c :: c in kids ==> b <= c
    {
      ghost var some := SomeKid(kids);
      match kind {
        case Node4 => p, b := children[0], keys[0]; LeastKey(keys[..], children[..], kids);
        case Node16 => p, b := children[0], keys[0]; LeastKey(keys[..], children[..], kids);
        case Node48 => p, b := FirstIndexed(some);
        case Node256 => p, b := FirstDirect(some);
      }
    }

    method FirstIndexed(ghost some: byte) returns (p: Ptr, ghost b: byte)
      requires kind.Node48? && Layout() && some in kids
      ensures b in kids && p == kids[b]
      ensures forall c :: c in kids ==> b <= c
    {
      ghost var ks, cs, m := keys[..], children[..], kids;
      assert Slotted(ks, cs, m, some);
      var idx: byte := 0;
      while keys[idx] == 0
        invariant idx <= some
        invariant forall c: byte :: c < idx ==> c !in m
        decreases some - idx
      {
        assert Slotted(ks, cs, m, idx);
        idx := idx + 1;
      }
      assert Slotted(ks, cs, m, idx);
      p, b := children[keys[idx] - 1], idx;
    }

    method FirstDirect(ghost some: byte) returns (p: Ptr, ghost b: byte)
      requires kind.Node256? && Layout() && some in kids
      ensures b in kids && p == kids[b]
      ensures forall c :: c in kids ==> b <= c
    {
      var idx: byte := 0;
      while children[idx] == Null
        invariant idx <= some
        invariant forall c: byte :: c < idx ==> c !in kids
        decreases some - idx
      {
        idx := idx + 1;
      }
      p, b := children[idx], idx;
    }

    /** The child with the greatest edge byte, where `maximum` goes on. */
    method LastChild() returns (p: Ptr, ghost b: byte)
      requires Layout() && |kids| >= 1
      ensures b in kids && p == kids[b]
      ensures forall c :: c in kids ==> c <= b
    {
      ghost var some := SomeKid(kids);
      match kind {
        case Node4 =>
          p, b := children[numChildren - 1], keys[numChildren - 1];
          GreatestKey(keys[..], children[..], kids);
        case Node16 =>
          p, b := children[numChildren - 1], keys[numChildren - 1];
          GreatestKey(keys[..], children[..], kids);
        case Node48 => p, b := LastIndexed(some);
        case Node256 => p, b := LastDirect(some);
      }
    }

    method LastIndexed(ghost some: byte) returns (p: Ptr, ghost b: byte)
      requires kind.Node48? && Layout() && some in kids
      ensures b in kids && p == kids[b]
      ensures forall c :: c in kids ==> c <= b
    {
      ghost var ks, cs, m := keys[..], children[..], kids;
      assert Slotted(ks, cs, m, some);
      var idx: byte := 255;
      while keys[idx] == 0
        invariant idx >= some
        invariant forall c: byte :: c > idx ==> c !in m
        decreases idx - some
      {
        assert Slotted(ks, cs, m, idx);
        idx := idx - 1;
      }
      assert Slotted(ks, cs, m, idx);
      p, b := children[keys[idx] - 1], idx;
    }

    method LastDirect(ghost some: byte) returns (p: Ptr, ghost b: byte)
      requires kind.Node256? && Layout() && some in kids
      ensures b in kids && p == kids[b]
      ensures forall c :: c in kids ==> c <= b
    {
      var idx: byte := 255;
      while children[idx] == Null
        invariant idx >= some
        invariant forall c: byte :: c > idx ==> c !in kids
        decreases idx - some
      {
        idx := idx - 1;
      }
      p, b := children[idx], idx;
    }

    // ---------------------------------------------------------- the children in order

    /** The children in the order in which every traversal visits them. */
    method InByteOrder() returns (cs: seq<Ptr>, ghost bs: seq<byte>)
      requires Layout()
      ensures |bs| == |cs| == |kids| && Dense(bs, cs, |kids|, kids)
    {
      match kind {
        case Node4 =>
          cs, bs := children[..numChildren], keys[..numChildren];
          DensePrefix(keys[..], children[..], kids);
        case Node16 =>
          cs, bs := children[..numChildren], keys[..numChildren];
          DensePrefix(keys[..], children[..], kids);
        case Node48 => cs, bs := IndexedInOrder();
        case Node256 => cs, bs := DirectInOrder();
      }
    }

    method IndexedInOrder() returns (cs: seq<Ptr>, ghost bs: seq<byte>)
      requires kind.Node48? && Layout()
      ensures |bs| == |cs| == |kids| && Dense(bs, cs, |kids|, kids)
    {
      hide Dense;
      ghost var ks, m := keys[..], kids;
      UpToEnds(m);
      DenseEmpty();
      cs, bs := [], [];
      var i := 0;
      while i < 256
        invariant 0 <= i <= 256
        invariant |bs| == |cs| == |KidsUpTo(m, i)| && Dense(bs, cs, |bs|, KidsUpTo(m, i))
      {
        assert Slotted(ks, children[..], m, i);
        UpToStep(m, i);
        if keys[i] != 0 {
          DensePlus(bs, cs, KidsUpTo(m, i), i, children[keys[i] - 1]);
          cs, bs := cs + [children[keys[i] - 1]], bs + [i];
        }
        i := i + 1;
      }
    }

    method DirectInOrder() returns (cs: seq<Ptr>, ghost bs: seq<byte>)
      requires kind.Node256? && Layout()
      ensures |bs| == |cs| == |kids| && Dense(bs, cs, |kids|, kids)
    {
      hide Dense;
      UpToEnds(kids);
      DenseEmpty();
      cs, bs := [], [];
      var i := 0;
      while i < 256
        invariant 0 <= i <= 256
        invariant |bs| == |cs| == |KidsUpTo(kids, i)| && Dense(bs, cs, |bs|, KidsUpTo(kids, i))
      {
        UpToStep(kids, i);
        if children[i] != Null {
          DensePlus(bs, cs, KidsUpTo(kids, i), i, children[i]);
          cs, bs := cs + [children[i]], bs + [i];
        }
        i := i + 1;
      }
    }
  }
}

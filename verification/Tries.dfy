/**
  The tree of art.cc with its compressed paths written out in full.

  An inner node is labelled with the whole byte string `pre` from the root to its branching
  byte. The original stores only the first ten bytes of the part below the parent; that
  shortened form, and the node layouts, are added by `PartialPaths`, `Nodes` and `RadixTrees`.
  A leaf whose value is `None` is a tag: the disabled prefix is its key.
 */
module Tries {
  import opened Bytes

  datatype Trie =
    | Leaf(key: Key, value: Option<Handle>)
    | Inner(pre: Key, kids: map<byte, Trie>)

  /** The bytes every key below `t` is known to start with. */
  function Prefix(t: Trie): Key {
    match t
    case Leaf(key, _) => key
    case Inner(pre, _) => pre
  }

  /** `k` starts with `pre` and goes on with `b`. */
  predicate Below(pre: Key, b: byte, k: Key) {
    |pre| < |k| && pre <= k && k[|pre|] == b
  }

  /** Every inner node has two children or more, and each child lies below its edge byte. */
  ghost predicate WellFormed(t: Trie) {
    t.Inner? ==>
      && |t.kids| >= 2
      && forall b | b in t.kids :: Below(t.pre, b, Prefix(t.kids[b])) && WellFormed(t.kids[b])
  }

  ghost function Keys(t: Trie): set<Key> {
    match t
    case Leaf(key, _) => {key}
    case Inner(_, kids) => set b, k | b in kids && k in Keys(kids[b]) :: k
  }

  /** The leaf an unchecked walk reaches: it looks at branching bytes only, and compares at the end. */
  function Entry(t: Trie, k: Key): Option<Option<Handle>> {
    match t
    case Leaf(key, value) => if key == k then Some(value) else None
    case Inner(pre, kids) =>
      if |pre| < |k| && k[|pre|] in kids then Entry(kids[k[|pre|]], k) else None
  }

  lemma {:induction false} KeysExtendPrefix(t: Trie, k: Key)
    requires WellFormed(t) && k in Keys(t)
    ensures Prefix(t) <= k
    ensures t.Inner? ==> |t.pre| < |k| && k[|t.pre|] in t.kids && k in Keys(t.kids[k[|t.pre|]])
  {
    if t.Inner? {
      var b :| b in t.kids && k in Keys(t.kids[b]);
      KeysExtendPrefix(t.kids[b], k);
    }
  }

  lemma KidKey(t: Trie, b: byte, k: Key)
    requires t.Inner? && b in t.kids && k in Keys(t.kids[b])
    ensures k in Keys(t)
  {
  }

  /** Descending by the branching byte finds exactly the stored keys. */
  lemma {:induction false} EntryIffKey(t: Trie, k: Key)
    requires WellFormed(t)
    ensures k in Keys(t) <==> Entry(t, k).Some?
  {
    if t.Inner? {
      if k in Keys(t) { KeysExtendPrefix(t, k); }
      if |t.pre| < |k| && k[|t.pre|] in t.kids {
        EntryIffKey(t.kids[k[|t.pre|]], k);
      }
    }
  }

  lemma EntryExtends(t: Trie, k: Key)
    requires WellFormed(t) && Entry(t, k).Some?
    ensures Prefix(t) <= k && k in Keys(t)
  {
    EntryIffKey(t, k);
    KeysExtendPrefix(t, k);
  }

  /** The one stored entry, if any, whose key is `q` or a prefix of `q`. */
  function Holder(t: Trie, q: Key): Option<Trie> {
    match t
    case Leaf(key, _) => if key <= q then Some(t) else None
    case Inner(pre, kids) =>
      if |pre| < |q| && q[|pre|] in kids then Holder(kids[q[|pre|]], q) else None
  }

  lemma {:induction false} HolderIff(t: Trie, q: Key, k: Key, v: Option<Handle>)
    requires WellFormed(t)
    ensures Holder(t, q) == Some(Leaf(k, v)) <==> k <= q && Entry(t, k) == Some(v)
  {
    if t.Inner? && |t.pre| < |q| && q[|t.pre|] in t.kids {
      var s := t.kids[q[|t.pre|]];
      HolderIff(s, q, k, v);
      if Entry(s, k).Some? { EntryExtends(s, k); }
    }
  }

  lemma {:induction false} HolderLeaf(t: Trie, q: Key)
    requires WellFormed(t) && Holder(t, q).Some?
    ensures Holder(t, q).value.Leaf?
    ensures Holder(t, q).value.key <= q && Prefix(t) <= Holder(t, q).value.key
    ensures Entry(t, Holder(t, q).value.key) == Some(Holder(t, q).value.value)
  {
    if t.Inner? {
      HolderLeaf(t.kids[q[|t.pre|]], q);
    }
  }

  lemma NoHolder(t: Trie, q: Key)
    requires WellFormed(t) && Holder(t, q).None?
    ensures Entry(t, q).None?
  {
    if Entry(t, q).Some? { HolderIff(t, q, q, Entry(t, q).value); }
  }

  lemma {:induction false} SomeKey(t: Trie) returns (k: Key)
    requires WellFormed(t)
    ensures k in Keys(t) && Prefix(t) <= k
  {
    if t.Leaf? {
      k := t.key;
    } else {
      var b := SomeKid(t.kids);
      k := SomeKey(t.kids[b]);
      KidKey(t, b, k);
    }
  }

  /** Two keys that part at the branching byte. */
  lemma TwoKeys(t: Trie) returns (j: Key, k: Key)
    requires WellFormed(t) && t.Inner?
    ensures j in Keys(t) && k in Keys(t) && |t.pre| < |j| && |t.pre| < |k| && j[|t.pre|] != k[|t.pre|]
  {
    var b := SomeKid(t.kids);
    DropKidCount(t.kids, b);
    var c := SomeKid(t.kids - {b});
    j := SomeKey(t.kids[b]);
    k := SomeKey(t.kids[c]);
    KidKey(t, b, j);
    KidKey(t, c, k);
  }

  // ---------------------------------------------------------------- the shape follows from the entries

  ghost predicate SameEntries(t: Trie, u: Trie) {
    forall k :: Entry(t, k) == Entry(u, k)
  }

  lemma SameKeys(t: Trie, u: Trie, k: Key)
    requires WellFormed(t) && WellFormed(u) && SameEntries(t, u)
    ensures k in Keys(t) <==> k in Keys(u)
  {
    EntryIffKey(t, k);
    EntryIffKey(u, k);
  }

  lemma PathNotLonger(t: Trie, u: Trie)
    requires WellFormed(t) && WellFormed(u) && SameEntries(t, u) && t.Inner?
    ensures u.Inner? && |u.pre| <= |t.pre|
  {
    hide SameEntries, Entry;
    var j, k := TwoKeys(t);
    SameKeys(t, u, j);
    SameKeys(t, u, k);
    KeysExtendPrefix(u, j);
    KeysExtendPrefix(u, k);
  }

  lemma PathSame(t: Trie, u: Trie)
    requires WellFormed(t) && WellFormed(u) && SameEntries(t, u) && t.Inner?
    ensures u.Inner? && u.pre == t.pre
  {
    hide SameEntries, Entry;
    PathNotLonger(t, u);
    assert SameEntries(u, t) by { Reversed(t, u); }
    PathNotLonger(u, t);
    var k := SomeKey(t);
    SameKeys(t, u, k);
    KeysExtendPrefix(t, k);
    KeysExtendPrefix(u, k);
  }

  lemma Reversed(t: Trie, u: Trie)
    requires SameEntries(t, u)
    ensures SameEntries(u, t)
  {
  }

  /** One key below an edge byte. */
  lemma EdgeKey(t: Trie, b: byte) returns (k: Key)
    requires WellFormed(t) && t.Inner? && b in t.kids
    ensures k in Keys(t) && |t.pre| < |k| && k[|t.pre|] == b
  {
    k := SomeKey(t.kids[b]);
    KidKey(t, b, k);
  }

  lemma SameEdge(t: Trie, u: Trie, b: byte)
    requires WellFormed(t) && WellFormed(u) && SameEntries(t, u) && t.Inner? && u.Inner? && u.pre == t.pre
    requires b in t.kids
    ensures b in u.kids && WellFormed(t.kids[b]) && WellFormed(u.kids[b]) && SameEntries(t.kids[b], u.kids[b])
  {
    hide Keys;
    var k := EdgeKey(t, b);
    SameKeys(t, u, k);
    KeysExtendPrefix(u, k);
    forall q ensures Entry(t.kids[b], q) == Entry(u.kids[b], q) {
      if Entry(t.kids[b], q).Some? { EntryExtends(t.kids[b], q); }
      if Entry(u.kids[b], q).Some? { EntryExtends(u.kids[b], q); }
      assert Entry(t, q) == Entry(u, q);
    }
  }

  /** Trees with the same entries are the same tree, whatever history built them. */
  lemma {:induction false} TrieUnique(t: Trie, u: Trie)
    requires WellFormed(t) && WellFormed(u) && SameEntries(t, u)
    ensures t == u
    decreases t
  {
    hide SameEntries, Entry, WellFormed, Keys;
    Reversed(t, u);
    if t.Inner? {
      PathSame(t, u);
      forall b: byte ensures (b in t.kids <==> b in u.kids) && (b in t.kids ==> t.kids[b] == u.kids[b]) {
        if b in u.kids { SameEdge(u, t, b); }
        if b in t.kids {
          SameEdge(t, u, b);
          TrieUnique(t.kids[b], u.kids[b]);
        }
      }
      assert t.kids == u.kids;
    } else {
      if u.Inner? { PathNotLonger(u, t); }
      LeavesSame(t, u);
    }
  }

  lemma LeavesSame(t: Trie, u: Trie)
    requires t.Leaf? && u.Leaf? && SameEntries(t, u)
    ensures t == u
  {
    assert Entry(t, t.key) == Entry(u, t.key);
  }

  lemma SomeKid(kids: map<byte, Trie>) returns (b: byte)
    requires |kids| >= 1
    ensures b in kids
  {
    b :| b in kids.Keys;
  }

  /** No stored key is a proper prefix of another: tags and active keys together are an antichain. */
  lemma {:induction false} KeysAntichain(t: Trie, j: Key, k: Key)
    requires WellFormed(t) && j in Keys(t) && k in Keys(t) && j <= k
    ensures j == k
  {
    KeysExtendPrefix(t, j);
    KeysExtendPrefix(t, k);
    if t.Inner? {
      KeysAntichain(t.kids[j[|t.pre|]], j, k);
    }
  }

  // ---------------------------------------------------------------- splitting a path

  ghost predicate Diverge(a: Key, b: Key) {
    !(a <= b) && !(b <= a)
  }

  /** A new node4 above `t` and a new leaf, branching where `t`'s path and `k` part. */
  function Split(t: Trie, k: Key, value: Option<Handle>): Trie
    requires Diverge(Prefix(t), k)
  {
    LcpWhole(Prefix(t), k);
    var m := Lcp(Prefix(t), k);
    Inner(k[..m], Two(Prefix(t)[m], t, k[m], Leaf(k, value)))
  }

  lemma PartingBelow(a: Key, b: Key)
    requires Diverge(a, b)
    ensures Lcp(a, b) < |a| && Lcp(a, b) < |b| && a[Lcp(a, b)] != b[Lcp(a, b)]
    ensures Below(b[..Lcp(a, b)], a[Lcp(a, b)], a)
    ensures Below(b[..Lcp(a, b)], b[Lcp(a, b)], b)
  {
    LcpWhole(a, b);
  }

  lemma SplitWellFormed(t: Trie, k: Key, value: Option<Handle>)
    requires WellFormed(t) && Diverge(Prefix(t), k)
    ensures WellFormed(Split(t, k, value))
  {
    hide Below, Prefix, Diverge;
    PartingBelow(Prefix(t), k);
    var m := Lcp(Prefix(t), k);
    assert Prefix(Leaf(k, value)) == k by { LeafPrefix(k, value); }
    PairWellFormed(k[..m], Prefix(t)[m], t, k[m], Leaf(k, value));
  }

  lemma LeafPrefix(k: Key, value: Option<Handle>)
    ensures Prefix(Leaf(k, value)) == k && WellFormed(Leaf(k, value))
  {
  }

  lemma PairWellFormed(pre: Key, a: byte, s: Trie, b: byte, t: Trie)
    requires a != b && WellFormed(s) && WellFormed(t)
    requires Below(pre, a, Prefix(s)) && Below(pre, b, Prefix(t))
    ensures WellFormed(Inner(pre, Two(a, s, b, t)))
  {
    hide Below, Prefix;
  }

  lemma SplitEntry(t: Trie, k: Key, value: Option<Handle>, q: Key)
    requires WellFormed(t) && Diverge(Prefix(t), k)
    ensures Entry(Split(t, k, value), q) == if q == k then Some(value) else Entry(t, q)
  {
    LcpWhole(Prefix(t), k);
    if Entry(t, q).Some? { EntryExtends(t, q); }
  }

  /** Replacing or adding one child. */
  lemma ReplaceKidWellFormed(t: Trie, b: byte, s: Trie)
    requires WellFormed(t) && t.Inner? && WellFormed(s) && Below(t.pre, b, Prefix(s))
    ensures WellFormed(Inner(t.pre, t.kids[b := s]))
  {
    hide Below, Prefix;
    ReplaceKidCount(t.kids, b, s);
  }

  lemma ReplaceKidCount(kids: map<byte, Trie>, b: byte, s: Trie)
    ensures |kids[b := s]| == if b in kids then |kids| else |kids| + 1
  {
    hide WellFormed;
    assert kids[b := s].Keys == kids.Keys + {b};
    assert |kids[b := s]| == |kids[b := s].Keys| && |kids| == |kids.Keys|;
    if b in kids { assert kids.Keys + {b} == kids.Keys; }
  }

  // ---------------------------------------------------------------- insert

  /** `k` neither covers nor is covered by a different stored key. */
  ghost predicate Insertable(t: Trie, k: Key) {
    forall q | q in Keys(t) :: q == k || Diverge(q, k)
  }

  lemma InsertableKid(t: Trie, k: Key, b: byte)
    requires t.Inner? && b in t.kids && Insertable(t, k)
    ensures Insertable(t.kids[b], k)
  {
    forall q | q in Keys(t.kids[b]) ensures q == k || Diverge(q, k) { KidKey(t, b, q); }
  }

  /** Either the paths part, or `k` runs on below `t`, or `t` is the leaf of `k`. */
  lemma InsertCases(t: Trie, k: Key)
    requires WellFormed(t) && Insertable(t, k)
    ensures t.Leaf? ==> t.key == k || Diverge(t.key, k)
    ensures t.Inner? && !Diverge(t.pre, k) ==> t.pre < k
  {
    if t.Leaf? {
      assert t.key in Keys(t);
    } else {
      var q := SomeKey(t);
      KeysExtendPrefix(t, q);
    }
  }

  function Insert(t: Trie, k: Key, v: Handle): Trie
    requires WellFormed(t) && Insertable(t, k)
  {
    InsertCases(t, k);
    match t
    case Leaf(key, _) => if key == k then Leaf(key, Some(v)) else Split(t, k, Some(v))
    case Inner(pre, kids) =>
      if !(pre <= k) then Split(t, k, Some(v))
      else if k[|pre|] in kids then
        InsertableKid(t, k, k[|pre|]);
        Inner(pre, kids[k[|pre|] := Insert(kids[k[|pre|]], k, v)])
      else Inner(pre, kids[k[|pre|] := Leaf(k, Some(v))])
  }

  lemma InsertPrefix(t: Trie, k: Key, v: Handle, pre: Key, b: byte)
    requires WellFormed(t) && Insertable(t, k)
    requires Below(pre, b, Prefix(t)) && Below(pre, b, k)
    ensures Below(pre, b, Prefix(Insert(t, k, v)))
  {
    InsertCases(t, k);
  }

  lemma {:induction false} InsertWellFormed(t: Trie, k: Key, v: Handle)
    requires WellFormed(t) && Insertable(t, k)
    ensures WellFormed(Insert(t, k, v))
  {
    InsertCases(t, k);
    if t.Leaf? {
      if t.key != k { SplitWellFormed(t, k, Some(v)); }
    } else if !(t.pre <= k) {
      SplitWellFormed(t, k, Some(v));
    } else {
      var b := k[|t.pre|];
      if b in t.kids {
        InsertableKid(t, k, b);
        InsertWellFormed(t.kids[b], k, v);
        InsertPrefix(t.kids[b], k, v, t.pre, b);
        ReplaceKidWellFormed(t, b, Insert(t.kids[b], k, v));
      } else {
        ReplaceKidWellFormed(t, b, Leaf(k, Some(v)));
      }
    }
  }

  lemma {:induction false} InsertEntry(t: Trie, k: Key, v: Handle, q: Key)
    requires WellFormed(t) && Insertable(t, k)
    ensures Entry(Insert(t, k, v), q) == if q == k then Some(Some(v)) else Entry(t, q)
  {
    InsertCases(t, k);
    if t.Leaf? {
      if t.key != k { SplitEntry(t, k, Some(v), q); }
    } else if !(t.pre <= k) {
      SplitEntry(t, k, Some(v), q);
    } else if k[|t.pre|] in t.kids {
      InsertableKid(t, k, k[|t.pre|]);
      InsertEntry(t.kids[k[|t.pre|]], k, v, q);
    }
  }

  // ---------------------------------------------------------------- delete

  /** What is left of an inner node when one child goes: a sole survivor takes its place. */
  function DropKid(t: Trie, b: byte): Trie
    requires t.Inner? && b in t.kids && |t.kids| >= 2
  {
    var rest := t.kids - {b};
    if |rest| == 1 then rest[SoleByte(rest)] else Inner(t.pre, rest)
  }

  function SoleByte(kids: map<byte, Trie>): (b: byte)
    requires |kids| == 1
    ensures kids.Keys == {b}
  {
    SoleKid(kids);
    var b :| b in kids;
    b
  }

  lemma SoleKid(kids: map<byte, Trie>)
    requires |kids| == 1
    ensures exists b :: b in kids
    ensures forall b, c :: b in kids && c in kids ==> b == c
    ensures forall b :: b in kids ==> kids.Keys == {b}
  {
    var b := SomeKid(kids);
    assert |kids.Keys - {b}| == 0;
    assert kids.Keys == {b};
  }

  lemma DropKidCount(kids: map<byte, Trie>, b: byte)
    requires b in kids
    ensures |kids - {b}| == |kids| - 1
  {
    assert (kids - {b}).Keys == kids.Keys - {b};
    assert |kids - {b}| == |(kids - {b}).Keys|;
  }

  /** The tree without `k`; `None` when nothing is left. */
  function Delete(t: Trie, k: Key): Option<Trie>
    requires WellFormed(t)
  {
    match t
    case Leaf(key, _) => if key == k then None else Some(t)
    case Inner(pre, kids) =>
      if |pre| < |k| && k[|pre|] in kids then
        var s := Delete(kids[k[|pre|]], k);
        if s.None? then Some(DropKid(t, k[|pre|]))
        else Some(Inner(pre, kids[k[|pre|] := s.value]))
      else Some(t)
  }

  lemma DropKidWellFormed(t: Trie, b: byte)
    requires WellFormed(t) && t.Inner? && b in t.kids
    ensures WellFormed(DropKid(t, b)) && t.pre <= Prefix(DropKid(t, b))
  {
    DropKidCount(t.kids, b);
  }

  lemma DropKidEntry(t: Trie, b: byte, q: Key)
    requires WellFormed(t) && t.Inner? && b in t.kids
    ensures Entry(DropKid(t, b), q) == if |t.pre| < |q| && q[|t.pre|] == b then None else Entry(t, q)
  {
    var rest := t.kids - {b};
    if |rest| == 1 {
      var c := SoleByte(rest);
      assert c in t.kids && c != b;
      forall e | e in t.kids ensures e == b || e == c { assert e == b || e in rest.Keys; }
      if Entry(t.kids[c], q).Some? { EntryExtends(t.kids[c], q); }
    }
  }

  lemma {:induction false} DeleteWellFormed(t: Trie, k: Key)
    requires WellFormed(t)
    ensures Delete(t, k).Some? ==>
              WellFormed(Delete(t, k).value) && Prefix(t) <= Prefix(Delete(t, k).value)
  {
    if t.Inner? && |t.pre| < |k| && k[|t.pre|] in t.kids {
      var b := k[|t.pre|];
      DeleteWellFormed(t.kids[b], k);
      var s := Delete(t.kids[b], k);
      if s.None? {
        DropKidWellFormed(t, b);
      } else {
        ReplaceKidWellFormed(t, b, s.value);
      }
    }
  }

  lemma {:induction false} DeleteEntry(t: Trie, k: Key, q: Key)
    requires WellFormed(t)
    ensures (if Delete(t, k).Some? then Entry(Delete(t, k).value, q) else None)
         == if q == k then None else Entry(t, q)
  {
    if t.Inner? && |t.pre| < |k| && k[|t.pre|] in t.kids {
      var b := k[|t.pre|];
      DeleteEntry(t.kids[b], k, q);
      if Delete(t.kids[b], k).None? { DropKidEntry(t, b, q); }
    }
  }

  // ---------------------------------------------------------------- disable

  /** No stored key is a proper prefix of `p`. */
  ghost predicate NoneAbove(t: Trie, p: Key) {
    forall q | q in Keys(t) :: !(q < p)
  }

  lemma NoneAboveKid(t: Trie, p: Key, b: byte)
    requires t.Inner? && b in t.kids && NoneAbove(t, p)
    ensures NoneAbove(t.kids[b], p)
  {
    forall q | q in Keys(t.kids[b]) ensures !(q < p) { KidKey(t, b, q); }
  }

  lemma DisableCases(t: Trie, p: Key)
    requires WellFormed(t) && NoneAbove(t, p)
    ensures t.Leaf? ==> p <= t.key || Diverge(t.key, p)
    ensures t.Inner? ==> p <= t.pre || Diverge(t.pre, p) || t.pre < p
  {
    if t.Leaf? { assert t.key in Keys(t); }
  }

  function Disable(t: Trie, p: Key): Trie
    requires WellFormed(t) && NoneAbove(t, p)
  {
    DisableCases(t, p);
    if p <= Prefix(t) then Leaf(p, None)
    else if !(Prefix(t) <= p) then Split(t, p, None)
    else
      var b := p[|t.pre|];
      if b in t.kids then
        NoneAboveKid(t, p, b);
        Inner(t.pre, t.kids[b := Disable(t.kids[b], p)])
      else Inner(t.pre, t.kids[b := Leaf(p, None)])
  }

  lemma DisablePrefix(t: Trie, p: Key, pre: Key, b: byte)
    requires WellFormed(t) && NoneAbove(t, p)
    requires Below(pre, b, Prefix(t)) && Below(pre, b, p)
    ensures Below(pre, b, Prefix(Disable(t, p)))
  {
    DisableCases(t, p);
  }

  lemma {:induction false} DisableWellFormed(t: Trie, p: Key)
    requires WellFormed(t) && NoneAbove(t, p)
    ensures WellFormed(Disable(t, p))
  {
    DisableCases(t, p);
    if p <= Prefix(t) {
    } else if !(Prefix(t) <= p) {
      SplitWellFormed(t, p, None);
    } else {
      var b := p[|t.pre|];
      if b in t.kids {
        NoneAboveKid(t, p, b);
        DisableWellFormed(t.kids[b], p);
        DisablePrefix(t.kids[b], p, t.pre, b);
        ReplaceKidWellFormed(t, b, Disable(t.kids[b], p));
      } else {
        ReplaceKidWellFormed(t, b, Leaf(p, None));
      }
    }
  }

  lemma {:induction false} DisableEntry(t: Trie, p: Key, q: Key)
    requires WellFormed(t) && NoneAbove(t, p)
    ensures Entry(Disable(t, p), q)
         == if q == p then Some(None) else if p <= q then None else Entry(t, q)
  {
    DisableCases(t, p);
    if Entry(t, q).Some? { EntryExtends(t, q); }
    if p <= Prefix(t) {
    } else if !(Prefix(t) <= p) {
      SplitEntry(t, p, None, q);
    } else if p[|t.pre|] in t.kids {
      NoneAboveKid(t, p, p[|t.pre|]);
      DisableEntry(t.kids[p[|t.pre|]], p, q);
    }
  }

  /** Keys above `p` lie on the way down to it. */
  lemma NoneAboveStep(t: Trie, p: Key)
    requires WellFormed(t) && t.Inner?
    ensures !(t.pre < p) ==> NoneAbove(t, p)
    ensures t.pre < p && p[|t.pre|] !in t.kids ==> NoneAbove(t, p)
    ensures t.pre < p && p[|t.pre|] in t.kids ==> (NoneAbove(t, p) <==> NoneAbove(t.kids[p[|t.pre|]], p))
  {
    forall q | q in Keys(t) && q < p
      ensures t.pre < p && p[|t.pre|] in t.kids && q in Keys(t.kids[p[|t.pre|]])
    {
      KeysExtendPrefix(t, q);
    }
    if t.pre < p && p[|t.pre|] in t.kids && NoneAbove(t, p) { NoneAboveKid(t, p, p[|t.pre|]); }
  }

  /** Whatever is stored above `p` is a tag. */
  ghost predicate OnlyTagsAbove(t: Trie, p: Key) {
    forall q | q in Keys(t) && q < p :: Entry(t, q) == Some(None)
  }

  lemma OnlyTagsAboveKid(t: Trie, p: Key, b: byte)
    requires WellFormed(t) && t.Inner? && b in t.kids && OnlyTagsAbove(t, p)
    ensures OnlyTagsAbove(t.kids[b], p)
  {
    forall q | q in Keys(t.kids[b]) && q < p ensures Entry(t.kids[b], q) == Some(None) {
      KidKey(t, b, q);
      KeysExtendPrefix(t.kids[b], q);
    }
  }
}

/** What the tree stands for, active keys with values and disabled prefixes, and what each operation does to it. */
module TrieMaps {
  import opened Bytes
  import opened Tries
  import opened TrieOrder

  /** Key to `Some(value)` for an active key, to `None` for a tag. */
  type Entries = map<Key, Option<Handle>>

  ghost function EntriesOf(t: Trie): Entries {
    map k | k in Keys(t) && Entry(t, k).Some? :: Entry(t, k).value
  }

  /** An empty tree has no node at all. */
  ghost function EntriesOrNone(t: Option<Trie>): Entries {
    if t.None? then map[] else EntriesOf(t.value)
  }

  ghost function Active(m: Entries): map<Key, Handle> {
    map k | k in m && m[k].Some? :: m[k].value
  }

  ghost function Tags(m: Entries): set<Key> {
    set k | k in m && m[k].None?
  }

  /** Some tag is a proper prefix of `q`. */
  ghost predicate Covered(m: Entries, q: Key) {
    exists p :: p in Tags(m) && p < q
  }

  /** What disabling `p` does: everything under `p` goes, and `p` stays as a tag. */
  ghost function Disabled(m: Entries, p: Key): Entries {
    (map q | q in m && !(p <= q) :: m[q])[p := None]
  }

  ghost predicate SameAt(t: Trie, m: Entries, q: Key) {
    Entry(t, q) == if q in m then Some(m[q]) else None
  }

  lemma EntriesAt(t: Trie, q: Key)
    requires WellFormed(t)
    ensures q in EntriesOf(t) <==> Entry(t, q).Some?
    ensures q in EntriesOf(t) <==> q in Keys(t)
    ensures SameAt(t, EntriesOf(t), q)
  {
    EntryIffKey(t, q);
  }

  lemma EntriesEqual(t: Trie, m: Entries)
    requires WellFormed(t) && forall q :: SameAt(t, m, q)
    ensures EntriesOf(t) == m
  {
    var e := EntriesOf(t);
    forall q ensures (q in e <==> q in m) && (q in m ==> e[q] == m[q]) {
      EntriesAt(t, q);
      assert SameAt(t, m, q);
    }
  }

  /** The map a tree stands for determines the tree. */
  lemma ShapeFromEntries(t: Trie, u: Trie)
    requires WellFormed(t) && WellFormed(u) && EntriesOf(t) == EntriesOf(u)
    ensures t == u
  {
    hide WellFormed, Keys, Entry, EntriesOf;
    forall q ensures Entry(t, q) == Entry(u, q) {
      EntriesAt(t, q);
      EntriesAt(u, q);
    }
    TrieUnique(t, u);
  }

  /** Insert is a map update, whatever it splits. */
  lemma InsertRefines(t: Trie, k: Key, v: Handle)
    requires WellFormed(t) && Insertable(t, k)
    ensures WellFormed(Insert(t, k, v))
    ensures EntriesOf(Insert(t, k, v)) == EntriesOf(t)[k := Some(v)]
  {
    hide Insert, Entry, WellFormed, Keys, Insertable;
    InsertWellFormed(t, k, v);
    var u, m := Insert(t, k, v), EntriesOf(t)[k := Some(v)];
    forall q ensures SameAt(u, m, q) {
      EntriesAt(t, q);
      InsertEntry(t, k, v, q);
    }
    EntriesEqual(u, m);
  }

  /** Delete is a map removal, whatever it merges; the tree vanishes exactly with its last entry. */
  lemma DeleteRefines(t: Trie, k: Key)
    requires WellFormed(t)
    ensures Delete(t, k).Some? ==> WellFormed(Delete(t, k).value)
    ensures EntriesOrNone(Delete(t, k)) == EntriesOf(t) - {k}
    ensures Delete(t, k).None? <==> EntriesOf(t) - {k} == map[]
  {
    hide Delete, Entry, WellFormed, Keys;
    DeleteWellFormed(t, k);
    var m := EntriesOf(t) - {k};
    if Delete(t, k).Some? {
      var u := Delete(t, k).value;
      forall q ensures SameAt(u, m, q) {
        EntriesAt(t, q);
        DeleteEntry(t, k, q);
      }
      EntriesEqual(u, m);
      var q := SomeKey(u);
      EntriesAt(u, q);
    } else {
      forall q ensures q !in m {
        EntriesAt(t, q);
        DeleteEntry(t, k, q);
      }
    }
  }

  /** Disable replaces everything under a prefix by the tag. */
  lemma DisableRefines(t: Trie, p: Key)
    requires WellFormed(t) && NoneAbove(t, p)
    ensures WellFormed(Disable(t, p))
    ensures EntriesOf(Disable(t, p)) == Disabled(EntriesOf(t), p)
  {
    hide Disable, Entry, WellFormed, Keys, NoneAbove;
    DisableWellFormed(t, p);
    var u, m := Disable(t, p), Disabled(EntriesOf(t), p);
    forall q ensures SameAt(u, m, q) {
      EntriesAt(t, q);
      DisableEntry(t, p, q);
    }
    EntriesEqual(u, m);
  }

  /** The entries, active or tag, whose key starts with `p`. */
  ghost function Extending(m: Entries, p: Key): Entries {
    map q | q in m && p <= q :: m[q]
  }

  /** Disabling in terms of the two parts of the state, the active keys and the tags. */
  lemma DisabledParts(m: Entries, p: Key)
    ensures Active(Disabled(m, p)) == map q | q in Active(m) && !(p <= q) :: Active(m)[q]
    ensures Tags(Disabled(m, p)) == (set q | q in Tags(m) && !(p <= q)) + {p}
  {
    assert p <= p;
  }

  // What the operations ask of the entries.

  /** `k` neither covers nor is covered by a different entry. */
  ghost predicate MayInsert(m: Entries, k: Key) {
    forall q | q in m :: q == k || Diverge(q, k)
  }

  /** No entry is longer than `n`. */
  ghost predicate Within(m: Entries, n: nat) {
    forall q | q in m :: |q| <= n
  }

  /** Entries above `p` are tags. */
  ghost predicate TagsOver(m: Entries, p: Key) {
    forall q | q in m && q < p :: m[q].None?
  }

  lemma InsertableIn(t: Trie, k: Key)
    requires WellFormed(t) && MayInsert(EntriesOf(t), k)
    ensures Insertable(t, k)
  {
    hide WellFormed, Keys, Entry;
    forall q | q in Keys(t) ensures q == k || Diverge(q, k) { EntriesAt(t, q); }
  }

  lemma CoverIn(t: Trie, p: Key)
    requires WellFormed(t) && TagsOver(EntriesOf(t), p)
    ensures OnlyTagsAbove(t, p)
    ensures NoneAbove(t, p) <==> !Covered(EntriesOf(t), p)
  {
    hide WellFormed, Keys, Entry;
    var m := EntriesOf(t);
    forall q | q in Keys(t) && q < p ensures Entry(t, q) == Some(None) && q in Tags(m) { EntriesAt(t, q); }
    forall q | q in Tags(m) && q < p ensures q in Keys(t) { EntriesAt(t, q); }
  }

  /** The three answers of a lookup. */
  ghost function LookupCode(m: Entries, q: Key): int {
    if Covered(m, q) then -1 else if q in Active(m) then 1 else 0
  }

  /** The leaf that an optimistic walk reaches decides them all. */
  lemma HolderAnswers(t: Trie, q: Key)
    requires WellFormed(t)
    ensures Holder(t, q).None? ==> LookupCode(EntriesOf(t), q) == 0 && q !in EntriesOf(t)
    ensures Holder(t, q).Some? ==> Answers(EntriesOf(t), q, Holder(t, q).value)
  {
    hide WellFormed, Keys, Entry, Holder;
    var m := EntriesOf(t);
    EntriesAt(t, q);
    if q in m { HolderIff(t, q, q, m[q]); }
    forall p | p in Tags(m) && p < q ensures Holder(t, q) == Some(Leaf(p, None)) {
      EntriesAt(t, p);
      HolderIff(t, q, p, None);
    }
    if Holder(t, q).Some? {
      var l := Holder(t, q).value;
      HolderLeaf(t, q);
      EntriesAt(t, l.key);
      assert SameAt(t, m, l.key) && SameAt(t, m, q);
      assert l.value.None? ==> l.key in Tags(m);
    }
  }

  ghost predicate Answers(m: Entries, q: Key, l: Trie) {
    && l.Leaf? && l.key <= q
    && (q in m <==> l.key == q) && (q in m ==> m[q] == l.value)
    && LookupCode(m, q) == if l.value.None? && l.key < q then -1
                           else if l.value.Some? && l.key == q then 1 else 0
  }

  // The four ways in which a prefix can meet a tree.

  lemma DisableWhole(t: Trie, p: Key)
    requires WellFormed(t) && p <= Prefix(t)
    ensures NoneAbove(t, p) && Disable(t, p) == Leaf(p, None)
    ensures |Extending(EntriesOf(t), p)| == |InOrder(t)|
  {
    hide WellFormed, Prefix, InOrder, Entry, Keys;
    forall q | q in Keys(t) ensures !(q < p) && p <= q { KeysExtendPrefix(t, q); }
    var m := EntriesOf(t);
    forall q | q in m ensures p <= q { EntriesAt(t, q); }
    assert Extending(m, p) == m;
    TraversalRefines(t);
  }

  lemma DisableAside(t: Trie, p: Key)
    requires WellFormed(t) && Diverge(Prefix(t), p)
    ensures NoneAbove(t, p) && Disable(t, p) == Split(t, p, None)
    ensures |Extending(EntriesOf(t), p)| == 0
  {
    hide WellFormed, Prefix, Entry, Keys, Split;
    forall q | q in Keys(t) ensures !(q < p) && !(p <= q) { AsideKey(t, p, q); }
    var m := EntriesOf(t);
    forall q | q in m ensures !(p <= q) { EntriesAt(t, q); }
    assert Extending(m, p) == map[];
  }

  lemma AsideKey(t: Trie, p: Key, q: Key)
    requires WellFormed(t) && Diverge(Prefix(t), p) && q in Keys(t)
    ensures !(q < p) && !(p <= q)
  {
    KeysExtendPrefix(t, q);
    if q <= p { PrefixesComparable(Prefix(t), q, p); }
    if p <= q { PrefixesComparable(Prefix(t), p, q); }
  }

  lemma DisableBeside(t: Trie, p: Key)
    requires WellFormed(t) && t.Inner? && t.pre < p && p[|t.pre|] !in t.kids
    ensures NoneAbove(t, p) && Disable(t, p) == Inner(t.pre, t.kids[p[|t.pre|] := Leaf(p, None)])
    ensures |Extending(EntriesOf(t), p)| == 0
  {
    hide WellFormed, Keys;
    NoneAboveStep(t, p);
    var m := EntriesOf(t);
    forall q | q in m ensures !(p <= q) { EntriesAt(t, q); KeysExtendPrefix(t, q); }
    assert Extending(m, p) == map[];
  }

  lemma DisableInside(t: Trie, p: Key)
    requires WellFormed(t) && t.Inner? && t.pre < p && p[|t.pre|] in t.kids
    ensures WellFormed(t.kids[p[|t.pre|]])
    ensures NoneAbove(t, p) <==> NoneAbove(t.kids[p[|t.pre|]], p)
    ensures NoneAbove(t, p) ==>
              Disable(t, p) == Inner(t.pre, t.kids[p[|t.pre|] := Disable(t.kids[p[|t.pre|]], p)])
    ensures Extending(EntriesOf(t), p) == Extending(EntriesOf(t.kids[p[|t.pre|]]), p)
  {
    hide Keys, NoneAbove;
    NoneAboveStep(t, p);
    var s := t.kids[p[|t.pre|]];
    forall q | p <= q ensures Entry(t, q) == Entry(s, q) {}
    var m, m' := Extending(EntriesOf(t), p), Extending(EntriesOf(s), p);
    forall q ensures (q in m <==> q in m') && (q in m ==> m[q] == m'[q]) {
      EntriesAt(t, q);
      EntriesAt(s, q);
    }
  }

  // ---------------------------------------------------------------- antichains

  /** No stored key is a proper prefix of another. */
  ghost predicate Antichain(m: Entries) {
    forall j, k :: j in m && k in m && j <= k ==> j == k
  }

  lemma TrieAntichain(t: Trie)
    requires WellFormed(t)
    ensures Antichain(EntriesOf(t))
  {
    hide WellFormed, Keys, Entry;
    var m := EntriesOf(t);
    forall j, k | j in m && k in m && j <= k ensures j == k {
      EntriesAt(t, j);
      EntriesAt(t, k);
      KeysAntichain(t, j, k);
    }
  }

  // ---------------------------------------------------------------- traversals

  /** A traversal lists every entry once, in strictly increasing order of keys. */
  lemma TraversalRefines(t: Trie)
    requires WellFormed(t)
    ensures Sorted(InOrder(t))
    ensures Lists(InOrder(t), EntriesOf(t))
    ensures |InOrder(t)| == |EntriesOf(t)|
  {
    hide WellFormed, Keys, Entry, InOrder, Less;
    var s, m := InOrder(t), EntriesOf(t);
    InOrderSorted(t);
    forall k, v ensures Pair(k, v) in s <==> k in m && m[k] == v {
      EntriesAt(t, k);
      InOrderEntry(t, k, v);
    }
    SortedCount(s, m);
  }

  ghost predicate Lists(s: seq<Pair>, m: Entries) {
    && (forall x :: x in s ==> x.key in m && m[x.key] == x.value)
    && (forall k :: k in m ==> Pair(k, m[k]) in s)
  }

  /** The entries of a map have only one listing in order. */
  lemma {:induction false} ListingUnique(s: seq<Pair>, s': seq<Pair>, m: Entries)
    requires Sorted(s) && Lists(s, m) && Sorted(s') && Lists(s', m)
    ensures s == s'
    decreases |s|
  {
    hide Less, Sorted, Lists;
    SortedCount(s, m);
    SortedCount(s', m);
    if s != [] {
      SameFirst(s, s', m);
      ListsRest(s, m);
      ListsRest(s', m);
      ListingUnique(s[1..], s'[1..], m - {s[0].key});
      assert s == [s[0]] + s[1..] && s' == [s'[0]] + s'[1..];
    }
  }

  lemma SameFirst(s: seq<Pair>, s': seq<Pair>, m: Entries)
    requires Sorted(s) && Lists(s, m) && Sorted(s') && Lists(s', m) && s != [] && s' != []
    ensures s[0] == s'[0]
  {
    hide Less;
    assert s[0] in s && s'[0] in s';
    assert Pair(s[0].key, s[0].value) in s' && Pair(s'[0].key, s'[0].value) in s;
    var i :| 0 <= i < |s'| && s'[i] == s[0];
    var j :| 0 <= j < |s| && s[j] == s'[0];
    if i > 0 && j > 0 {
      assert Less(s'[0].key, s'[i].key) && Less(s[0].key, s[j].key);
      LessAsymmetric(s[0].key, s'[0].key);
    }
  }

  lemma LessAsymmetric(a: Key, b: Key)
    requires Less(a, b)
    ensures !Less(b, a)
  {
    LcpUnique(b, a, Lcp(a, b));
  }

  /** Taking off the first of a sorted listing. */
  lemma ListsRest(s: seq<Pair>, m: Entries)
    requires Sorted(s) && Lists(s, m) && s != []
    ensures Sorted(s[1..]) && Lists(s[1..], m - {s[0].key})
    ensures |m - {s[0].key}| == |m| - 1
  {
    hide Less;
    var x, rest := s[0], s[1..];
    var m' := m - {x.key};
    forall y | y in rest ensures y.key in m' && m'[y.key] == y.value {
      var i :| 0 <= i < |rest| && rest[i] == y;
      assert s[i + 1] == y;
      assert Less(s[0].key, s[i + 1].key);
      LessIrreflexive(x.key);
    }
    forall k | k in m' ensures Pair(k, m'[k]) in rest {
      var i :| 0 <= i < |s| && s[i] == Pair(k, m[k]);
      assert rest[i - 1] == s[i];
    }
    assert m'.Keys == m.Keys - {x.key};
    assert |m| == |m.Keys| && |m'| == |m'.Keys|;
  }

  lemma {:induction false} SortedCount(s: seq<Pair>, m: Entries)
    requires Sorted(s) && Lists(s, m)
    ensures |s| == |m|
    decreases |s|
  {
    hide Less;
    if s == [] {
      assert m == map[];
    } else {
      ListsRest(s, m);
      SortedCount(s[1..], m - {s[0].key});
    }
  }
}

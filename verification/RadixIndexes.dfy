/**
  `radix_tree_index`: the tree as the dataflow uses it. A bound address is stored with a NUL
  appended; prefixes to disable or to visit are not. So an address may itself be disabled as a prefix.
 */
module RadixIndexes {
  import opened Bytes
  import opened Nodes
  import opened Tries
  import opened TrieOrder
  import opened TrieMaps
  import opened PrefixWalks
  import opened RadixTrees
  import opened ArtTrees
  import opened TreeHistories
  import opened Scopes

  /** `loadKey`. */
  function Ended(a: Key): (k: Key)
    ensures |k| == |a| + 1 && k[..|a|] == a
  {
    a + [0]
  }

  lemma EndedInjective(a: Key, b: Key)
    ensures Ended(a) == Ended(b) ==> a == b
  {
    assert Ended(a)[..|a|] == a && Ended(b)[..|b|] == b;
  }

  lemma EndedPrefix(p: Key, a: Key)
    requires |p| <= |a|
    ensures p <= Ended(a) <==> p <= a
    ensures p < Ended(a) <==> p <= a
  {
  }

  ghost function Kept(bound: map<Key, Handle>): map<Key, Handle> {
    forall a, b ensures Ended(a) == Ended(b) ==> a == b { EndedInjective(a, b); }
    map a | a in bound :: Ended(a) := bound[a]
  }

  lemma KeptAt(bound: map<Key, Handle>, a: Key)
    ensures Ended(a) in Kept(bound) <==> a in bound
    ensures a in bound ==> Kept(bound)[Ended(a)] == bound[a]
  {
    forall b ensures Ended(a) == Ended(b) ==> a == b { EndedInjective(a, b); }
  }

  lemma KeptPut(bound: map<Key, Handle>, a: Key, v: Handle)
    ensures Kept(bound[a := v]) == Kept(bound)[Ended(a) := v]
  {
    forall b ensures Ended(a) == Ended(b) ==> a == b { EndedInjective(a, b); }
  }

  lemma KeptRemove(bound: map<Key, Handle>, a: Key)
    ensures Kept(bound - {a}) == Kept(bound) - {Ended(a)}
  {
    forall b ensures Ended(a) == Ended(b) ==> a == b { EndedInjective(a, b); }
  }

  lemma KeptCut(bound: map<Key, Handle>, p: Key)
    requires forall a | a in bound :: |p| <= |a|
    ensures Kept(Outside(bound, p)) == map k | k in Kept(bound) && !(p <= k) :: Kept(bound)[k]
  {
    hide Ended, Kept;
    var l, r := Kept(Outside(bound, p)), map k | k in Kept(bound) && !(p <= k) :: Kept(bound)[k];
    forall k ensures (k in l <==> k in r) && (k in l ==> l[k] == r[k]) {
      if a :| a in bound && Ended(a) == k {
        EndedPrefix(p, a);
        KeptAt(bound, a);
        KeptAt(Outside(bound, p), a);
      } else {
        KeptNot(bound, k);
        KeptNot(Outside(bound, p), k);
      }
    }
  }

  lemma KeptNot(bound: map<Key, Handle>, k: Key)
    requires forall a | a in bound :: Ended(a) != k
    ensures k !in Kept(bound)
  {
  }

  lemma CancelledIsShut(i: Index, a: Key)
    requires forall p | p in i.tags :: |p| <= |a|
    ensures Cancelled(i.tags, a) <==> Shut(i, Ended(a))
  {
    forall p | p in i.tags ensures p <= a <==> p < Ended(a) { EndedPrefix(p, a); }
    if Cancelled(i.tags, a) {
      var p :| p in i.tags && p <= a;
      assert p < Ended(a);
    }
    if Shut(i, Ended(a)) {
      var p :| p in i.tags && p < Ended(a);
      assert p <= a;
    }
  }

  /** `values` are those of exactly the addresses `at`, each once. */
  ghost predicate Visits(bound: map<Key, Handle>, p: Key, at: seq<Key>, values: seq<Handle>) {
    && Distinct(at) && |at| == |values|
    && (forall i :: 0 <= i < |at| ==> at[i] in bound && p <= at[i] && values[i] == bound[at[i]])
    && (forall a :: a in bound && p <= a ==> a in at)
  }

  /** So many values as there are addresses, and no others. */
  lemma VisitsAll(bound: map<Key, Handle>, p: Key, at: seq<Key>, values: seq<Handle>)
    requires Visits(bound, p, at, values)
    ensures |values| == |set a | a in bound && p <= a|
    ensures forall v :: v in values <==> exists a :: a in bound && p <= a && bound[a] == v
  {
    var all := set a | a in bound && p <= a;
    assert all == set a | a in at;
    DistinctSize(at);
    forall v ensures v in values <==> exists a :: a in bound && p <= a && bound[a] == v {
      if v in values {
        var i :| 0 <= i < |values| && values[i] == v;
        assert bound[at[i]] == v;
      }
      if a :| a in bound && p <= a && bound[a] == v {
        var i :| 0 <= i < |at| && at[i] == a;
        assert values[i] == v;
      }
    }
  }

  lemma {:induction false} DistinctSize<T>(s: seq<T>)
    requires Distinct(s)
    ensures |set x | x in s| == |s|
    decreases |s|
  {
    if s != [] {
      var rest, x := s[..|s| - 1], s[|s| - 1];
      DistinctSize(rest);
      assert s == rest + [x];
      assert (set y | y in s) == (set y | y in rest) + {x};
    }
  }

  /** The addresses of the active entries of a listing. */
  ghost function Addresses(s: seq<Pair>): seq<Key> {
    if s == [] then []
    else (if s[0].value.Some? && s[0].key != [] then [s[0].key[..|s[0].key| - 1]] else []) + Addresses(s[1..])
  }

  /** An active entry is a bound address with its value. */
  ghost predicate Fits(bound: map<Key, Handle>, x: Pair) {
    x.value.Some? ==>
      && x.key != [] && x.key[..|x.key| - 1] in bound
      && Ended(x.key[..|x.key| - 1]) == x.key && x.value.value == bound[x.key[..|x.key| - 1]]
  }

  ghost predicate HasActive(s: seq<Pair>, k: Key) {
    exists i :: 0 <= i < |s| && s[i].value.Some? && s[i].key == k
  }

  ghost predicate InStep(bound: map<Key, Handle>, at: seq<Key>, values: seq<Handle>) {
    && Distinct(at) && |at| == |values|
    && forall i :: 0 <= i < |at| ==> at[i] in bound && values[i] == bound[at[i]]
  }

  lemma {:induction false} AddressesOf(s: seq<Pair>, bound: map<Key, Handle>)
    requires Sorted(s) && forall x | x in s :: Fits(bound, x)
    ensures InStep(bound, Addresses(s), ActiveValues(s))
    ensures forall a :: a in Addresses(s) <==> HasActive(s, Ended(a))
    decreases |s|
  {
    hide Less, InStep, Ended, Fits;
    if s == [] {
      NoSteps(bound);
    } else {
      var rest := s[1..];
      forall i, j | 0 <= i < j < |rest| ensures Less(rest[i].key, rest[j].key) {
        assert Less(s[i + 1].key, s[j + 1].key);
      }
      AddressesOf(rest, bound);
      assert s[0] in s;
      AddressStep(s, bound);
    }
  }

  lemma NoSteps(bound: map<Key, Handle>)
    ensures InStep(bound, [], [])
  {
  }

  lemma AddressStep(s: seq<Pair>, bound: map<Key, Handle>)
    requires s != [] && Sorted(s) && Fits(bound, s[0])
    requires InStep(bound, Addresses(s[1..]), ActiveValues(s[1..]))
    requires forall a :: a in Addresses(s[1..]) <==> HasActive(s[1..], Ended(a))
    ensures InStep(bound, Addresses(s), ActiveValues(s))
    ensures forall a :: a in Addresses(s) <==> HasActive(s, Ended(a))
  {
    hide Less, Ended, Sorted, HasActive, InStep;
    var x, rest := s[0], s[1..];
    forall a ensures HasActive(s, Ended(a)) <==> HasActive(rest, Ended(a)) || (x.value.Some? && x.key == Ended(a)) {
      HasActiveStep(s, Ended(a));
    }
    if x.value.Some? {
      var a := x.key[..|x.key| - 1];
      assert x.key == Ended(a);
      HeadIsNew(s, Ended(a));
      forall b ensures Ended(b) == x.key ==> b == a { EndedInjective(a, b); }
      assert Addresses(s) == [a] + Addresses(rest) && ActiveValues(s) == [x.value.value] + ActiveValues(rest);
      InStepHead(bound, a, Addresses(rest), ActiveValues(rest));
    } else {
      assert Addresses(s) == Addresses(rest) && ActiveValues(s) == ActiveValues(rest);
    }
  }

  lemma InStepHead(bound: map<Key, Handle>, a: Key, at: seq<Key>, values: seq<Handle>)
    requires InStep(bound, at, values) && a in bound && a !in at
    ensures InStep(bound, [a] + at, [bound[a]] + values)
  {
  }

  lemma HeadIsNew(s: seq<Pair>, k: Key)
    requires s != [] && Sorted(s) && s[0].key == k
    ensures !HasActive(s[1..], k)
  {
    hide Less;
    if HasActive(s[1..], k) {
      var i :| 0 <= i < |s[1..]| && s[1..][i].value.Some? && s[1..][i].key == k;
      assert Less(s[0].key, s[i + 1].key);
      LessIrreflexive(k);
    }
  }

  lemma HasActiveStep(s: seq<Pair>, k: Key)
    requires s != []
    ensures HasActive(s, k) <==> HasActive(s[1..], k) || (s[0].value.Some? && s[0].key == k)
  {
    if HasActive(s[1..], k) {
      var i :| 0 <= i < |s[1..]| && s[1..][i].value.Some? && s[1..][i].key == k;
      assert s[i + 1] == s[1..][i];
    }
    if HasActive(s, k) {
      var i :| 0 <= i < |s| && s[i].value.Some? && s[i].key == k;
      if i > 0 { assert s[1..][i - 1] == s[i]; }
    }
  }

  /** An entry that is active is a bound address with a NUL at its end. */
  lemma EntryFits(m: Entries, bound: map<Key, Handle>, x: Pair)
    requires Active(m) == Kept(bound) && x.key in m && m[x.key] == x.value
    ensures Fits(bound, x)
  {
    if x.value.Some? {
      assert x.key in Active(m);
      var a :| a in bound && Ended(a) == x.key;
      assert x.key[..|x.key| - 1] == a;
      KeptAt(bound, a);
    }
  }

  /** Addresses in strictly ascending order. */
  ghost predicate Ascends(at: seq<Key>) {
    forall i, j :: 0 <= i < j < |at| ==> Less(at[i], at[j])
  }

  /** The appended NUL does not change the order of addresses of one length. */
  lemma LessEnded(a: Key, b: Key)
    requires |a| == |b| && Less(Ended(a), Ended(b))
    ensures Less(a, b)
  {
    var m := Lcp(Ended(a), Ended(b));
    assert m < |a|;
    assert forall i :: 0 <= i < m ==> Ended(a)[i] == Ended(b)[i];
    assert forall i :: 0 <= i < |a| ==> a[i] == Ended(a)[i] && b[i] == Ended(b)[i];
    LcpUnique(a, b, m);
  }

  /** A sorted listing names its addresses in ascending order. */
  lemma {:induction false} AddressesAscend(s: seq<Pair>, bound: map<Key, Handle>, n: nat)
    requires Sorted(s) && (forall x | x in s :: Fits(bound, x)) && (forall a | a in bound :: |a| == n)
    ensures Ascends(Addresses(s))
    decreases |s|
  {
    hide Less, Ended, Fits;
    if s != [] {
      var x, rest := s[0], s[1..];
      forall i, j | 0 <= i < j < |rest| ensures Less(rest[i].key, rest[j].key) {
        assert Less(s[i + 1].key, s[j + 1].key);
      }
      AddressesAscend(rest, bound, n);
      AddressesOf(rest, bound);
      if x.value.Some? {
        assert x in s;
        FirstAddress(bound, x);
        var a := x.key[..|x.key| - 1];
        assert Addresses(s) == [a] + Addresses(rest);
        forall b | b in Addresses(rest) ensures Less(a, b) { AddressAfter(s, bound, n, a, b); }
        AscendsHead(a, Addresses(rest));
      } else {
        assert Addresses(s) == Addresses(rest);
      }
    }
  }

  lemma FirstAddress(bound: map<Key, Handle>, x: Pair)
    requires Fits(bound, x) && x.value.Some?
    ensures x.key != [] && x.key[..|x.key| - 1] in bound && Ended(x.key[..|x.key| - 1]) == x.key
  {
  }

  lemma AscendsHead(a: Key, at: seq<Key>)
    requires Ascends(at) && forall b | b in at :: Less(a, b)
    ensures Ascends([a] + at)
  {
    hide Less;
  }

  lemma AddressAfter(s: seq<Pair>, bound: map<Key, Handle>, n: nat, a: Key, b: Key)
    requires s != [] && Sorted(s) && (forall x | x in s :: Fits(bound, x)) && (forall c | c in bound :: |c| == n)
    requires s[0].key == Ended(a) && a in bound && HasActive(s[1..], Ended(b))
    ensures Less(a, b)
  {
    hide Less, Ended, Fits;
    var i :| 0 <= i < |s[1..]| && s[1..][i].value.Some? && s[1..][i].key == Ended(b);
    assert s[i + 1] in s && Less(s[0].key, s[i + 1].key);
    FirstAddress(bound, s[i + 1]);
    EndedInjective(b, s[i + 1].key[..|s[i + 1].key| - 1]);
    LessEnded(a, b);
  }

  /** What the listing of everything under `p` visits. */
  lemma VisitsOnce(m: Entries, bound: map<Key, Handle>, p: Key, s: seq<Pair>, n: nat)
    requires Active(m) == Kept(bound) && |p| <= n && (forall a | a in bound :: |a| == n)
    requires Sorted(s) && Lists(s, Extending(m, p))
    ensures Visits(bound, p, Addresses(s), ActiveValues(s)) && Ascends(Addresses(s))
  {
    hide Less, Ended, Kept, Fits, Addresses, ActiveValues, Ascends;
    forall x | x in s ensures Fits(bound, x) { EntryFits(m, bound, x); }
    AddressesOf(s, bound);
    AddressesAscend(s, bound, n);
    forall a ensures a in Addresses(s) <==> a in bound && p <= a {
      KeptAt(bound, a);
      assert Ended(a) in Active(m) <==> a in bound;
      if a in bound {
        EndedPrefix(p, a);
        if p <= a { assert Pair(Ended(a), Extending(m, p)[Ended(a)]) in s; }
      }
      if HasActive(s, Ended(a)) {
        var i :| 0 <= i < |s| && s[i].value.Some? && s[i].key == Ended(a);
        assert s[i] in s;
      }
    }
    forall i | 0 <= i < |Addresses(s)| ensures p <= Addresses(s)[i] { assert Addresses(s)[i] in Addresses(s); }
  }

  lemma StoredSome(m: Entries, bound: map<Key, Handle>, tags: set<Key>, p: Key)
    requires Abs(m) == Index(Kept(bound), tags) && (forall a | a in bound :: |p| <= |a|)
    requires Stored(bound, tags, p)
    ensures Extending(m, p) != map[]
  {
    if a :| a in bound && p <= a {
      KeptAt(bound, a);
      EndedPrefix(p, a);
      assert Ended(a) in Active(m) && Ended(a) in Extending(m, p);
    } else {
      var t :| t in tags && p <= t;
      assert t in Tags(m) && t in Extending(m, p);
    }
  }

  method NewTree(ghost length: nat) returns (t: ArtTree)
    ensures Tracks(t, EMPTY, 0, length) && fresh(t) && fresh(Foot(t.root))
  {
    hide Tracks, ArtTree.Valid, ArtTree.Content;
    t := new ArtTree();
    StartTracks(t, length);
  }

  class RadixIndex {
    const addressLength: nat
    const tree: ArtTree
    ghost var bound: map<Key, Handle>
    ghost var tags: set<Key>
    ghost var drift: nat

    ghost function State(): Index
      reads this
    {
      Index(Kept(bound), tags)
    }

    ghost predicate Valid()
      reads this, tree, Obj(tree.root), Foot(tree.root)
    {
      && this !in Foot(tree.root)
      && Tracks(tree, State(), drift, addressLength + 1)
      && (forall a | a in bound :: |a| == addressLength)
      && (forall p | p in tags :: 1 <= |p| <= addressLength)
    }

    /** Ghost bookkeeping: what is bound and what is disabled from now on. */
    ghost method Record(bound: map<Key, Handle>, tags: set<Key>, drift: nat)
      requires Tracks(tree, Index(Kept(bound), tags), drift, addressLength + 1) && this !in Foot(tree.root)
      requires forall a | a in bound :: |a| == addressLength
      requires forall p | p in tags :: 1 <= |p| <= addressLength
      modifies this
      ensures Valid() && this.bound == bound && this.tags == tags
    {
      hide Tracks, Kept;
      assert this !in Obj(tree.root);
      this.bound, this.tags, this.drift := bound, tags, drift;
    }

    constructor (addressLength: nat)
      ensures Valid() && fresh(tree) && fresh(Foot(tree.root))
      ensures this.addressLength == addressLength && bound == map[] && tags == {}
    {
      hide Tracks, Kept;
      NothingKept(map[]);
      var t := NewTree(addressLength + 1);
      this.addressLength, tree := addressLength, t;
      bound, tags, drift := map[], {}, 0;
      new;
      assert this !in Foot(tree.root) && this !in Obj(tree.root);
    }

    method Insert(a: Key, v: Handle)
      requires Valid() && |a| == addressLength && !Cancelled(tags, a)
      modifies this, tree, Foot(tree.root)
      ensures Valid() && fresh(Foot(tree.root) - old(Foot(tree.root)))
      ensures bound == old(bound)[a := v] && tags == old(tags)
    {
      hide Tracks, Cancelled, Shut, Ended, Kept;
      CancelledIsShut(State(), a);
      KeptPut(bound, a, v);
      var _ := PerformPut(tree, Ended(a), v, State(), drift, addressLength + 1);
      Record(bound[a := v], tags, drift);
    }

    method Remove(a: Key)
      requires Valid() && |a| == addressLength
      modifies this, tree, Foot(tree.root)
      ensures Valid() && fresh(Foot(tree.root) - old(Foot(tree.root)))
      ensures bound == old(bound) - {a} && tags == old(tags)
    {
      hide Tracks, Shut, Ended, Kept;
      KeptRemove(bound, a);
      var _ := PerformRemove(tree, Ended(a), State(), drift, addressLength + 1);
      Record(bound - {a}, tags, drift);
    }

    method Get(a: Key) returns (r: Option<Handle>)
      requires Valid() && |a| == addressLength
      ensures r == if a in bound then Some(bound[a]) else None
      ensures Valid()
    {
      hide Tracks, Shut, Ended, Kept;
      KeptAt(bound, a);
      var reply := PerformGet(tree, Ended(a), State(), drift, addressLength + 1);
      r := reply.value;
    }

    method Lookup(a: Key) returns (code: int, r: Option<Handle>)
      requires Valid() && |a| == addressLength
      ensures code == if Cancelled(tags, a) then -1 else if a in bound then 1 else 0
      ensures r == if code == 1 then Some(bound[a]) else None
      ensures Valid()
    {
      hide Tracks, Shut, Ended, Kept, Cancelled;
      KeptAt(bound, a);
      CancelledIsShut(State(), a);
      var reply := PerformAsk(tree, Ended(a), State(), drift, addressLength + 1);
      code, r := reply.code, reply.value;
    }

    method Disable(p: Key) returns (code: int)
      requires Valid() && 1 <= |p| <= addressLength
      modifies this, tree, Foot(tree.root)
      ensures Valid() && fresh(Foot(tree.root) - old(Foot(tree.root)))
      ensures code == if Above(old(tags), p) then -1 else 1
      ensures if code == -1 || (old(bound) == map[] && old(tags) == {})
              then bound == old(bound) && tags == old(tags)
              else bound == Outside(old(bound), p) && tags == Tagged(old(tags), p)
    {
      hide Tracks, Ended, Kept, Uncounted;
      KeptCut(bound, p);
      NothingKept(bound);
      ghost var i := State();
      var reply := PerformForbid(tree, p, i, drift, addressLength + 1);
      code := reply.code;
      if code == 1 && i != EMPTY {
        Record(Outside(bound, p), Tagged(tags, p), drift + Uncounted(i, Forbid(p)));
      } else {
        Record(bound, tags, drift + Uncounted(i, Forbid(p)));
      }
    }

    /**
      Visits the bound addresses under `p`, each once, in ascending order: always for a whole address and for
      up to three bytes, otherwise provided something is stored under `p`.
     */
    method Visit(p: Key) returns (values: seq<Handle>, ghost at: seq<Key>)
      requires Valid() && |p| <= addressLength
      requires |p| == addressLength || |p| <= 3 || Stored(bound, tags, p)
      ensures Visits(bound, p, at, values) && Ascends(at)
      ensures |values| == |set a | a in bound && p <= a|
      ensures forall v :: v in values <==> exists a :: a in bound && p <= a && bound[a] == v
      ensures Valid()
    {
      hide EntriesOf, Sorted, Lists, Extending, ActiveValues, Good, Wrap, Visits, Kept, Active, Tags, Stored, Traversed,
           Addresses, WellFormed, AllKids, ArtNode.Layout, ArtNode.Header, Misled, Landing, Matching, Ascends;
      ghost var m := tree.Content();
      NotMisled(p);
      values := tree.IterActivePrefix(p);
      VisitsOnce(m, bound, p, tree.Under(p), addressLength);
      at := Addresses(tree.Under(p));
      VisitsAll(bound, p, at, values);
    }

    lemma NotMisled(p: Key)
      requires Valid() && |p| <= addressLength
      requires |p| == addressLength || |p| <= 3 || Stored(bound, tags, p)
      ensures !tree.Misleads(p, true)
    {
      hide ArtTree.Valid, ArtTree.Content, ArtTree.Misleads, Extending, Wrap, Active, Tags, Stored, Good, Ended;
      var m := tree.Content();
      if |p| == addressLength {
        forall k | k in m ensures |k| <= |p| + 1 && (|k| == |p| + 1 ==> k[|p|] == 0) {
          KeptKey(m, bound, tags, addressLength, k);
        }
        tree.RightWhole(p, true);
      } else {
        if |p| > 3 { StoredSome(m, bound, tags, p); }
        tree.RightUnder(p, true);
      }
    }
  }

  /** A key of the tree is a tag that is not longer than an address, or an address and a NUL. */
  lemma KeptKey(m: Entries, bound: map<Key, Handle>, tags: set<Key>, n: nat, k: Key)
    requires Abs(m) == Index(Kept(bound), tags) && k in m
    requires (forall a | a in bound :: |a| == n) && (forall p | p in tags :: |p| <= n)
    ensures |k| <= n + 1 && (|k| == n + 1 ==> k[n] == 0)
  {
    assert if m[k].Some? then k in Kept(bound) else k in tags;
  }

  lemma NothingKept(bound: map<Key, Handle>)
    ensures Kept(bound) == map[] <==> bound == map[]
  {
    if bound != map[] {
      var a :| a in bound.Keys;
      KeptAt(bound, a);
    }
  }
}

/** `art_tree`: the public operations, as operations on a map from keys to values or tags. */
module ArtTrees {
  import opened Bytes
  import opened PartialPaths
  import opened Nodes
  import opened Tries
  import opened TrieOrder
  import opened TrieMaps
  import opened PrefixWalks
  import opened RadixTrees
  import opened Traversals
  import opened Disabling

  const U64 := 0x1_0000_0000_0000_0000

  /** Arithmetic on the `uint64_t size`. */
  function Wrap(n: int): (w: int)
    ensures 0 <= w < U64
    ensures 0 <= n < 0x1_0000_0000_0000_0000 ==> w == n
    ensures n == -1 ==> w == 0xFFFF_FFFF_FFFF_FFFF
    ensures n == 0x1_0000_0000_0000_0000 ==> w == 0
  {
    n % U64
  }

  lemma WrapAgain(n: int, k: int)
    ensures Wrap(Wrap(n) + k) == Wrap(n + k)
  {
    var q := (Wrap(n) + k) / U64;
    assert n + k == U64 * (n / U64 + q) + Wrap(Wrap(n) + k);
    DivUnique(n + k, n / U64 + q, Wrap(Wrap(n) + k));
  }

  lemma DivUnique(n: int, q: int, r: int)
    requires n == U64 * q + r && 0 <= r < U64
    ensures Wrap(n) == r
  {
  }

  class ArtTree {
    var root: Ptr
    var size: int

    ghost predicate Valid()
      reads this, Obj(root), Foot(root)
    {
      && 0 <= size < U64 && this !in Foot(root)
      && (root != Null ==> RadixTrees.Valid(root, 0) && WellFormed(Model(root)))
    }

    /** Key to value for active keys, to `None` for tags. */
    ghost function Content(): Entries
      reads this, Obj(root)
    {
      if root == Null then map[] else EntriesOf(Model(root))
    }

    /** `art_tree_init`. */
    constructor ()
      ensures Valid() && Content() == map[] && size == 0 && root == Null
    {
      root, size := Null, 0;
    }

    /** The entry that an optimistic walk for `q` can reach. */
    ghost function Reach(q: Key): Option<Trie>
      reads this, Obj(root)
    {
      if root == Null then None else Holder(Model(root), q)
    }

    lemma Reached(q: Key)
      requires Valid()
      ensures Reach(q).None? ==> LookupCode(Content(), q) == 0 && q !in Content()
      ensures Reach(q).Some? ==> Answers(Content(), q, Reach(q).value)
    {
      hide WellFormed, Holder, RadixTrees.Valid, Answers;
      if root != Null { HolderAnswers(Model(root), q); }
    }

    lemma AllWithin(n: nat)
      requires Valid() && Within(Content(), n) && root != Null
      ensures AtMost(Model(root), n)
    {
      hide WellFormed, Keys, RadixTrees.Valid, Entry;
      forall k | k in Keys(Model(root)) ensures |k| <= n { EntriesAt(Model(root), k); }
    }

    /** `art_search`: the value of an active key, NULL for anything else. */
    method Search(key: Key) returns (r: Option<Handle>)
      requires Valid() && Within(Content(), |key|)
      ensures r == if key in Active(Content()) then Some(Active(Content())[key]) else None
      ensures r == if key in Content() then Content()[key] else None
    {
      hide ArtNode.Layout, ArtNode.Header, WellFormed, Holder, Within, AtMost, AllKids, Made, Answers, EntriesOf;
      ghost var h := Reach(key);
      if root != Null { AllWithin(|key|); }
      Found(key);
      var n := root;
      var depth: nat := 0;
      while n != Null
        invariant n == Null ==> h.None?
        invariant n != Null ==>
                    && RadixTrees.Valid(n, depth) && WellFormed(Model(n)) && AtMost(Model(n), |key|)
                    && Holder(Model(n), key) == h
        decreases Foot(n)
      {
        match n
        case L(l) =>
          LeafHolder(KeyOf(l), l.value, key);
          if l.keyLen == |key| && l.buf[..l.keyLen] == key { return l.value; }
          return None;
        case N(m) =>
          ObjInFoot(n, depth);
          n, depth := Step(m, key, depth);
      }
      return None;
    }

    lemma Found(q: Key)
      requires Valid()
      ensures Reach(q).None? ==> q !in Active(Content())
      ensures Reach(q).Some? ==> Reach(q).value.Leaf?
      ensures Reach(q).Some? && Reach(q).value.key == q ==>
                Reach(q).value.value == if q in Active(Content()) then Some(Active(Content())[q]) else None
      ensures Reach(q).Some? && Reach(q).value.key != q ==> q !in Active(Content())
    {
      hide WellFormed, Holder, RadixTrees.Valid, LookupCode;
      Reached(q);
    }

    /** `art_lookup`. */
    method Lookup(key: Key) returns (code: int, r: Option<Handle>)
      requires Valid() && Within(Content(), |key|)
      ensures code == LookupCode(Content(), key)
      ensures r == if code == 1 then Some(Active(Content())[key]) else None
      ensures code == -1 <==> exists p :: p in Content() && Content()[p].None? && p < key
      ensures code == 1 <==> key in Content() && Content()[key].Some?
      ensures code == -1 || code == 0 || code == 1
      ensures r == if key in Content() then Content()[key] else None
    {
      hide ArtNode.Layout, ArtNode.Header, WellFormed, Holder, Within, AtMost, AllKids, Made, EntriesOf, LookupCode;
      Codes(key);
      ghost var h := Reach(key);
      if root != Null { AllWithin(|key|); }
      Reached(key);
      var n := root;
      var depth: nat := 0;
      while n != Null
        invariant n == Null ==> h.None?
        invariant n != Null ==>
                    && RadixTrees.Valid(n, depth) && WellFormed(Model(n)) && AtMost(Model(n), |key|)
                    && Holder(Model(n), key) == h
        decreases Foot(n)
      {
        match n
        case L(l) =>
          LeafHolder(KeyOf(l), l.value, key);
          code, r := MatchLeaf(l, key);
          return;
        case N(m) =>
          ObjInFoot(n, depth);
          n, depth := Step(m, key, depth);
      }
      return 0, None;
    }

    /** Since no key covers another, at most one of the three answers fits. */
    lemma Codes(q: Key)
      requires Valid()
      ensures LookupCode(Content(), q) == -1 <==> exists p :: p in Content() && Content()[p].None? && p < q
      ensures LookupCode(Content(), q) == 1 <==> q in Content() && Content()[q].Some?
      ensures q in Active(Content()) <==> q in Content() && Content()[q].Some?
      ensures q in Active(Content()) ==> Active(Content())[q] == Content()[q].value
      ensures LookupCode(Content(), q) == -1 || LookupCode(Content(), q) == 0 || LookupCode(Content(), q) == 1
    {
      hide Valid, Content;
      NoneCovers();
      var m := Content();
      if p :| p in m && m[p].None? && p < q { assert p in Tags(m); }
      if Covered(m, q) { var p :| p in Tags(m) && p < q; }
    }

    /** `*ref = q` at the root. */
    method Store(q: Ptr, n: int)
      requires 0 <= n < U64 && this !in Foot(q)
      requires q != Null ==> RadixTrees.Valid(q, 0) && WellFormed(Model(q))
      modifies this
      ensures Valid() && root == q && size == n && Foot(q) == old(Foot(q))
      ensures Content() == if q == Null then map[] else old(EntriesOf(Model(q)))
    {
      hide RadixTrees.Valid, WellFormed, EntriesOf;
      if q != Null { ObjInFoot(q, 0); }
      root, size := q, n;
    }

    /** `art_insert`. */
    method Insert(key: Key, v: Handle) returns (previous: Option<Handle>)
      requires Valid() && MayInsert(Content(), key)
      modifies this, Foot(root)
      ensures Valid() && fresh(Foot(root) - old(Foot(root)))
      ensures Content() == old(Content())[key := Some(v)]
      ensures previous == if key in old(Content()) then old(Content())[key] else None
      ensures size == if key in old(Content()) then old(size) else Wrap(old(size) + 1)
    {
      hide ArtNode.Layout, ArtNode.Header, WellFormed, AllKids, Made, Insertable, MayInsert, Tries.Insert, Entry, Keys;
      if root == Null {
        var l := MakeLeaf(key, Some(v), 0);
        OneLeaf(key, Some(v));
        Store(L(l), Wrap(size + 1));
        return None;
      } else {
        ghost var t := Model(root);
        InsertableIn(t, key);
        InsertRefines(t, key, v);
        EntriesAt(t, key);
        var q, was;
        q, was, previous := InsertInto(root, key, v, 0);
        Store(q, if was then size else Wrap(size + 1));
      }
    }

    /** `art_delete`. */
    method Delete(key: Key) returns (r: Option<Handle>)
      requires Valid() && Within(Content(), |key|)
      modifies this, Foot(root)
      ensures Valid() && fresh(Foot(root) - old(Foot(root)))
      ensures Content() == old(Content()) - {key}
      ensures r == if key in old(Content()) then old(Content())[key] else None
      ensures size == if key in old(Content()) then Wrap(old(size) - 1) else old(size)
    {
      hide RadixTrees.Valid, WellFormed, AtMost, Within, EntriesOf;
      r := None;
      if root == Null {
        NothingToTake(Content(), key);
        return;
      }
      AllWithin(|key|);
      var q, found;
      q, found, r := TakeEntry(root, key);
      Store(q, if found then Wrap(size - 1) else size);
    }

    /** `art_disable`: what goes, what stays, and what is subtracted from the size. */
    method Disable(p: Key) returns (code: int)
      requires Valid() && p != [] && TagsOver(Content(), p)
      modifies this, Foot(root)
      ensures Valid() && fresh(Foot(root) - old(Foot(root)))
      ensures code == if Covered(old(Content()), p) then -1 else 1
      ensures Content() == if old(Content()) == map[] || code == -1 then old(Content())
                           else Disabled(old(Content()), p)
      ensures size == if code == -1 then old(size)
                      else Wrap(old(size) - |Extending(old(Content()), p)|)
    {
      hide ArtNode.Layout, ArtNode.Header, WellFormed, AllKids, Made, OnlyTagsAbove, NoneAbove, TagsOver, Tries.Disable,
           Entry, Keys, Covered, Extending, Disabled, EntriesOf;
      if root == Null {
        NothingThere(p, size);
        return 1;
      }
      ghost var t := Model(root);
      CoverIn(t, p);
      SomeEntry(t);
      if NoneAbove(t, p) { DisableRefines(t, p); }
      var q, removed;
      code, q, removed := DisableInto(root, p, 0);
      Store(q, Wrap(size - removed));
    }

    /** Stored keys never cover one another, whatever was inserted, deleted or disabled. */
    lemma NoneCovers()
      requires Valid()
      ensures Antichain(Content())
    {
      hide WellFormed, RadixTrees.Valid;
      if root != Null { TrieAntichain(Model(root)); }
    }

    /** What a traversal of the whole tree visits. */
    ghost function Listing(): seq<Pair>
      reads this, Obj(root)
    {
      if root == Null then [] else InOrder(Model(root))
    }

    lemma Listed()
      requires Valid()
      ensures Sorted(Listing()) && Lists(Listing(), Content()) && |Listing()| == |Content()|
    {
      hide WellFormed, RadixTrees.Valid, InOrder, EntriesOf;
      if root != Null { TraversalRefines(Model(root)); }
    }

    /** `art_iter`: every entry, tags included, in increasing order of keys, until a callback says stop. */
    method Iter(callback: Pair -> int) returns (res: int, calls: seq<Pair>)
      requires Valid()
      ensures Sorted(Listing()) && Lists(Listing(), Content()) && |Listing()| == |Content()|
      ensures res == Outcome(Listing(), callback) && calls == Calls(Listing(), callback)
      ensures calls <= Listing() && forall i :: 0 <= i < |calls| - 1 ==> callback(calls[i]) == 0
      ensures if res == 0 then calls == Listing() && forall x | x in calls :: callback(x) == 0
              else calls != [] && res == callback(calls[|calls| - 1])
    {
      hide ArtNode.Layout, ArtNode.Header, AllKids, WellFormed, Sorted, Lists, InOrder, EntriesOf, Calls, Outcome;
      Listed();
      CallsUntil(Listing(), callback);
      if root == Null { return 0, []; }
      res, calls := Iterate(root, callback, 0);
    }

    /** `art_iter_active`. */
    method IterActive() returns (values: seq<Handle>)
      requires Valid()
      ensures Sorted(Listing()) && Lists(Listing(), Content()) && values == ActiveValues(Listing())
    {
      hide ArtNode.Layout, ArtNode.Header, AllKids, WellFormed, Sorted, Lists, InOrder, EntriesOf;
      Listed();
      if root == Null { return []; }
      values := IterateActive(root, 0);
    }

    /** `art_minimum`. */
    method First() returns (l: Option<ArtLeaf>)
      requires Valid()
      ensures l.None? <==> Content() == map[]
      ensures l.Some? ==> Ends(Content(), PairOf(l.value)) && forall k | k in Content() :: !Less(k, KeyOf(l.value))
    {
      hide RadixTrees.Valid, WellFormed, Sorted, Lists, InOrder, EntriesOf, Less;
      if root == Null { return None; }
      Listed();
      SomeEntry(Model(root));
      var leaf := Minimum(root, 0);
      ListingEnds(Listing(), Content());
      return Some(leaf);
    }

    /** `art_maximum`. */
    method Last() returns (l: Option<ArtLeaf>)
      requires Valid()
      ensures l.None? <==> Content() == map[]
      ensures l.Some? ==> Ends(Content(), PairOf(l.value)) && forall k | k in Content() :: !Less(KeyOf(l.value), k)
    {
      hide RadixTrees.Valid, WellFormed, Sorted, Lists, InOrder, EntriesOf, Less;
      if root == Null { return None; }
      Listed();
      SomeEntry(Model(root));
      var leaf := Maximum(root, 0);
      ListingEnds(Listing(), Content());
      return Some(leaf);
    }

    ghost predicate Shaped()
      reads this, Obj(root)
    {
      root != Null ==> WellFormed(Model(root))
    }

    /** Where the walk for `p` ends. */
    ghost function Landed(p: Key): Landed
      reads this, Obj(root)
      requires Shaped()
    {
      if root == Null then Nowhere else Landing(Model(root), p, 0)
    }

    /** The walk goes wrong: behind a path that `p` leaves midway it meets one that agrees to the end of `p`. */
    ghost predicate Misleads(p: Key, onlyActive: bool)
      reads this, Obj(root)
      requires Shaped()
    {
      root != Null && Misled(Model(root), p, onlyActive)
    }

    /**
      The loop that `art_iter_prefix` and `art_iter_active_prefix` share: the subtree to traverse, if any.
      A byte read beyond the end of `p` may be any byte.
     */
    method FindPrefix(p: Key, ghost l: Landed) returns (q: Ptr, ghost d: nat)
      requires Valid() && l == Landed(p)
      ensures q == Null ==> !l.At?
      ensures q != Null ==> RadixTrees.Valid(q, d) && WellFormed(Model(q)) && l == At(Model(q))
    {
      hide ArtNode.Layout, ArtNode.Header, AllKids, Made, WellFormed, Landing, Follows;
      q, d := root, 0;
      var depth: nat := 0;
      if q != Null { FollowsStart(Model(q), p); }
      while q != Null
        invariant q == Null ==> !l.At?
        invariant q != Null ==>
                    && RadixTrees.Valid(q, depth) && WellFormed(Model(q)) && d == depth
                    && Follows(Model(q), p, depth, l)
        decreases Foot(q)
      {
        match q
        case L(leaf) =>
          LeafLanding(KeyOf(leaf), leaf.value, p, depth, l);
          if leaf.keyLen >= |p| && leaf.buf[..|p|] == p { return; }
          return Null, d;
        case N(m) =>
          ObjInFoot(q, depth);
          var found, next, below := PrefixStep(m, p, depth, l);
          if found { return; }
          q, depth, d := next, below, below;
      }
    }

    /** What a traversal of everything that starts with `p` visits. */
    ghost function Under(p: Key): seq<Pair>
      reads this, Obj(root)
    {
      Matching(Listing(), p)
    }

    lemma ListedUnder(p: Key)
      requires Valid()
      ensures Sorted(Under(p)) && Lists(Under(p), Extending(Content(), p))
      ensures Traversed(Landed(p)) == Under(p) <==> !Misleads(p, false)
      ensures ActiveValues(Traversed(Landed(p))) == ActiveValues(Under(p)) <==> !Misleads(p, true)
    {
      hide WellFormed, RadixTrees.Valid, InOrder, EntriesOf, Sorted, Lists, Landing, Extending, Misled, Tries.Prefix;
      Listed();
      MatchingLists(Listing(), Content(), p);
      if root != Null { MisledExactly(Model(root), p); }
    }

    /** No prefix that something starts with is misled, and none of up to three bytes. */
    lemma RightUnder(p: Key, onlyActive: bool)
      requires Valid() && (Extending(Content(), p) != map[] || |p| <= 3)
      ensures !Misleads(p, onlyActive)
    {
      hide WellFormed, RadixTrees.Valid, InOrder, EntriesOf, Extending, Strays, Regains;
      if root != Null {
        if |p| <= 3 {
          ShortNeverMisled(Model(root), p, onlyActive);
        } else {
          StoredNeverMisled(Model(root), p, onlyActive);
        }
      }
    }

    /** Nor is a whole address, where all keys are addresses with a NUL; then nothing beyond its end is read. */
    lemma RightWhole(p: Key, onlyActive: bool)
      requires Valid() && forall k | k in Content() :: |k| <= |p| + 1 && (|k| == |p| + 1 ==> k[|p|] == 0)
      ensures !Misleads(p, onlyActive) && Landed(p) != Astray
    {
      hide WellFormed, RadixTrees.Valid, InOrder, Keys, Entry, Misled, Landing;
      if root != Null {
        forall k | k in Keys(Model(root)) ensures k in Content() { EntriesAt(Model(root), k); }
        WholeNeverMisled(Model(root), p, onlyActive);
      }
    }

    /** `art_iter_active_prefix`. */
    method IterActivePrefix(p: Key) returns (values: seq<Handle>)
      requires Valid()
      ensures Shaped()
      ensures Sorted(Under(p)) && Lists(Under(p), Extending(Content(), p))
      ensures values == ActiveValues(Traversed(Landed(p)))
      ensures values == ActiveValues(Under(p)) <==> !Misleads(p, true)
    {
      hide ArtNode.Layout, ArtNode.Header, AllKids, WellFormed, Sorted, Lists, InOrder, Landing, Extending, EntriesOf,
           Matching, ActiveValues, Misled, Traversed;
      ListedUnder(p);
      ghost var d;
      var q;
      q, d := FindPrefix(p, Landed(p));
      values := [];
      NoneActive(Landed(p));
      if q != Null { values := IterateActive(q, d); }
    }

    /** `art_iter_prefix`. */
    method IterPrefix(p: Key, callback: Pair -> int) returns (res: int, calls: seq<Pair>)
      requires Valid()
      ensures Shaped()
      ensures Sorted(Under(p)) && Lists(Under(p), Extending(Content(), p))
      ensures res == Outcome(Traversed(Landed(p)), callback) && calls == Calls(Traversed(Landed(p)), callback)
      ensures !Misleads(p, false) ==> res == Outcome(Under(p), callback) && calls == Calls(Under(p), callback)
    {
      hide ArtNode.Layout, ArtNode.Header, AllKids, WellFormed, Sorted, Lists, InOrder, Landing, Extending, EntriesOf,
           Matching, Calls, Outcome, Misled, Traversed;
      ListedUnder(p);
      ghost var d;
      var q;
      q, d := FindPrefix(p, Landed(p));
      res, calls := 0, [];
      NoneCalled(Landed(p), callback);
      if q != Null { res, calls := Iterate(q, callback, d); }
    }
  }

  lemma NoneActive(l: Landed)
    ensures !l.At? ==> ActiveValues(Traversed(l)) == []
    ensures l.At? ==> Traversed(l) == InOrder(l.sub)
  {
  }

  lemma NoneCalled(l: Landed, callback: Pair -> int)
    ensures !l.At? ==> Calls(Traversed(l), callback) == [] && Outcome(Traversed(l), callback) == 0
    ensures l.At? ==> Traversed(l) == InOrder(l.sub)
  {
  }

  lemma StoredNeverMisled(t: Trie, p: Key, onlyActive: bool)
    requires WellFormed(t) && Extending(EntriesOf(t), p) != map[]
    ensures !Misled(t, p, onlyActive)
  {
    hide WellFormed, Keys, Entry, Strays, Regains;
    var k :| k in Extending(EntriesOf(t), p).Keys;
    EntriesAt(t, k);
    assert SomeExtends(t, p);
    if Strays(t, p, 0) { StraysFromAll(t, p, 0); }
  }

  /** A walk that started at the root and ends at `l`, come to the subtree `t`; past the end of `p` nothing matches. */
  ghost predicate Follows(t: Trie, p: Key, d: nat, l: Landed)
    requires WellFormed(t)
  {
    if d <= |p| then d <= |Tries.Prefix(t)| && Landing(t, p, d) == l else !SomeExtends(t, p) && l == Astray
  }

  lemma FollowsStart(t: Trie, p: Key)
    requires WellFormed(t)
    ensures Follows(t, p, 0, Landing(t, p, 0))
  {
  }

  lemma LeafLanding(k: Key, v: Option<Handle>, p: Key, d: nat, l: Landed)
    requires Follows(Leaf(k, v), p, d, l)
    ensures p <= k ==> l == At(Leaf(k, v))
    ensures !(p <= k) ==> !l.At?
  {
    assert k in Keys(Leaf(k, v));
  }

  /** What the branches of the loop mean for where the walk ends. */
  lemma FollowsInner(t: Trie, p: Key, d: nat, l: Landed)
    requires WellFormed(t) && t.Inner? && d <= |t.pre| && Follows(t, p, d, l)
    ensures d == |p| ==> l == if p <= t.pre then At(t) else Nowhere
    ensures d <= |p| ==>
              var m := Lcp(t.pre[d..], p[d..]);
              && (d < |p| && d < |t.pre| && m == 0 ==> l == Nowhere)
              && (d < |p| && d < |t.pre| && m != 0 && d + m == |p| ==> l == At(t))
              && (d < |p| && (d == |t.pre| || (m != 0 && d + m != |p|)) ==> FollowsOn(t, p, l))
    ensures d > |p| ==> !l.At? && FollowsOn(t, p, l)
  {
    hide WellFormed, Landing, Keys, Lcp;
    if d > |p| {
      OffKids(t, p, l);
    } else {
      var m := Lcp(t.pre[d..], p[d..]);
      LandingInner(t, p, d, m);
      if d < |p| && (d == |t.pre| || (m != 0 && d + m != |p|)) {
        if |p| <= |t.pre| {
          PastEnd(t, p, d, m);
          OffKids(t, p, l);
        }
      }
    }
  }

  /** Taking the branch for byte `|t.pre|` of the prefix, or for any byte if there is none. */
  ghost predicate FollowsOn(t: Trie, p: Key, l: Landed)
    requires t.Inner?
  {
    && (|t.pre| < |p| && p[|t.pre|] !in t.kids ==> !l.At?)
    && (|p| <= |t.pre| ==> !l.At?)
    && forall b | b in t.kids && (|t.pre| < |p| ==> b == p[|t.pre|]) ::
         WellFormed(t.kids[b]) && Follows(t.kids[b], p, |t.pre| + 1, l)
  }

  lemma OffKids(t: Trie, p: Key, l: Landed)
    requires WellFormed(t) && t.Inner? && |p| <= |t.pre| && !SomeExtends(t, p) && l == Astray
    ensures FollowsOn(t, p, l)
  {
    hide Keys, Landing;
    forall b | b in t.kids ensures WellFormed(t.kids[b]) && Follows(t.kids[b], p, |t.pre| + 1, l) {
      NoneExtendsKid(t, p, b);
    }
  }

  /** A prefix that ends above the branching byte without agreeing to its end. */
  lemma PastEnd(t: Trie, p: Key, d: nat, m: nat)
    requires WellFormed(t) && t.Inner? && d < |p| <= |t.pre| && m == Lcp(t.pre[d..], p[d..]) && d + m != |p|
    ensures !SomeExtends(t, p)
  {
    hide WellFormed, Keys, Lcp;
    if SomeExtends(t, p) {
      var k :| k in Keys(t) && p <= k;
      KeysExtendPrefix(t, k);
      PrefixesComparable(t.pre, p, k);
      LcpTails(t.pre, p, d);
    }
  }

  /** `minimum` stands for the whole subtree when only its path matters. */
  method FirstMatches(n: ArtNode, p: Key, d: nat) returns (matches: bool)
    requires RadixTrees.Valid(N(n), d) && WellFormed(n.trie) && d == |p| && d <= |n.trie.pre|
    ensures matches <==> p <= n.trie.pre
    ensures RadixTrees.Valid(N(n), d)
  {
    hide ArtNode.Layout, ArtNode.Header, AllKids, RadixTrees.Apart, WellFormed;
    var l := Minimum(N(n), d);
    FirstExtends(n.trie);
    matches := l.keyLen >= |p| && l.buf[..|p|] == p;
    assert KeyOf(l)[..|p|] == n.trie.pre[..|p|];
  }

  method KidAt(n: ArtNode, b: byte, ghost d: nat) returns (q: Ptr)
    requires RadixTrees.Valid(N(n), d) && WellFormed(n.trie)
    ensures n.trie.Inner? && (q == Null <==> b !in n.trie.kids)
    ensures q != Null ==>
              && Foot(q) < n.Repr && Obj(q) <= n.Repr && RadixTrees.Valid(q, |n.trie.pre| + 1)
              && WellFormed(Model(q)) && Model(q) == n.trie.kids[b]
  {
    hide ArtNode.Layout, ArtNode.Header, AllKids, RadixTrees.Apart, WellFormed;
    q := Null;
    var slot := n.FindChild(b);
    if slot >= 0 {
      Branch(n, d, b);
      q := n.children[slot];
    }
  }

  /** The part of the loop that looks at an inner node. */
  method PrefixStep(n: ArtNode, p: Key, d: nat, ghost l: Landed) returns (found: bool, q: Ptr, depth: nat)
    requires RadixTrees.Valid(N(n), d) && WellFormed(n.trie) && Follows(n.trie, p, d, l)
    ensures found ==> l == At(n.trie)
    ensures !found && q == Null ==> !l.At?
    ensures !found && q != Null ==>
              && Foot(q) < n.Repr && Obj(q) <= n.Repr && RadixTrees.Valid(q, depth) && WellFormed(Model(q))
              && Follows(Model(q), p, depth, l)
  {
    hide ArtNode.Layout, ArtNode.Header, AllKids, RadixTrees.Apart, WellFormed, Follows, FollowsOn, Lcp;
    PathLength(n, d);
    FollowsInner(n.trie, p, d, l);
    found, q, depth := false, Null, d;
    if d == |p| {
      found := FirstMatches(n, p, d);
      return;
    }
    if n.partialLen != 0 {
      var prefixLen := PrefixMismatch(n, p, d);
      if prefixLen > n.partialLen { prefixLen := n.partialLen; }
      if prefixLen == 0 { return; }
      if d + prefixLen == |p| { return true, Null, d; }
      depth := d + n.partialLen;
    }
    q, depth := Descend(n, p, depth, d, l);
  }

  /** `find_child` on the next byte; beyond the end of the prefix that may be any byte. */
  method Descend(n: ArtNode, p: Key, at: nat, ghost d: nat, ghost l: Landed) returns (q: Ptr, depth: nat)
    requires RadixTrees.Valid(N(n), d) && WellFormed(n.trie) && n.trie.Inner? && at == |n.trie.pre|
    requires FollowsOn(n.trie, p, l)
    ensures q == Null ==> !l.At?
    ensures q != Null ==>
              && Foot(q) < n.Repr && Obj(q) <= n.Repr && RadixTrees.Valid(q, depth) && WellFormed(Model(q))
              && Follows(Model(q), p, depth, l)
  {
    hide RadixTrees.Valid, WellFormed, Follows;
    var c: byte := *;
    if at < |p| { c := p[at]; }
    q := KidAt(n, c, d);
    depth := at + 1;
  }

  ghost predicate Ends(m: Entries, x: Pair) {
    x.key in m && m[x.key] == x.value
  }

  /** The first of a listing in order is least, the last greatest. */
  lemma ListingEnds(s: seq<Pair>, m: Entries)
    requires Sorted(s) && Lists(s, m) && |s| > 0
    ensures Ends(m, s[0]) && forall k | k in m :: !Less(k, s[0].key)
    ensures Ends(m, s[|s| - 1]) && forall k | k in m :: !Less(s[|s| - 1].key, k)
  {
    hide Less;
    assert s[0] in s && s[|s| - 1] in s;
    forall k | k in m ensures !Less(k, s[0].key) && !Less(s[|s| - 1].key, k) {
      var i :| 0 <= i < |s| && s[i] == Pair(k, m[k]);
      LessIrreflexive(k);
      if i > 0 { LessAsymmetric(s[0].key, s[i].key); }
      if i < |s| - 1 { LessAsymmetric(s[i].key, s[|s| - 1].key); }
    }
  }

  lemma OneLeaf(key: Key, value: Option<Handle>)
    ensures EntriesOf(Leaf(key, value)) == map[key := value] && WellFormed(Leaf(key, value))
  {
  }

  lemma SomeEntry(t: Trie)
    requires WellFormed(t)
    ensures EntriesOf(t) != map[]
  {
    var k := SomeKey(t);
    EntriesAt(t, k);
  }

  lemma NothingToTake(m: Entries, key: Key)
    requires m == map[]
    ensures m - {key} == m
  {
  }

  lemma NothingThere(p: Key, size: int)
    requires 0 <= size < U64
    ensures !Covered(map[], p) && size == Wrap(size - |Extending(map[], p)|)
  {
    assert Extending(map[], p) == map[];
  }

  /** The same in terms of the entries. */
  method TakeEntry(p: Ptr, key: Key) returns (r: Ptr, found: bool, value: Option<Handle>)
    requires RadixTrees.Valid(p, 0) && WellFormed(Model(p)) && AtMost(Model(p), |key|)
    modifies Foot(p)
    ensures r != Null ==> RadixTrees.Valid(r, 0) && WellFormed(Model(r))
    ensures (if r == Null then map[] else EntriesOf(Model(r))) == old(EntriesOf(Model(p))) - {key}
    ensures fresh(Foot(r) - old(Foot(p)))
    ensures found <==> key in old(EntriesOf(Model(p)))
    ensures value == if found then old(EntriesOf(Model(p)))[key] else None
  {
    hide RadixTrees.Valid, WellFormed, AtMost, Tries.Delete, Entry, EntriesOf;
    PtrKid(p, 0);
    ghost var t := Model(p);
    DeleteRefines(t, key);
    EntriesAt(t, key);
    r, found, value := DeleteFrom(p, key);
  }

  /** `recursive_delete` from the root, where the node may itself be the leaf to go. */
  method DeleteFrom(p: Ptr, key: Key) returns (r: Ptr, found: bool, value: Option<Handle>)
    requires RadixTrees.Valid(p, 0) && WellFormed(Model(p)) && AtMost(Model(p), |key|)
    modifies Foot(p)
    ensures r != Null ==> RadixTrees.Valid(r, 0)
    ensures Tries.Delete(old(Model(p)), key) == if r == Null then None else Some(Model(r))
    ensures fresh(Foot(r) - old(Foot(p)))
    ensures found <==> Entry(old(Model(p)), key).Some?
    ensures value == if found then Entry(old(Model(p)), key).value else None
  {
    hide ArtNode.Layout, ArtNode.Header, WellFormed, AllKids, Made, AtMost;
    match p
    case L(l) =>
      if l.keyLen == |key| && l.buf[..l.keyLen] == key { return Null, true, l.value; }
      return p, false, None;
    case N(n) =>
      r, found, value := DeleteAtNode(n, key, 0);
  }

  lemma LeafHolder(k: Key, v: Option<Handle>, q: Key)
    ensures Holder(Leaf(k, v), q) == if k <= q then Some(Leaf(k, v)) else None
  {
  }

  /** `active_leaf_prefix_matches`. */
  method MatchLeaf(l: ArtLeaf, key: Key) returns (code: int, r: Option<Handle>)
    requires l.keyLen <= |l.buf|
    ensures code == if l.value.None? && KeyOf(l) < key then -1
                    else if l.value.Some? && KeyOf(l) == key then 1 else 0
    ensures r == if code == 1 then l.value else None
  {
    var n := Min(|key|, l.keyLen);
    code, r := 0, None;
    if l.value.Some? {
      if l.buf[..n] == key[..n] && l.keyLen == |key| { code, r := 1, l.value; }
    } else {
      if l.keyLen < |key| && l.buf[..n] == key[..n] { code := -1; }
    }
  }
}

/**
  Short histories on a new tree at which a promise fails: a prefix iteration that is misled, and a
  size that has drifted.
 */
module Witnesses {
  import opened Bytes
  import opened Tries
  import opened TrieOrder
  import opened TrieMaps
  import opened PrefixWalks
  import opened Nodes
  import opened RadixTrees
  import opened ArtTrees
  import opened TreeHistories

  const KEY_A: Key := [1, 2, 3, 4, 5, 6]
  const KEY_B: Key := [1, 2, 3, 4, 5, 7]
  const KEY_C: Key := [1, 2, 3, 8, 0, 0]

  /** Wrong in its second byte only. */
  const PREFIX: Key := [1, 9, 3, 4, 5]

  function Low(): Trie {
    Inner([1, 2, 3, 4, 5], Two(6, Leaf(KEY_A, Some(60)), 7, Leaf(KEY_B, Some(70))))
  }

  function Top(): Trie {
    Inner([1, 2, 3], Two(4, Low(), 8, Leaf(KEY_C, Some(80))))
  }

  lemma Shapes()
    ensures WellFormed(Low()) && WellFormed(Top())
  {
    PairWellFormed([1, 2, 3, 4, 5], 6, Leaf(KEY_A, Some(60)), 7, Leaf(KEY_B, Some(70)));
    PairWellFormed([1, 2, 3], 4, Low(), 8, Leaf(KEY_C, Some(80)));
  }

  /** The entries of a node with two children. */
  lemma PairEntries(pre: Key, a: byte, s: Trie, b: byte, t: Trie, k: Key)
    requires a != b && WellFormed(Inner(pre, Two(a, s, b, t))) && WellFormed(s) && WellFormed(t)
    requires Below(pre, a, Prefix(s)) && Below(pre, b, Prefix(t))
    ensures Entry(Inner(pre, Two(a, s, b, t)), k) == if Entry(s, k).Some? then Entry(s, k) else Entry(t, k)
  {
    if Entry(s, k).Some? { EntryExtends(s, k); }
    if Entry(t, k).Some? { EntryExtends(t, k); }
  }

  function LowMap(): Entries {
    map[KEY_A := Some(60), KEY_B := Some(70)]
  }

  function TopMap(): Entries {
    map[KEY_A := Some(60), KEY_B := Some(70), KEY_C := Some(80)]
  }

  lemma LowEntry(k: Key)
    ensures Entry(Low(), k) == if k in LowMap() then Some(LowMap()[k]) else None
  {
    Shapes();
    PairEntries([1, 2, 3, 4, 5], 6, Leaf(KEY_A, Some(60)), 7, Leaf(KEY_B, Some(70)), k);
  }

  lemma TopEntry(k: Key)
    ensures Entry(Top(), k) == if k in TopMap() then Some(TopMap()[k]) else None
  {
    hide Entry, WellFormed;
    Shapes();
    LowEntry(k);
    LeafOnly(KEY_C, Some(80), k);
    PairEntries([1, 2, 3], 4, Low(), 8, Leaf(KEY_C, Some(80)), k);
  }

  lemma LeafOnly(key: Key, value: Option<Handle>, k: Key)
    ensures Entry(Leaf(key, value), k) == (if k == key then Some(value) else None) && WellFormed(Leaf(key, value))
  {
  }

  lemma Maps()
    ensures WellFormed(Low()) && EntriesOf(Low()) == LowMap()
    ensures WellFormed(Top()) && EntriesOf(Top()) == TopMap()
  {
    hide Entry, WellFormed, EntriesOf, Low, Top;
    Shapes();
    forall k ensures SameAt(Low(), LowMap(), k) { LowEntry(k); }
    EntriesEqual(Low(), LowMap());
    forall k ensures SameAt(Top(), TopMap(), k) { TopEntry(k); }
    EntriesEqual(Top(), TopMap());
  }

  lemma LowListing()
    ensures InOrder(Low()) == [Pair(KEY_A, Some(60)), Pair(KEY_B, Some(70))]
  {
    hide InOrder, EntriesOf, Low;
    Maps();
    TraversalRefines(Low());
    var s := [Pair(KEY_A, Some(60)), Pair(KEY_B, Some(70))];
    LessAcross([1, 2, 3, 4, 5], KEY_A, KEY_B);
    TwoListed(s[0], s[1]);
    assert LowMap() == map[KEY_A := Some(60), KEY_B := Some(70)];
    ListingUnique(InOrder(Low()), s, LowMap());
  }

  lemma TwoListed(a: Pair, b: Pair)
    requires Less(a.key, b.key)
    ensures Sorted([a, b]) && Lists([a, b], map[a.key := a.value, b.key := b.value])
  {
    hide Less;
    LessIrreflexive(a.key);
    assert [a, b][0] == a && [a, b][1] == b;
  }

  /** Under the path 1,2,3 the walk goes on along the edge 4, and the path 5 below agrees with the end of the prefix. */
  lemma Wrong()
    ensures Landing(Top(), PREFIX, 0) == At(Low())
  {
    Shapes();
    LcpUnique(Top().pre[0..], PREFIX[0..], 1);
    LcpUnique(Low().pre[4..], PREFIX[4..], 1);
    WrongBelow(Low(), Top());
  }

  lemma WrongBelow(s: Trie, t: Trie)
    requires WellFormed(s) && s.Inner? && s.pre == [1, 2, 3, 4, 5]
    requires WellFormed(t) && t.Inner? && t.pre == [1, 2, 3] && 4 in t.kids && t.kids[4] == s
    requires Lcp(t.pre[0..], PREFIX[0..]) == 1 && Lcp(s.pre[4..], PREFIX[4..]) == 1
    ensures Landing(t, PREFIX, 0) == At(s)
  {
    hide Lcp, WellFormed, Landing;
    LandingInner(t, PREFIX, 0, 1);
    LandingInner(s, PREFIX, 4, 1);
  }

  function Puts(): seq<Call> {
    [Put(KEY_A, 60), Put(KEY_B, 70), Put(KEY_C, 80)]
  }

  /** Keys of one length, nothing disabled: a history like any other. */
  lemma PutsAllowed()
    ensures AllAllowed(EMPTY, Puts(), 6)
    ensures After(EMPTY, Puts()) == Index(map[KEY_A := 60, KEY_B := 70, KEY_C := 80], {})
  {
    var cs := Puts();
    assert cs[..0] == [];
    AfterStep(EMPTY, cs, 0);
    AfterStep(EMPTY, cs, 1);
    AfterStep(EMPTY, cs, 2);
    assert cs[..3] == cs;
    forall n | 0 <= n < 3 ensures Allowed(After(EMPTY, cs[..n]), cs[n], 6) {
      assert After(EMPTY, cs[..n]).tags == {};
    }
  }

  lemma PutsContent(m: Entries)
    requires Abs(m) == Index(map[KEY_A := 60, KEY_B := 70, KEY_C := 80], {})
    ensures m == TopMap()
  {
    forall k ensures (k in m <==> k in TopMap()) && (k in m ==> m[k] == TopMap()[k]) {
      assert k in Active(m) <==> k in TopMap();
      assert k !in Tags(m);
    }
  }

  lemma FromTracks(t: ArtTree, i: Index, drift: nat, length: nat)
    requires Tracks(t, i, drift, length)
    ensures t.Valid() && Abs(t.Content()) == i && Active(t.Content()) == i.active
    ensures t.size == Wrap(|i.active| - drift)
  {
    hide ArtTree.Valid, ArtTree.Content, Good, Wrap;
  }

  /** A prefix that nothing starts with, for which the iteration hands out two values all the same. */
  method MisledWalk() returns (t: ArtTree, values: seq<Handle>)
    ensures t.Valid() && Active(t.Content()) == map[KEY_A := 60, KEY_B := 70, KEY_C := 80]
    ensures Extending(t.Content(), PREFIX) == map[] && t.Misleads(PREFIX, true)
    ensures values == [60, 70]
  {
    hide ArtTree.Valid, ArtTree.Content, ArtTree.Landed, ArtTree.Misleads, Landing, Tracks, AllAllowed, After, Drift,
         Replied, SomeDrops, Extending, Active, ActiveValues, Abs;
    PutsAllowed();
    var rs;
    t, rs := Replay(Puts(), 6);
    FromTracks(t, After(EMPTY, Puts()), Drift(EMPTY, Puts()), 6);
    values := Walk(t);
  }

  method Walk(t: ArtTree) returns (values: seq<Handle>)
    requires t.Valid() && Abs(t.Content()) == Index(map[KEY_A := 60, KEY_B := 70, KEY_C := 80], {})
    ensures t.Valid() && Active(t.Content()) == map[KEY_A := 60, KEY_B := 70, KEY_C := 80]
    ensures Extending(t.Content(), PREFIX) == map[] && t.Misleads(PREFIX, true)
    ensures values == [60, 70]
  {
    hide ArtNode.Layout, ArtNode.Header, AllKids, WellFormed, ArtTree.Landed, ArtTree.Misleads, ArtTree.Under,
         EntriesOf, Extending, Active, Tags, ActiveValues, Sorted, Lists;
    values := t.IterActivePrefix(PREFIX);
    MisledHere(t);
  }

  lemma MisledHere(t: ArtTree)
    requires t.Valid() && Abs(t.Content()) == Index(map[KEY_A := 60, KEY_B := 70, KEY_C := 80], {})
    ensures Active(t.Content()) == map[KEY_A := 60, KEY_B := 70, KEY_C := 80]
    ensures Extending(t.Content(), PREFIX) == map[] && t.Misleads(PREFIX, true)
    ensures ActiveValues(Traversed(t.Landed(PREFIX))) == [60, 70]
  {
    hide RadixTrees.Valid, WellFormed, Landing, InOrder, EntriesOf, Low, Top, Misled;
    PutsContent(t.Content());
    assert KEY_A in t.Content();
    Maps();
    ShapeFromEntries(Model(t.root), Top());
    Wrong();
    LowListing();
    NoneUnder();
    t.ListedUnder(PREFIX);
    NoneListed(t.Under(PREFIX), t.Content());
    TwoActive();
  }

  lemma NoneUnder()
    ensures Extending(TopMap(), PREFIX) == map[]
  {
    assert KEY_A[1] != PREFIX[1] && KEY_B[1] != PREFIX[1] && KEY_C[1] != PREFIX[1];
  }

  lemma NoneListed(s: seq<Pair>, m: Entries)
    requires Sorted(s) && Lists(s, Extending(m, PREFIX)) && Extending(m, PREFIX) == map[]
    ensures s == [] && ActiveValues(s) == []
  {
    hide Sorted, Lists, Extending;
    SortedCount(s, Extending(m, PREFIX));
  }

  lemma TwoActive()
    ensures ActiveValues([Pair(KEY_A, Some(60)), Pair(KEY_B, Some(70))]) == [60, 70]
  {
    var x, y := Pair(KEY_A, Some(60)), Pair(KEY_B, Some(70));
    assert [x, y][1..] == [y] && [y][1..] == [];
    assert ActiveValues([y]) == ActiveValue(y) + ActiveValues([]) == [70];
    assert ActiveValues([x, y]) == ActiveValue(x) + ActiveValues([y]);
  }

  // ---------------------------------------------------------------- the size

  function Drifts(): seq<Call> {
    [Put([1, 2, 3], 7), Forbid([1, 2]), Forbid([1])]
  }

  /** One key, disabled under a prefix that is then disabled under a shorter one. */
  lemma DriftsAllowed()
    ensures AllAllowed(EMPTY, Drifts(), 3)
    ensures After(EMPTY, Drifts()) == Index(map[], {[1]}) && Drift(EMPTY, Drifts()) == 1
  {
    var cs := Drifts();
    var a, b := Index(map[[1, 2, 3] := 7], {}), Index(map[], {[1, 2]});
    assert cs[..0] == [] && cs[..3] == cs;
    AfterStep(EMPTY, cs, 0);
    AfterStep(EMPTY, cs, 1);
    AfterStep(EMPTY, cs, 2);
    DriftStep(EMPTY, cs, 0);
    DriftStep(EMPTY, cs, 1);
    DriftStep(EMPTY, cs, 2);
    assert After(EMPTY, cs[..1]) == a;
    OneCut(a, b);
    assert After(EMPTY, cs[..2]) == b;
    TwoCut(b);
    forall n | 0 <= n < 3 ensures Allowed(After(EMPTY, cs[..n]), cs[n], 3) {}
  }

  lemma OneCut(a: Index, b: Index)
    requires a == Index(map[[1, 2, 3] := 7], {}) && b == Index(map[], {[1, 2]})
    ensures TreeHistories.Step(a, Forbid([1, 2])) == b && Uncounted(a, Forbid([1, 2])) == 0
  {
    var p: Key := [1, 2];
    assert p <= [1, 2, 3];
    assert a.active != map[] by { assert [1, 2, 3] in a.active; }
    assert !Shut(a, p);
    assert (set q | q in a.tags && p <= q) == {};
    assert Cut(a, p).active == map[] && Cut(a, p).tags == {p};
  }

  lemma TwoCut(b: Index)
    requires b == Index(map[], {[1, 2]})
    ensures TreeHistories.Step(b, Forbid([1])) == Index(map[], {[1]}) && Uncounted(b, Forbid([1])) == 1
  {
    var p: Key := [1];
    assert p <= [1, 2];
    assert !Shut(b, p);
    assert (set q | q in b.tags && p <= q) == {[1, 2]};
  }

  /** No active key is left, and the size is one less than nothing. */
  method DriftedSize() returns (t: ArtTree)
    ensures t.Valid() && Active(t.Content()) == map[] && t.size == 0xFFFF_FFFF_FFFF_FFFF
  {
    hide ArtTree.Valid, ArtTree.Content, Tracks, AllAllowed, After, Drift, Replied, SomeDrops, Abs, Wrap;
    DriftsAllowed();
    var rs;
    t, rs := Replay(Drifts(), 3);
    FromTracks(t, After(EMPTY, Drifts()), Drift(EMPTY, Drifts()), 3);
    DivUnique(0 - 1, -1, U64 - 1);
  }
}

/**
  The walk with which art.cc looks for the subtree under a prefix, and exactly when the entries it
  finds are those whose keys start with the prefix.

  The walk does not stop when the prefix leaves a compressed path after one byte or more; it goes
  on behind that path. From there it may read bytes beyond the end of the prefix, and it may meet a
  path that agrees with the rest of the prefix and take everything below it for a match.
 */
module PrefixWalks {
  import opened Bytes
  import opened Tries
  import opened TrieOrder
  import opened TrieMaps

  /**
    Where the walk ends: at a subtree to be traversed, nowhere, or `Astray`, having read the
    prefix beyond its end; then it finds nothing, whatever it read.
   */
  datatype Landed = Astray | Nowhere | At(sub: Trie)

  function Landing(t: Trie, p: Key, d: nat): Landed
    requires WellFormed(t) && d <= |p| && d <= |Prefix(t)|
  {
    match t
    case Leaf(key, _) => if p <= key then At(t) else Nowhere
    case Inner(pre, kids) =>
      var m := Lcp(pre[d..], p[d..]);
      if d == |p| then (if p <= pre then At(t) else Nowhere)
      else if d < |pre| && m == 0 then Nowhere
      else if d < |pre| && d + m == |p| then At(t)
      else if |p| <= |pre| then Astray
      else if p[|pre|] in kids then Landing(kids[p[|pre|]], p, |pre| + 1)
      else Nowhere
  }

  /** The entries of a traversal whose keys start with `p`. */
  function Matching(s: seq<Pair>, p: Key): seq<Pair> {
    if s == [] then [] else (if p <= s[0].key then [s[0]] else []) + Matching(s[1..], p)
  }

  lemma {:induction false} MatchingConcat(a: seq<Pair>, b: seq<Pair>, p: Key)
    ensures Matching(a + b, p) == Matching(a, p) + Matching(b, p)
    decreases |a|
  {
    if a == [] {
      assert a + b == b;
    } else {
      MatchingConcat(a[1..], b, p);
      assert (a + b)[0] == a[0] && (a + b)[1..] == a[1..] + b;
      Associative(if p <= a[0].key then [a[0]] else [], Matching(a[1..], p), Matching(b, p));
    }
  }

  lemma {:induction false} MatchingNone(s: seq<Pair>, p: Key)
    requires forall x :: x in s ==> !(p <= x.key)
    ensures Matching(s, p) == []
  {
    if s != [] { MatchingNone(s[1..], p); }
  }

  lemma {:induction false} MatchingAll(s: seq<Pair>, p: Key)
    requires forall x :: x in s ==> p <= x.key
    ensures Matching(s, p) == s
  {
    if s != [] {
      MatchingAll(s[1..], p);
      assert [s[0]] + s[1..] == s;
    }
  }

  /** Matching keeps order, and loses and adds nothing. */
  lemma {:induction false} MatchingIs(s: seq<Pair>, p: Key)
    requires Sorted(s)
    ensures Sorted(Matching(s, p))
    ensures forall x :: x in Matching(s, p) <==> x in s && p <= x.key
  {
    hide Less;
    if s != [] {
      MatchingIs(s[1..], p);
      var head := if p <= s[0].key then [s[0]] else [];
      forall i, j | 0 <= i < |head| && 0 <= j < |Matching(s[1..], p)|
        ensures Less(head[i].key, Matching(s[1..], p)[j].key)
      {
        assert Matching(s[1..], p)[j] in s[1..];
        var k :| 0 <= k < |s[1..]| && s[1..][k] == Matching(s[1..], p)[j];
        assert Less(s[0].key, s[k + 1].key);
      }
      SortedConcat(head, Matching(s[1..], p));
    }
  }

  lemma StoredExtends(t: Trie, x: Pair)
    requires WellFormed(t) && x in InOrder(t)
    ensures x.key in Keys(t) && Prefix(t) <= x.key
  {
    hide InOrder, WellFormed, Keys, Entry;
    InOrderEntry(t, x.key, x.value);
    EntryExtends(t, x.key);
  }

  lemma MatchingWhole(t: Trie, p: Key)
    requires WellFormed(t) && p <= Prefix(t)
    ensures Matching(InOrder(t), p) == InOrder(t)
  {
    hide InOrder, WellFormed, Keys;
    forall x | x in InOrder(t) ensures p <= x.key { StoredExtends(t, x); }
    MatchingAll(InOrder(t), p);
  }

  /** Only the child on the way to `p` holds anything that starts with `p`. */
  lemma {:induction false} MatchingSpan(t: Trie, lo: nat, p: Key)
    requires WellFormed(t) && t.Inner? && lo <= 256 && t.pre < p && p[|t.pre|] in t.kids
    ensures Matching(Span(t, lo), p)
         == if lo <= p[|t.pre|] then Matching(InOrder(t.kids[p[|t.pre|]]), p) else []
    decreases 256 - lo
  {
    hide InOrder, WellFormed, Matching, Span;
    SpanParts(t, lo);
    if lo < 256 {
      MatchingSpan(t, lo + 1, p);
      MatchingConcat(Branched(t, lo), Span(t, lo + 1), p);
      if lo != p[|t.pre|] { MatchingAside(t, lo, p); }
    } else {
      MatchingNone([], p);
    }
  }

  /** What hangs under one edge byte. */
  function Branched(t: Trie, b: nat): seq<Pair>
    requires t.Inner? && b < 256
  {
    if b in t.kids then InOrder(t.kids[b]) else []
  }

  lemma SpanParts(t: Trie, lo: nat)
    requires t.Inner? && lo <= 256
    ensures Span(t, lo) == if lo == 256 then [] else Branched(t, lo) + Span(t, lo + 1)
  {
    hide InOrder;
  }

  lemma MatchingAside(t: Trie, b: nat, p: Key)
    requires WellFormed(t) && t.Inner? && b < 256 && t.pre < p && p[|t.pre|] != b
    ensures Matching(Branched(t, b), p) == []
  {
    hide InOrder, Keys;
    if b in t.kids {
      forall x | x in InOrder(t.kids[b]) ensures !(p <= x.key) { StoredExtends(t.kids[b], x); }
      MatchingNone(InOrder(t.kids[b]), p);
    }
  }

  lemma MatchingBelow(t: Trie, p: Key)
    requires WellFormed(t) && t.Inner? && t.pre < p && p[|t.pre|] in t.kids
    ensures Matching(InOrder(t), p) == Matching(InOrder(t.kids[p[|t.pre|]]), p)
  {
    MatchingSpan(t, 0, p);
  }

  // ---------------------------------------------------------------- the walk

  /**
    When something stored starts with `p`, the walk stays in range, never leaves the path of `p`,
    and ends at the subtree of everything that starts with `p`.
   */
  lemma {:induction false} LandsOnPrefix(t: Trie, p: Key, d: nat, k: Key)
    requires WellFormed(t) && d <= |p| && d <= |Prefix(t)|
    requires k in Keys(t) && p <= k
    ensures Landing(t, p, d).At? && p <= Prefix(Landing(t, p, d).sub)
    ensures Matching(InOrder(t), p) == InOrder(Landing(t, p, d).sub)
  {
    hide InOrder, Landing, WellFormed, Matching;
    KeysExtendPrefix(t, k);
    PrefixesComparable(Prefix(t), p, k);
    if p <= Prefix(t) {
      MatchingWhole(t, p);
      LandingHere(t, p, d);
    } else {
      LandingBelow(t, p, d);
      MatchingBelow(t, p);
      LandsOnPrefix(t.kids[p[|t.pre|]], p, |t.pre| + 1, k);
    }
  }

  lemma KidOfPath(t: Trie, b: byte)
    requires WellFormed(t) && t.Inner? && b in t.kids
    ensures WellFormed(t.kids[b]) && |t.pre| + 1 <= |Prefix(t.kids[b])|
    ensures Prefix(t.kids[b])[..|t.pre| + 1] == t.pre + [b]
  {
    hide Keys, Prefix, Below;
    assert Below(t.pre, b, Prefix(t.kids[b]));
    BelowTake(t.pre, b, Prefix(t.kids[b]));
  }

  lemma BelowTake(pre: Key, b: byte, k: Key)
    requires Below(pre, b, k)
    ensures |pre| + 1 <= |k| && k[..|pre| + 1] == pre + [b]
  {
  }

  /** The walk at an inner node, given how far the tails agree. */
  lemma LandingInner(t: Trie, p: Key, d: nat, m: nat)
    requires WellFormed(t) && t.Inner? && d <= |p| && d <= |t.pre| && m == Lcp(t.pre[d..], p[d..])
    ensures d == |p| ==> Landing(t, p, d) == if p <= t.pre then At(t) else Nowhere
    ensures d < |p| && d < |t.pre| && m == 0 ==> Landing(t, p, d) == Nowhere
    ensures d < |p| && d < |t.pre| && m != 0 && d + m == |p| ==> Landing(t, p, d) == At(t)
    ensures d < |p| && (d == |t.pre| || (m != 0 && d + m != |p|)) ==>
              && (|p| <= |t.pre| ==> Landing(t, p, d) == Astray)
              && (|t.pre| < |p| && p[|t.pre|] !in t.kids ==> Landing(t, p, d) == Nowhere)
              && (|t.pre| < |p| && p[|t.pre|] in t.kids ==>
                    && WellFormed(t.kids[p[|t.pre|]]) && |t.pre| + 1 <= |Prefix(t.kids[p[|t.pre|]])|
                    && Landing(t, p, d) == Landing(t.kids[p[|t.pre|]], p, |t.pre| + 1))
  {
    hide Lcp, Keys, Prefix;
    if |t.pre| < |p| && p[|t.pre|] in t.kids { KidOfPath(t, p[|t.pre|]); }
  }

  lemma LandingHere(t: Trie, p: Key, d: nat)
    requires WellFormed(t) && d <= |p| && p <= Prefix(t)
    ensures Landing(t, p, d) == At(t)
  {
    hide WellFormed, Keys;
    if t.Inner? { LcpTails(t.pre, p, d); }
  }

  lemma LandingBelow(t: Trie, p: Key, d: nat)
    requires WellFormed(t) && t.Inner? && d <= |t.pre| && t.pre < p && p[|t.pre|] in t.kids
    ensures WellFormed(t.kids[p[|t.pre|]]) && |t.pre| + 1 <= |Prefix(t.kids[p[|t.pre|]])|
    ensures Landing(t, p, d) == Landing(t.kids[p[|t.pre|]], p, |t.pre| + 1)
  {
    hide Lcp, Keys;
    LcpTails(t.pre, p, d);
    assert Below(t.pre, p[|t.pre|], Prefix(t.kids[p[|t.pre|]]));
  }

  lemma LcpTails(pre: Key, p: Key, d: nat)
    requires d <= |pre| && d <= |p| && (p <= pre || pre <= p)
    ensures Lcp(pre[d..], p[d..]) == Min(|pre|, |p|) - d
  {
    LcpUnique(pre[d..], p[d..], Min(|pre|, |p|) - d);
  }

  /** What the walk has to traverse. */
  function Traversed(l: Landed): seq<Pair> {
    if l.At? then InOrder(l.sub) else []
  }

  ghost predicate SomeExtends(t: Trie, p: Key) {
    exists k :: k in Keys(t) && p <= k
  }

  lemma NothingMatches(t: Trie, p: Key)
    requires WellFormed(t) && !SomeExtends(t, p)
    ensures Matching(InOrder(t), p) == []
  {
    hide InOrder, WellFormed, Keys;
    forall x | x in InOrder(t) ensures !(p <= x.key) { StoredExtends(t, x); }
    MatchingNone(InOrder(t), p);
  }

  // ---------------------------------------------------------------- when the walk is misled

  /** The branch that does not stop: the prefix leaves the path after one byte or more, before the end of either. */
  predicate LeavesMidway(pre: Key, p: Key, d: nat)
    requires d <= |pre| && d <= |p|
  {
    var m := Lcp(pre[d..], p[d..]);
    0 < m && d + m < |pre| && d + m < |p|
  }

  /** On its own path the prefix comes to a node whose compressed path it leaves midway. */
  predicate Strays(t: Trie, p: Key, d: nat)
    requires WellFormed(t) && d <= |p| && d <= |Prefix(t)|
  {
    t.Inner? && d < |p|
    && (LeavesMidway(t.pre, p, d)
        || (t.pre < p && p[|t.pre|] in t.kids && Strays(t.kids[p[|t.pre|]], p, |t.pre| + 1)))
  }

  ghost predicate SomeActive(t: Trie) {
    exists k, v :: Entry(t, k) == Some(Some(v))
  }

  /**
    Following branching bytes, with the first byte of each compressed path in agreement, the prefix ends
    inside a compressed path with which it agrees to its end; below hangs something to hand out.
   */
  ghost predicate Regains(t: Trie, p: Key, d: nat, onlyActive: bool)
    requires WellFormed(t) && d <= |p| && d <= |Prefix(t)|
  {
    t.Inner? && d < |p|
    && var m := Lcp(t.pre[d..], p[d..]);
       (d < |t.pre| ==> 0 < m)
       && if d < |t.pre| && d + m == |p| then !onlyActive || SomeActive(t)
          else |t.pre| < |p| && p[|t.pre|] in t.kids && Regains(t.kids[p[|t.pre|]], p, |t.pre| + 1, onlyActive)
  }

  /** The walk is misled exactly when the prefix strays and regains. */
  ghost predicate Misled(t: Trie, p: Key, onlyActive: bool)
    requires WellFormed(t)
  {
    Strays(t, p, 0) && Regains(t, p, 0, onlyActive)
  }

  lemma StraysInner(t: Trie, p: Key, d: nat)
    requires WellFormed(t) && t.Inner? && d < |p| && d <= |t.pre|
    ensures LeavesMidway(t.pre, p, d) ==> Strays(t, p, d)
    ensures !LeavesMidway(t.pre, p, d) && t.pre < p && p[|t.pre|] in t.kids ==>
              && WellFormed(t.kids[p[|t.pre|]]) && |t.pre| + 1 <= |Prefix(t.kids[p[|t.pre|]])|
              && (Strays(t, p, d) <==> Strays(t.kids[p[|t.pre|]], p, |t.pre| + 1))
    ensures !LeavesMidway(t.pre, p, d) && !(t.pre < p && p[|t.pre|] in t.kids) ==> !Strays(t, p, d)
  {
    hide LeavesMidway, Keys, Prefix;
    if t.pre < p && p[|t.pre|] in t.kids { KidOfPath(t, p[|t.pre|]); }
  }

  /** A prefix that strays is the start of nothing stored. */
  lemma {:induction false} StraysFromAll(t: Trie, p: Key, d: nat)
    requires WellFormed(t) && d <= |p| && d <= |Prefix(t)| && Strays(t, p, d)
    ensures !SomeExtends(t, p)
  {
    hide WellFormed, Lcp, Keys;
    if SomeExtends(t, p) {
      var k :| k in Keys(t) && p <= k;
      KeysExtendPrefix(t, k);
      PrefixesComparable(t.pre, p, k);
      LcpTails(t.pre, p, d);
      StraysInner(t, p, d);
      StraysFromAll(t.kids[p[|t.pre|]], p, |t.pre| + 1);
    }
  }

  /** A walk that lands away from the prefix has strayed. */
  lemma {:induction false} LandsAwayStrays(t: Trie, p: Key, d: nat)
    requires WellFormed(t) && d <= |p| && d <= |Prefix(t)| && p[..d] == Prefix(t)[..d]
    requires Landing(t, p, d).At? && !SomeExtends(t, p)
    ensures Strays(t, p, d)
  {
    hide Keys, WellFormed, Lcp, Landing, Strays, LeavesMidway;
    NotBelow(t, p);
    if t.Leaf? {
      LandingLeaf(t, p, d);
    } else {
      LandsAwayInner(t, p, d);
      if !LeavesMidway(t.pre, p, d) {
        KidOfPath(t, p[|t.pre|]);
        NoneExtendsKid(t, p, p[|t.pre|]);
        assert p[..|t.pre| + 1] == t.pre + [p[|t.pre|]];
        LandsAwayStrays(t.kids[p[|t.pre|]], p, |t.pre| + 1);
      }
      StraysInner(t, p, d);
    }
  }

  lemma NotBelow(t: Trie, p: Key)
    requires WellFormed(t) && !SomeExtends(t, p)
    ensures !(p <= Prefix(t))
  {
    hide WellFormed, Keys;
    var k := SomeKey(t);
    assert !(p <= k);
  }

  lemma LandingLeaf(t: Trie, p: Key, d: nat)
    requires t.Leaf? && d <= |p| && d <= |t.key|
    ensures Landing(t, p, d) == if p <= t.key then At(t) else Nowhere
  {
  }

  lemma LandsAwayInner(t: Trie, p: Key, d: nat)
    requires WellFormed(t) && t.Inner? && d <= |p| && d <= |t.pre| && p[..d] == t.pre[..d] && !(p <= t.pre)
    requires Landing(t, p, d).At?
    ensures d < |p|
    ensures !LeavesMidway(t.pre, p, d) ==>
              && t.pre < p && p[|t.pre|] in t.kids
              && WellFormed(t.kids[p[|t.pre|]]) && |t.pre| + 1 <= |Prefix(t.kids[p[|t.pre|]])|
              && Landing(t.kids[p[|t.pre|]], p, |t.pre| + 1).At?
  {
    hide Keys, WellFormed, Lcp, Landing;
    var m := Lcp(t.pre[d..], p[d..]);
    TailsAgree(t.pre, p, d);
    LandingInner(t, p, d, m);
  }

  lemma NoneExtendsKid(t: Trie, p: Key, b: byte)
    requires t.Inner? && b in t.kids && !SomeExtends(t, p)
    ensures !SomeExtends(t.kids[b], p)
  {
    forall k | k in Keys(t.kids[b]) ensures !(p <= k) { KidKey(t, b, k); }
  }

  /** Tails that agree to the end of one, after heads that agree. */
  lemma TailsAgree(pre: Key, p: Key, d: nat)
    requires d <= |pre| && d <= |p| && p[..d] == pre[..d]
    ensures var m := Lcp(pre[d..], p[d..]);
            (d + m == |p| <==> p <= pre) && (d + m == |pre| <==> pre <= p)
  {
    LcpWhole(pre[d..], p[d..]);
    assert p == p[..d] + p[d..] && pre == pre[..d] + pre[d..];
    assert p[d..] <= pre[d..] <==> p <= pre;
    assert pre[d..] <= p[d..] <==> pre <= p;
  }

  /** When nothing starts with the prefix, the walk hands something out exactly when the prefix regains. */
  lemma {:induction false} RegainsLands(t: Trie, p: Key, d: nat, onlyActive: bool)
    requires WellFormed(t) && d <= |p| && d <= |Prefix(t)| && !SomeExtends(t, p)
    ensures Regains(t, p, d, onlyActive) <==> Landing(t, p, d).At? && Gives(Landing(t, p, d).sub, onlyActive)
    ensures Landing(t, p, d).At? ==> WellFormed(Landing(t, p, d).sub)
  {
    hide Keys, WellFormed, Lcp, Gives, SomeActive;
    NotBelow(t, p);
    if t.Inner? {
      var m := Lcp(t.pre[d..], p[d..]);
      LandingInner(t, p, d, m);
      RegainsInner(t, p, d, m, onlyActive);
      if |t.pre| < |p| && p[|t.pre|] in t.kids {
        KidOfPath(t, p[|t.pre|]);
        NoneExtendsKid(t, p, p[|t.pre|]);
        RegainsLands(t.kids[p[|t.pre|]], p, |t.pre| + 1, onlyActive);
      }
    }
  }

  ghost predicate Gives(t: Trie, onlyActive: bool) {
    onlyActive ==> SomeActive(t)
  }

  lemma RegainsInner(t: Trie, p: Key, d: nat, m: nat, onlyActive: bool)
    requires WellFormed(t) && t.Inner? && d <= |p| && d <= |t.pre| && m == Lcp(t.pre[d..], p[d..])
    ensures d == |p| ==> !Regains(t, p, d, onlyActive)
    ensures d < |p| && d < |t.pre| && m == 0 ==> !Regains(t, p, d, onlyActive)
    ensures d < |p| && d < |t.pre| && m != 0 && d + m == |p| ==>
              (Regains(t, p, d, onlyActive) <==> Gives(t, onlyActive))
    ensures d < |p| && (d == |t.pre| || (m != 0 && d + m != |p|)) ==>
              && (!(|t.pre| < |p| && p[|t.pre|] in t.kids) ==> !Regains(t, p, d, onlyActive))
              && (|t.pre| < |p| && p[|t.pre|] in t.kids ==>
                    && WellFormed(t.kids[p[|t.pre|]]) && |t.pre| + 1 <= |Prefix(t.kids[p[|t.pre|]])|
                    && (Regains(t, p, d, onlyActive)
                        <==> Regains(t.kids[p[|t.pre|]], p, |t.pre| + 1, onlyActive)))
  {
    hide Lcp, Keys, Prefix, SomeActive;
    if |t.pre| < |p| && p[|t.pre|] in t.kids { KidOfPath(t, p[|t.pre|]); }
  }

  /** A tree always lists something, and something active exactly when it holds some. */
  lemma GivesListed(t: Trie)
    requires WellFormed(t)
    ensures InOrder(t) != []
    ensures ActiveValues(InOrder(t)) != [] <==> Gives(t, true)
  {
    InOrderSome(t);
    ActiveSome(t);
  }

  lemma ActiveSome(t: Trie)
    requires WellFormed(t)
    ensures ActiveValues(InOrder(t)) != [] <==> SomeActive(t)
  {
    hide InOrder, WellFormed, Entry;
    if SomeActive(t) {
      var k, v :| Entry(t, k) == Some(Some(v));
      InOrderEntry(t, k, Some(v));
      ActiveListed(InOrder(t), Pair(k, Some(v)));
    }
    if ActiveValues(InOrder(t)) != [] {
      var x := ActiveOne(InOrder(t));
      InOrderEntry(t, x.key, x.value);
    }
  }

  lemma {:induction false} ActiveListed(s: seq<Pair>, x: Pair)
    requires x in s && x.value.Some?
    ensures ActiveValues(s) != []
  {
    if s[0] != x { ActiveListed(s[1..], x); }
  }

  lemma {:induction false} ActiveOne(s: seq<Pair>) returns (x: Pair)
    requires ActiveValues(s) != []
    ensures x in s && x.value.Some?
  {
    if s[0].value.Some? { x := s[0]; } else { x := ActiveOne(s[1..]); }
  }

  /**
    For every tree and every prefix: the walk traverses exactly what starts with the prefix, unless it is
    misled; and hands out exactly the active values, unless it is misled to some.
   */
  lemma MisledExactly(t: Trie, p: Key)
    requires WellFormed(t)
    ensures Traversed(Landing(t, p, 0)) == Matching(InOrder(t), p) <==> !Misled(t, p, false)
    ensures ActiveValues(Traversed(Landing(t, p, 0))) == ActiveValues(Matching(InOrder(t), p)) <==> !Misled(t, p, true)
  {
    hide InOrder, WellFormed, Keys, Landing, Strays, Regains;
    if SomeExtends(t, p) {
      var k :| k in Keys(t) && p <= k;
      LandsOnPrefix(t, p, 0, k);
      if Strays(t, p, 0) { StraysFromAll(t, p, 0); }
    } else {
      NothingMatches(t, p);
      RegainsLands(t, p, 0, false);
      RegainsLands(t, p, 0, true);
      if Landing(t, p, 0).At? {
        GivesListed(Landing(t, p, 0).sub);
        LandsAwayStrays(t, p, 0);
      }
    }
  }

  // Prefixes that are never misled.

  /** Behind a stray three bytes are used up. */
  lemma {:induction false} ShortNeverRegains(t: Trie, p: Key, d: nat, onlyActive: bool)
    requires WellFormed(t) && d <= |p| <= d + 3 && d <= |Prefix(t)| && Strays(t, p, d)
    ensures !Regains(t, p, d, onlyActive)
  {
    hide WellFormed, Lcp, Keys;
    var m := Lcp(t.pre[d..], p[d..]);
    StraysInner(t, p, d);
    RegainsInner(t, p, d, m, onlyActive);
    if |t.pre| < |p| && p[|t.pre|] in t.kids && !LeavesMidway(t.pre, p, d) {
      LcpTails(t.pre, p, d);
      ShortNeverRegains(t.kids[p[|t.pre|]], p, |t.pre| + 1, onlyActive);
    }
  }

  lemma ShortNeverMisled(t: Trie, p: Key, onlyActive: bool)
    requires WellFormed(t) && |p| <= 3
    ensures !Misled(t, p, onlyActive)
  {
    hide Strays, Regains;
    if Strays(t, p, 0) { ShortNeverRegains(t, p, 0, onlyActive); }
  }

  /** Keys as the wrapper stores them: addresses of `n` bytes and a NUL, and tags no longer than an address. */
  ghost predicate NulEnded(t: Trie, n: nat) {
    forall k | k in Keys(t) :: |k| <= n + 1 && (|k| == n + 1 ==> k[n] == 0)
  }

  lemma NulEndedBranch(t: Trie, n: nat)
    requires WellFormed(t) && t.Inner? && NulEnded(t, n)
    ensures |t.pre| < n
  {
    hide WellFormed, Keys;
    var j, k := TwoKeys(t);
    assert |j| <= n + 1 && |k| <= n + 1;
  }

  lemma NulEndedKid(t: Trie, n: nat, b: byte)
    requires t.Inner? && NulEnded(t, n) && b in t.kids
    ensures NulEnded(t.kids[b], n)
  {
    forall q | q in Keys(t.kids[b]) ensures |q| <= n + 1 && (|q| == n + 1 ==> q[n] == 0) { KidKey(t, b, q); }
  }

  /** With a whole address the walk never reads beyond its end, and only ends under it. */
  lemma {:induction false} WholeLanding(t: Trie, p: Key, d: nat, onlyActive: bool)
    requires WellFormed(t) && d <= |p| && d <= |Prefix(t)| && NulEnded(t, |p|)
    ensures Landing(t, p, d) != Astray && !Regains(t, p, d, onlyActive)
  {
    hide Keys, NulEnded, Lcp, WellFormed, SomeActive;
    if t.Inner? {
      var m := Lcp(t.pre[d..], p[d..]);
      NulEndedBranch(t, |p|);
      LandingInner(t, p, d, m);
      RegainsInner(t, p, d, m, onlyActive);
      if p[|t.pre|] in t.kids {
        KidOfPath(t, p[|t.pre|]);
        NulEndedKid(t, |p|, p[|t.pre|]);
        WholeLanding(t.kids[p[|t.pre|]], p, |t.pre| + 1, onlyActive);
      }
    }
  }

  lemma WholeNeverMisled(t: Trie, p: Key, onlyActive: bool)
    requires WellFormed(t) && NulEnded(t, |p|)
    ensures Landing(t, p, 0) != Astray && !Misled(t, p, onlyActive)
  {
    WholeLanding(t, p, 0, onlyActive);
  }

  /** The matching part of a listing lists the matching part of the map. */
  lemma MatchingLists(s: seq<Pair>, m: Entries, p: Key)
    requires Sorted(s) && Lists(s, m)
    ensures Sorted(Matching(s, p)) && Lists(Matching(s, p), Extending(m, p))
  {
    hide Matching, Sorted;
    MatchingIs(s, p);
    forall k | k in Extending(m, p) ensures Pair(k, m[k]) in Matching(s, p) {
      assert Pair(k, m[k]) in s;
    }
  }

  /** The premise under which the walk is always right: some entry, active or tag, starts with `p`. */
  lemma RightWhenStored(t: Trie, p: Key)
    requires WellFormed(t) && Extending(EntriesOf(t), p) != map[]
    ensures Landing(t, p, 0).At? && InOrder(Landing(t, p, 0).sub) == Matching(InOrder(t), p)
  {
    hide InOrder, Landing, WellFormed, Keys, Entry;
    var k :| k in Extending(EntriesOf(t), p).Keys;
    EntriesAt(t, k);
    LandsOnPrefix(t, p, 0, k);
  }

}

/**
  The index the tree stands for, a map of active keys and a set of disabled prefixes, and what
  whole histories of calls on a tree do to it.
 */
module TreeHistories {
  import opened Bytes
  import opened Tries
  import opened TrieOrder
  import opened TrieMaps
  import opened ArtTrees
  import opened Nodes
  import opened RadixTrees

  datatype Index = Index(active: map<Key, Handle>, tags: set<Key>)

  const EMPTY := Index(map[], {})

  datatype Call =
    | Put(key: Key, value: Handle)
    | Remove(key: Key)
    | Get(key: Key)
    | Ask(key: Key)
    | Forbid(prefix: Key)

  /** What a call returns: a value or NULL, a lookup's code and value, or a disable's code. */
  datatype Reply = Value(value: Option<Handle>) | Verdict(code: int, value: Option<Handle>)

  ghost predicate Shut(i: Index, q: Key) {
    exists p :: p in i.tags && p < q
  }

  /** Dropping every active key and every tag under `p`, and leaving `p` as a tag. */
  ghost function Cut(i: Index, p: Key): Index {
    Index(map k | k in i.active && !(p <= k) :: i.active[k], (set q | q in i.tags && !(p <= q)) + {p})
  }

  ghost function Step(i: Index, c: Call): Index {
    match c
    case Put(k, v) => i.(active := i.active[k := v])
    case Remove(k) => i.(active := i.active - {k})
    case Get(_) => i
    case Ask(_) => i
    case Forbid(p) => if i == EMPTY || Shut(i, p) then i else Cut(i, p)
  }

  ghost function At(i: Index, k: Key): Option<Handle> {
    if k in i.active then Some(i.active[k]) else None
  }

  ghost function Answer(i: Index, c: Call): Reply {
    match c
    case Put(k, _) => Value(At(i, k))
    case Remove(k) => Value(At(i, k))
    case Get(k) => Value(At(i, k))
    case Ask(k) =>
      if Shut(i, k) then Verdict(-1, None) else if k in i.active then Verdict(1, At(i, k)) else Verdict(0, None)
    case Forbid(p) => Verdict(if Shut(i, p) then -1 else 1, None)
  }

  /** What the callers of the tree keep to: keys of one length, shorter prefixes, no insert under a tag. */
  ghost predicate Allowed(i: Index, c: Call, length: nat) {
    match c
    case Put(k, _) => |k| == length && !Shut(i, k)
    case Remove(k) => |k| == length
    case Get(k) => |k| == length
    case Ask(k) => |k| == length
    case Forbid(p) => 1 <= |p| < length
  }

  /** Fixed lengths; tags do not cover each other, and cover no active key. */
  ghost predicate Good(i: Index, length: nat) {
    && (forall k | k in i.active :: |k| == length && !Shut(i, k))
    && (forall p | p in i.tags :: 1 <= |p| < length && !Shut(i, p))
  }

  lemma StepGood(i: Index, c: Call, length: nat)
    requires Good(i, length) && Allowed(i, c, length)
    ensures Good(Step(i, c), length)
  {
  }

  /** A tag covers for good: another prefix can only replace it by covering more. */
  lemma StepShut(i: Index, c: Call, q: Key)
    requires Shut(i, q)
    ensures Shut(Step(i, c), q)
  {
    var p :| p in i.tags && p < q;
    assert p in Step(i, c).tags || (c.Forbid? && c.prefix in Step(i, c).tags && c.prefix < q);
  }

  // ---------------------------------------------------------------- histories

  ghost function After(i: Index, cs: seq<Call>): Index {
    if cs == [] then i else Step(After(i, cs[..|cs| - 1]), cs[|cs| - 1])
  }

  ghost predicate AllAllowed(i: Index, cs: seq<Call>, length: nat) {
    forall n | 0 <= n < |cs| :: Allowed(After(i, cs[..n]), cs[n], length)
  }

  lemma AfterStep(i: Index, cs: seq<Call>, n: nat)
    requires n < |cs|
    ensures After(i, cs[..n + 1]) == Step(After(i, cs[..n]), cs[n])
  {
    assert cs[..n + 1][..n] == cs[..n];
  }

  lemma {:induction false} AllGood(i: Index, cs: seq<Call>, n: nat, length: nat)
    requires Good(i, length) && AllAllowed(i, cs, length) && n <= |cs|
    ensures Good(After(i, cs[..n]), length)
    decreases n
  {
    hide Good, Allowed, Step;
    if n > 0 {
      AllGood(i, cs, n - 1, length);
      AfterStep(i, cs, n - 1);
      StepGood(After(i, cs[..n - 1]), cs[n - 1], length);
    }
  }

  /** Once covered, always covered. */
  lemma {:induction false} ShutForever(i: Index, cs: seq<Call>, m: nat, n: nat, q: Key)
    requires m <= n <= |cs| && Shut(After(i, cs[..m]), q)
    ensures Shut(After(i, cs[..n]), q)
    decreases n - m
  {
    hide Shut, Step;
    if m < n {
      AfterStep(i, cs, m);
      StepShut(After(i, cs[..m]), cs[m], q);
      ShutForever(i, cs, m + 1, n, q);
    }
  }

  /**
    A prefix that was disabled while anything was stored answers "disabled" for every longer key,
    at once and ever after, and none of its extensions is active.
   */
  lemma ForbiddenForever(i: Index, cs: seq<Call>, m: nat, n: nat, q: Key, length: nat)
    requires Good(i, length) && AllAllowed(i, cs, length) && m < n <= |cs|
    requires cs[m].Forbid? && After(i, cs[..m]) != EMPTY && cs[m].prefix < q
    ensures Answer(After(i, cs[..n]), Ask(q)) == Verdict(-1, None)
    ensures q !in After(i, cs[..n]).active
  {
    hide After, Step;
    var was := After(i, cs[..m]);
    AfterStep(i, cs, m);
    assert Shut(Step(was, cs[m]), q) by { ForbidShuts(was, cs[m].prefix, q); }
    ShutForever(i, cs, m + 1, n, q);
    AllGood(i, cs, n, length);
  }

  /** Exactly when a disable is remembered: when anything is stored at all. */
  lemma ForbidShuts(i: Index, p: Key, q: Key)
    requires p < q
    ensures Shut(Step(i, Forbid(p)), q) <==> i != EMPTY
  {
    if Shut(i, p) {
      var t :| t in i.tags && t < p;
      assert t < q;
    } else if i != EMPTY {
      assert p in Step(i, Forbid(p)).tags;
    }
  }

  /** On an empty tree the call reports success and forgets: the prefix stays open. */
  lemma ForbidForgotten(p: Key, q: Key)
    ensures Answer(EMPTY, Forbid(p)) == Verdict(1, None)
    ensures Answer(Step(EMPTY, Forbid(p)), Ask(q)) == Verdict(0, None)
  {
  }

  // ---------------------------------------------------------------- what the calls alone say

  /** The value of the last insert under the key that no later delete or disable undid. */
  ghost function LastPut(cs: seq<Call>, k: Key): Option<Handle> {
    if cs == [] then None
    else
      var before := LastPut(cs[..|cs| - 1], k);
      match cs[|cs| - 1]
      case Put(q, v) => if q == k then Some(v) else before
      case Remove(q) => if q == k then None else before
      case Forbid(p) => if p <= k then None else before
      case Get(_) => before
      case Ask(_) => before
  }

  /** Among the first `n` calls is a disable of a proper prefix that found anything stored. */
  ghost predicate Heeded(cs: seq<Call>, n: nat, q: Key) {
    exists m: nat :: m < n && HeededAt(cs, m, q)
  }

  ghost predicate HeededAt(cs: seq<Call>, m: nat, q: Key) {
    m < |cs| && cs[m].Forbid? && cs[m].prefix < q && After(EMPTY, cs[..m]) != EMPTY
  }

  /** A disable, refused or not, leaves nothing active under its prefix. */
  lemma ForbidAt(i: Index, p: Key, k: Key, length: nat)
    requires Good(i, length)
    ensures At(Step(i, Forbid(p)), k) == if p <= k then None else At(i, k)
  {
    if Shut(i, p) && p <= k {
      var t :| t in i.tags && t < p;
      assert t < k;
    }
  }

  /** What is stored under a key is what was put there last and not undone. */
  lemma {:induction false} StoredIsLastPut(cs: seq<Call>, n: nat, k: Key, length: nat)
    requires AllAllowed(EMPTY, cs, length) && n <= |cs|
    ensures At(After(EMPTY, cs[..n]), k) == LastPut(cs[..n], k)
    decreases n
  {
    hide Good, Shut, Cut, Allowed, AllAllowed, After;
    if n > 0 {
      StoredIsLastPut(cs, n - 1, k, length);
      AfterStep(EMPTY, cs, n - 1);
      EmptyGood(length);
      AllGood(EMPTY, cs, n - 1, length);
      assert cs[..n][..n - 1] == cs[..n - 1];
      if cs[n - 1].Forbid? { ForbidAt(After(EMPTY, cs[..n - 1]), cs[n - 1].prefix, k, length); }
    } else {
      NothingYet(cs);
    }
  }

  lemma EmptyGood(length: nat)
    ensures Good(EMPTY, length)
  {
  }

  lemma NothingYet(cs: seq<Call>)
    ensures After(EMPTY, cs[..0]) == EMPTY && cs[..0] == []
  {
  }

  /** Covered is exactly what some disable covered that found anything stored. */
  lemma {:induction false} ShutIsHeeded(cs: seq<Call>, n: nat, q: Key)
    requires n <= |cs|
    ensures Shut(After(EMPTY, cs[..n]), q) <==> Heeded(cs, n, q)
    decreases n
  {
    hide Shut, Step, After, HeededAt;
    if n > 0 {
      ShutIsHeeded(cs, n - 1, q);
      AfterStep(EMPTY, cs, n - 1);
      ShutStep(After(EMPTY, cs[..n - 1]), cs[n - 1], q);
      var last: nat := n - 1;
      HeededIs(cs, last, q);
      if m: nat :| m < n && HeededAt(cs, m, q) { assert m < last || m == last; }
    } else {
      NothingYet(cs);
      NoneShut(q);
    }
  }

  lemma HeededIs(cs: seq<Call>, m: nat, q: Key)
    requires m < |cs|
    ensures HeededAt(cs, m, q) <==> cs[m].Forbid? && cs[m].prefix < q && After(EMPTY, cs[..m]) != EMPTY
  {
    hide After;
  }

  lemma NoneShut(q: Key)
    ensures !Shut(EMPTY, q)
  {
  }

  lemma ShutStep(i: Index, c: Call, q: Key)
    ensures Shut(Step(i, c), q) <==> Shut(i, q) || (c.Forbid? && c.prefix < q && i != EMPTY)
  {
    if Shut(i, q) { StepShut(i, c, q); }
    if c.Forbid? && c.prefix < q { ForbidShuts(i, c.prefix, q); }
  }

  /**
    The answer to each call in terms of the calls before it: inserts, deletes and searches return what was put
    last and not undone; a lookup says disabled exactly if some heeded disable covers the key.
   */
  lemma AnswerLaw(cs: seq<Call>, n: nat, length: nat)
    requires AllAllowed(EMPTY, cs, length) && n < |cs|
    ensures cs[n].Put? || cs[n].Remove? || cs[n].Get? ==>
              Answer(After(EMPTY, cs[..n]), cs[n]) == Value(LastPut(cs[..n], cs[n].key))
    ensures cs[n].Ask? ==>
              Answer(After(EMPTY, cs[..n]), cs[n]) ==
              if Heeded(cs, n, cs[n].key) then Verdict(-1, None)
              else Verdict(if LastPut(cs[..n], cs[n].key).Some? then 1 else 0, LastPut(cs[..n], cs[n].key))
    ensures cs[n].Forbid? ==>
              Answer(After(EMPTY, cs[..n]), cs[n]) == Verdict(if Heeded(cs, n, cs[n].prefix) then -1 else 1, None)
  {
    hide Shut, After, LastPut, Heeded, AllAllowed;
    if cs[n].Forbid? {
      ShutIsHeeded(cs, n, cs[n].prefix);
    } else {
      ShutIsHeeded(cs, n, cs[n].key);
      StoredIsLastPut(cs, n, cs[n].key, length);
    }
  }

  // ---------------------------------------------------------------- the size

  /** The tags a disable removes: they were never counted in, but are counted out. */
  ghost function Uncounted(i: Index, c: Call): nat {
    if c.Forbid? && !Shut(i, c.prefix) then |set q | q in i.tags && c.prefix <= q| else 0
  }

  ghost function Drift(i: Index, cs: seq<Call>): nat {
    if cs == [] then 0 else Drift(i, cs[..|cs| - 1]) + Uncounted(After(i, cs[..|cs| - 1]), cs[|cs| - 1])
  }

  lemma DriftStep(i: Index, cs: seq<Call>, n: nat)
    requires n < |cs|
    ensures Drift(i, cs[..n + 1]) == Drift(i, cs[..n]) + Uncounted(After(i, cs[..n]), cs[n])
  {
    assert cs[..n + 1][..n] == cs[..n];
  }

  /** A disable that is not refused, with a tag under its prefix. */
  ghost predicate DropsTag(i: Index, c: Call) {
    c.Forbid? && !Shut(i, c.prefix) && exists q :: q in i.tags && c.prefix <= q
  }

  ghost predicate DropsAt(i: Index, cs: seq<Call>, n: nat) {
    n < |cs| && DropsTag(After(i, cs[..n]), cs[n])
  }

  /** Some call of the history drops a tag. */
  ghost predicate SomeDrops(i: Index, cs: seq<Call>) {
    exists n: nat :: DropsAt(i, cs, n)
  }

  lemma UncountedWhen(i: Index, c: Call)
    ensures Uncounted(i, c) > 0 <==> DropsTag(i, c)
  {
    if c.Forbid? {
      var gone := set q | q in i.tags && c.prefix <= q;
      if DropsTag(i, c) {
        var q :| q in i.tags && c.prefix <= q;
        assert q in gone;
      }
      if |gone| > 0 {
        var q :| q in gone;
        assert q in i.tags && c.prefix <= q;
      }
    }
  }

  lemma {:induction false} DriftUpTo(i: Index, cs: seq<Call>, n: nat)
    requires n <= |cs|
    ensures Drift(i, cs[..n]) > 0 <==> exists j: nat :: j < n && DropsAt(i, cs, j)
    decreases n
  {
    hide DropsTag, Uncounted, After;
    if n > 0 {
      DriftUpTo(i, cs, n - 1);
      DriftStep(i, cs, n - 1);
      UncountedWhen(After(i, cs[..n - 1]), cs[n - 1]);
      var last: nat := n - 1;
      assert DropsAt(i, cs, last) <==> Uncounted(After(i, cs[..n - 1]), cs[n - 1]) > 0;
      if j: nat :| j < n && DropsAt(i, cs, j) { assert j < last || j == last; }
    } else {
      assert cs[..0] == [];
    }
  }

  /** The size drifts exactly when a call drops a tag. */
  lemma DriftWhen(i: Index, cs: seq<Call>)
    ensures Drift(i, cs) > 0 <==> SomeDrops(i, cs)
  {
    hide DropsTag, Drift, After;
    DriftUpTo(i, cs, |cs|);
    assert cs[..|cs|] == cs;
  }

  /** Every tag that is ever dropped was set by a call of its own. */
  lemma StepBound(i: Index, c: Call)
    ensures Uncounted(i, c) + |Step(i, c).tags| <= |i.tags| + 1
    ensures |Step(i, c).active| <= |i.active| + 1
  {
    hide Cut, Shut;
    match c {
      case Put(k, v) => PutCount(i.active, k, v);
      case Remove(k) => RemoveCount(i.active, k);
      case Get(_) =>
      case Ask(_) =>
      case Forbid(p) => CutBound(i, p);
    }
  }

  lemma CutBound(i: Index, p: Key)
    ensures |set q | q in i.tags && p <= q| + |Cut(i, p).tags| == |i.tags| + 1
    ensures |Cut(i, p).active| <= |i.active|
    ensures i == EMPTY ==> |set q | q in i.tags && p <= q| == 0
  {
    var gone, stay := set q | q in i.tags && p <= q, set q | q in i.tags && !(p <= q);
    assert i.tags == gone + stay && gone !! stay;
    assert p !in stay && Cut(i, p).tags == stay + {p};
    ActiveCount(i.active, Cut(i, p).active, p);
  }

  lemma {:induction false} HistoryBound(i: Index, cs: seq<Call>)
    ensures Drift(i, cs) + |After(i, cs).tags| <= |i.tags| + |cs|
    ensures |After(i, cs).active| <= |i.active| + |cs|
    decreases |cs|
  {
    hide Step, Uncounted;
    if cs != [] {
      HistoryBound(i, cs[..|cs| - 1]);
      StepBound(After(i, cs[..|cs| - 1]), cs[|cs| - 1]);
    }
  }

  /** Without a disable there are no tags, and nothing drifts. */
  lemma {:induction false} NoDrift(i: Index, cs: seq<Call>)
    requires forall c | c in cs :: !c.Forbid?
    ensures Drift(i, cs) == 0 && After(i, cs).tags == i.tags
    decreases |cs|
  {
    if cs != [] { NoDrift(i, cs[..|cs| - 1]); }
  }

  lemma WrapCount(count: nat, drift: nat)
    requires count < U64 && drift < U64
    ensures Wrap(count - drift) == count <==> drift == 0
  {
    if drift != 0 {
      if drift <= count { DivUnique(count - drift, 0, count - drift); }
      else { DivUnique(count - drift, -1, count - drift + U64); }
    }
  }

  // ---------------------------------------------------------------- the tree refines the index

  ghost function Abs(m: Entries): Index {
    Index(Active(m), Tags(m))
  }

  ghost predicate Represents(m: Entries, i: Index, length: nat) {
    Abs(m) == i && Good(i, length)
  }

  lemma ShutCovered(m: Entries, q: Key)
    ensures Shut(Abs(m), q) <==> Covered(m, q)
  {
  }

  lemma Lengths(m: Entries, i: Index, length: nat)
    requires Represents(m, i, length)
    ensures Within(m, length)
  {
    forall q | q in m ensures |q| <= length {
      assert q in i.active || q in i.tags;
    }
  }

  lemma PutFits(m: Entries, i: Index, k: Key, length: nat)
    requires Represents(m, i, length) && |k| == length && !Shut(i, k)
    ensures MayInsert(m, k)
  {
    forall q | q in m ensures q == k || Diverge(q, k) {
      assert q in i.active || q in i.tags;
    }
  }

  lemma ForbidFits(m: Entries, i: Index, p: Key, length: nat)
    requires Represents(m, i, length) && |p| < length
    ensures TagsOver(m, p)
  {
    forall q | q in m && q < p ensures m[q].None? {
      assert m[q].Some? ==> q in i.active;
    }
  }

  lemma EmptyIndex(m: Entries)
    ensures Abs(m) == EMPTY <==> m == map[]
  {
    if m != map[] {
      var k :| k in m.Keys;
      assert k in Active(m) || k in Tags(m);
    }
  }

  lemma PutParts(m: Entries, k: Key, v: Handle)
    requires k !in Tags(m)
    ensures Active(m[k := Some(v)]) == Active(m)[k := v]
    ensures Tags(m[k := Some(v)]) == Tags(m)
  {
  }

  lemma PutCount(a: map<Key, Handle>, k: Key, v: Handle)
    ensures |a[k := v]| == |a| + (if k in a then 0 else 1)
  {
    assert a[k := v].Keys == a.Keys + {k};
    assert |a| == |a.Keys| && |a[k := v]| == |a[k := v].Keys|;
    if k in a { assert a.Keys + {k} == a.Keys; }
  }

  lemma PutAbs(m: Entries, k: Key, v: Handle)
    requires k !in Tags(m)
    ensures Abs(m[k := Some(v)]) == Step(Abs(m), Put(k, v))
    ensures (if k in m then m[k] else None) == At(Abs(m), k)
    ensures |Step(Abs(m), Put(k, v)).active| == |Abs(m).active| + (if k in m then 0 else 1)
  {
    PutParts(m, k, v);
    PutCount(Active(m), k, v);
  }

  lemma RemoveParts(m: Entries, k: Key)
    ensures Active(m - {k}) == Active(m) - {k}
    ensures Tags(m - {k}) == Tags(m) - {k}
  {
  }

  lemma RemoveAbs(m: Entries, k: Key)
    requires k !in Tags(m)
    ensures Abs(m - {k}) == Step(Abs(m), Remove(k))
    ensures (if k in m then m[k] else None) == At(Abs(m), k)
    ensures |Abs(m).active| == |Step(Abs(m), Remove(k)).active| + (if k in m then 1 else 0)
  {
    RemoveParts(m, k);
    var a, a' := Active(m), Active(m - {k});
    RemoveCount(a, k);
    assert Tags(m) - {k} == Tags(m);
  }

  lemma RemoveCount(a: map<Key, Handle>, k: Key)
    ensures |a| == |a - {k}| + (if k in a then 1 else 0)
  {
    assert (a - {k}).Keys == a.Keys - {k};
    assert |a| == |a.Keys| && |a - {k}| == |(a - {k}).Keys|;
    if k !in a { assert a.Keys - {k} == a.Keys; }
  }

  lemma ForbidAbs(m: Entries, p: Key)
    requires m != map[] && !Covered(m, p)
    ensures Abs(Disabled(m, p)) == Step(Abs(m), Forbid(p))
  {
    DisabledParts(m, p);
    EmptyIndex(m);
    ShutCovered(m, p);
  }

  /** What a disable subtracts from the size, against the active keys it removes. */
  lemma ForbidCount(m: Entries, p: Key)
    ensures |Active(m)| - |Active(Disabled(m, p))|
         == |Extending(m, p)| - |set q | q in Tags(m) && p <= q|
  {
    hide Disabled;
    DisabledParts(m, p);
    ActiveCount(Active(m), Active(Disabled(m, p)), p);
    ExtendingCount(m, p);
  }

  lemma ActiveCount(a: map<Key, Handle>, a': map<Key, Handle>, p: Key)
    requires a' == map q | q in a && !(p <= q) :: a[q]
    ensures |a| - |a'| == |set q | q in a && p <= q|
  {
    var gone := set q | q in a && p <= q;
    assert a.Keys == a'.Keys + gone && a'.Keys !! gone;
    assert |a| == |a.Keys| && |a'| == |a'.Keys|;
  }

  lemma ExtendingCount(m: Entries, p: Key)
    ensures |Extending(m, p)| == |set q | q in Active(m) && p <= q| + |set q | q in Tags(m) && p <= q|
  {
    var e := Extending(m, p);
    var keys, tags := set q | q in Active(m) && p <= q, set q | q in Tags(m) && p <= q;
    assert e.Keys == keys + tags && keys !! tags;
    assert |e| == |e.Keys|;
  }

  // ---------------------------------------------------------------- histories of a tree

  ghost predicate Tracks(t: ArtTree, i: Index, drift: nat, length: nat)
    reads t, Obj(t.root), Foot(t.root)
  {
    && t.Valid() && Represents(t.Content(), i, length)
    && t.size == Wrap(|i.active| - drift)
  }

  lemma NoTag(m: Entries, i: Index, k: Key, length: nat)
    requires Represents(m, i, length) && |k| == length
    ensures k !in Tags(m)
  {
    assert k in Tags(m) ==> k in i.tags;
  }

  method PerformPut(t: ArtTree, k: Key, v: Handle, ghost i: Index, ghost drift: nat, ghost length: nat)
    returns (r: Reply)
    requires Tracks(t, i, drift, length) && Allowed(i, Put(k, v), length)
    modifies t, Foot(t.root)
    ensures Tracks(t, Step(i, Put(k, v)), drift, length)
    ensures fresh(Foot(t.root) - old(Foot(t.root)))
    ensures r == Answer(i, Put(k, v))
  {
    hide ArtTree.Valid, ArtTree.Content, Wrap, MayInsert, Good, Active, Tags, Shut, At, Foot, Step;
    ghost var m := t.Content();
    PutFits(m, i, k, length);
    NoTag(m, i, k, length);
    PutAbs(m, k, v);
    StepGood(i, Put(k, v), length);
    WrapAgain(|i.active| - drift, 1);
    var previous := t.Insert(k, v);
    r := Value(previous);
  }

  method PerformRemove(t: ArtTree, k: Key, ghost i: Index, ghost drift: nat, ghost length: nat) returns (r: Reply)
    requires Tracks(t, i, drift, length) && Allowed(i, Remove(k), length)
    modifies t, Foot(t.root)
    ensures Tracks(t, Step(i, Remove(k)), drift, length)
    ensures fresh(Foot(t.root) - old(Foot(t.root)))
    ensures r == Answer(i, Remove(k))
  {
    hide ArtTree.Valid, ArtTree.Content, Wrap, Within, Good, Active, Tags, Shut, At, Foot, Step;
    ghost var m := t.Content();
    Lengths(m, i, length);
    NoTag(m, i, k, length);
    RemoveAbs(m, k);
    StepGood(i, Remove(k), length);
    WrapAgain(|i.active| - drift, -1);
    var previous := t.Delete(k);
    r := Value(previous);
  }

  method PerformForbid(t: ArtTree, p: Key, ghost i: Index, ghost drift: nat, ghost length: nat) returns (r: Reply)
    requires Tracks(t, i, drift, length) && Allowed(i, Forbid(p), length)
    modifies t, Foot(t.root)
    ensures Tracks(t, Step(i, Forbid(p)), drift + Uncounted(i, Forbid(p)), length)
    ensures fresh(Foot(t.root) - old(Foot(t.root)))
    ensures r == Answer(i, Forbid(p))
  {
    hide ArtTree.Valid, ArtTree.Content, Wrap, TagsOver, Good, Active, Tags, Shut, Covered, Disabled, Extending, Step,
         Foot;
    ghost var m := t.Content();
    ForbidFits(m, i, p, length);
    ShutCovered(m, p);
    EmptyIndex(m);
    StepGood(i, Forbid(p), length);
    ForbidSize(m, i, p, drift);
    var code := t.Disable(p);
    r := Verdict(code, None);
  }

  /** The index and the size after a disable. */
  lemma ForbidSize(m: Entries, i: Index, p: Key, drift: nat)
    requires Abs(m) == i
    ensures Covered(m, p) || m == map[] ==> Step(i, Forbid(p)) == i && Uncounted(i, Forbid(p)) == 0
    ensures m == map[] ==> |Extending(m, p)| == 0 && !Covered(m, p)
    ensures !Covered(m, p) && m != map[] ==> Abs(Disabled(m, p)) == Step(i, Forbid(p))
    ensures !Covered(m, p) && m != map[] ==>
              Wrap(Wrap(|i.active| - drift) - |Extending(m, p)|) ==
              Wrap(|Step(i, Forbid(p)).active| - (drift + Uncounted(i, Forbid(p))))
    ensures m == map[] ==> Wrap(Wrap(|i.active| - drift) - |Extending(m, p)|) == Wrap(|i.active| - drift)
  {
    hide Wrap, Disabled;
    ShutCovered(m, p);
    EmptyIndex(m);
    if m == map[] {
      assert (set q | q in i.tags && p <= q) == {};
      assert Extending(m, p) == map[];
      WrapAgain(|i.active| - drift, 0);
    } else if !Covered(m, p) {
      ForbidAbs(m, p);
      ForbidCount(m, p);
      WrapAgain(|i.active| - drift, -|Extending(m, p)|);
    }
  }

  method PerformGet(t: ArtTree, k: Key, ghost i: Index, ghost drift: nat, ghost length: nat) returns (r: Reply)
    requires Tracks(t, i, drift, length) && Allowed(i, Get(k), length)
    ensures Tracks(t, i, drift, length) && r == Answer(i, Get(k))
  {
    hide Wrap, Within, Good, Shut, ArtNode.Layout, ArtNode.Header, AllKids, WellFormed, EntriesOf;
    Lengths(t.Content(), i, length);
    var found := t.Search(k);
    r := Value(found);
  }

  method PerformAsk(t: ArtTree, k: Key, ghost i: Index, ghost drift: nat, ghost length: nat) returns (r: Reply)
    requires Tracks(t, i, drift, length) && Allowed(i, Ask(k), length)
    ensures Tracks(t, i, drift, length) && r == Answer(i, Ask(k))
  {
    hide Wrap, Within, Good, Shut, ArtNode.Layout, ArtNode.Header, AllKids, WellFormed, EntriesOf, Covered;
    Lengths(t.Content(), i, length);
    ShutCovered(t.Content(), k);
    var code, found := t.Lookup(k);
    r := Verdict(code, found);
  }

  /** One call on a tree answers, and changes what the tree stands for, as the index says. */
  method Perform(t: ArtTree, c: Call, ghost i: Index, ghost drift: nat, ghost length: nat) returns (r: Reply)
    requires Tracks(t, i, drift, length) && Allowed(i, c, length)
    modifies t, Foot(t.root)
    ensures Tracks(t, Step(i, c), drift + Uncounted(i, c), length)
    ensures fresh(Foot(t.root) - old(Foot(t.root)))
    ensures r == Answer(i, c)
  {
    hide Tracks, Shut;
    match c
    case Put(k, v) => r := PerformPut(t, k, v, i, drift, length);
    case Remove(k) => r := PerformRemove(t, k, i, drift, length);
    case Forbid(p) => r := PerformForbid(t, p, i, drift, length);
    case Get(k) => r := PerformGet(t, k, i, drift, length);
    case Ask(k) => r := PerformAsk(t, k, i, drift, length);
  }

  /** After fewer than 2^64 calls the size is the number of active keys exactly if no call has dropped a tag. */
  lemma SizeExactly(t: ArtTree, cs: seq<Call>, length: nat)
    requires Tracks(t, After(EMPTY, cs), Drift(EMPTY, cs), length) && |cs| < U64
    ensures t.size == |After(EMPTY, cs).active| <==> !SomeDrops(EMPTY, cs)
  {
    hide ArtTree.Valid, ArtTree.Content, Represents, After, Drift, SomeDrops, Wrap;
    DriftWhen(EMPTY, cs);
    HistoryBound(EMPTY, cs);
    WrapCount(|After(EMPTY, cs).active|, Drift(EMPTY, cs));
  }

  /** After inserts, deletes and searches the size is the number of keys a traversal yields, which are all active. */
  lemma SizeIsListed(t: ArtTree, cs: seq<Call>, length: nat)
    requires Tracks(t, After(EMPTY, cs), Drift(EMPTY, cs), length) && forall c | c in cs :: !c.Forbid?
    ensures Sorted(t.Listing()) && Lists(t.Listing(), t.Content()) && Tags(t.Content()) == {}
    ensures t.size == Wrap(|t.Listing()|) && (|cs| < U64 ==> t.size == |t.Listing()|)
  {
    hide ArtTree.Valid, ArtTree.Content, ArtTree.Listing, After, Drift, Wrap, Sorted, Lists, Good;
    t.Listed();
    NoDrift(EMPTY, cs);
    HistoryBound(EMPTY, cs);
    AllActive(t.Content());
    WrapCount(if |cs| < U64 then |After(EMPTY, cs).active| else 0, 0);
  }

  lemma AllActive(m: Entries)
    requires Tags(m) == {}
    ensures |Active(m)| == |m|
  {
    forall k | k in m ensures m[k].Some? { assert m[k].None? ==> k in Tags(m); }
    assert Active(m).Keys == m.Keys;
    assert |m| == |m.Keys| && |Active(m)| == |Active(m).Keys|;
  }

  /** The replies to the first calls of a history that began with an empty index. */
  ghost predicate Replied(cs: seq<Call>, rs: seq<Reply>) {
    |rs| <= |cs| && forall n | 0 <= n < |rs| :: rs[n] == Answer(After(EMPTY, cs[..n]), cs[n])
  }

  lemma RepliedStep(cs: seq<Call>, rs: seq<Reply>, r: Reply)
    requires Replied(cs, rs) && |rs| < |cs| && r == Answer(After(EMPTY, cs[..|rs|]), cs[|rs|])
    ensures Replied(cs, rs + [r])
  {
    hide Answer, After;
  }

  /** Every history of calls on a new tree agrees with the index, answer by answer; so does the size. */
  method Replay(cs: seq<Call>, ghost length: nat) returns (t: ArtTree, rs: seq<Reply>)
    requires AllAllowed(EMPTY, cs, length)
    ensures Tracks(t, After(EMPTY, cs), Drift(EMPTY, cs), length)
    ensures |rs| == |cs| && Replied(cs, rs)
    ensures forall n | 0 <= n < |cs| && (cs[n].Put? || cs[n].Remove? || cs[n].Get?) ::
              rs[n] == Value(LastPut(cs[..n], cs[n].key))
    ensures forall n | 0 <= n < |cs| && cs[n].Ask? ::
              rs[n] == if Heeded(cs, n, cs[n].key) then Verdict(-1, None)
                       else Verdict(if LastPut(cs[..n], cs[n].key).Some? then 1 else 0, LastPut(cs[..n], cs[n].key))
    ensures forall n | 0 <= n < |cs| && cs[n].Forbid? ::
              rs[n] == Verdict(if Heeded(cs, n, cs[n].prefix) then -1 else 1, None)
    ensures |cs| < U64 ==> (t.size == |After(EMPTY, cs).active| <==> !SomeDrops(EMPTY, cs))
    ensures fresh(t) && fresh(Foot(t.root))
  {
    hide Tracks, Step, Answer, Uncounted, Allowed, After, Drift, Replied, SomeDrops, ArtTree.Valid, ArtTree.Content,
         LastPut, Heeded;
    t := new ArtTree();
    StartTracks(t, length);
    Start(cs);
    rs := [];
    var n := 0;
    while n < |cs|
      invariant 0 <= n <= |cs| && |rs| == n
      invariant fresh(t) && fresh(Foot(t.root))
      invariant Tracks(t, After(EMPTY, cs[..n]), Drift(EMPTY, cs[..n]), length)
      invariant Replied(cs, rs)
    {
      AfterStep(EMPTY, cs, n);
      DriftStep(EMPTY, cs, n);
      var r := Perform(t, cs[n], After(EMPTY, cs[..n]), Drift(EMPTY, cs[..n]), length);
      RepliedStep(cs, rs, r);
      rs := rs + [r];
      n := n + 1;
    }
    assert cs[..|cs|] == cs;
    RepliesLawful(cs, rs, length);
    if |cs| < U64 { SizeExactly(t, cs, length); }
  }

  lemma RepliesLawful(cs: seq<Call>, rs: seq<Reply>, length: nat)
    requires AllAllowed(EMPTY, cs, length) && |rs| == |cs| && Replied(cs, rs)
    ensures forall n | 0 <= n < |cs| && (cs[n].Put? || cs[n].Remove? || cs[n].Get?) ::
              rs[n] == Value(LastPut(cs[..n], cs[n].key))
    ensures forall n | 0 <= n < |cs| && cs[n].Ask? ::
              rs[n] == if Heeded(cs, n, cs[n].key) then Verdict(-1, None)
                       else Verdict(if LastPut(cs[..n], cs[n].key).Some? then 1 else 0, LastPut(cs[..n], cs[n].key))
    ensures forall n | 0 <= n < |cs| && cs[n].Forbid? ::
              rs[n] == Verdict(if Heeded(cs, n, cs[n].prefix) then -1 else 1, None)
  {
    hide Answer, After, LastPut, Heeded, AllAllowed;
    forall n | 0 <= n < |cs|
      ensures cs[n].Put? || cs[n].Remove? || cs[n].Get? ==> rs[n] == Value(LastPut(cs[..n], cs[n].key))
      ensures cs[n].Ask? ==>
                rs[n] == if Heeded(cs, n, cs[n].key) then Verdict(-1, None)
                         else Verdict(if LastPut(cs[..n], cs[n].key).Some? then 1 else 0, LastPut(cs[..n], cs[n].key))
      ensures cs[n].Forbid? ==> rs[n] == Verdict(if Heeded(cs, n, cs[n].prefix) then -1 else 1, None)
    {
      AnswerLaw(cs, n, length);
    }
  }

  lemma Start(cs: seq<Call>)
    ensures After(EMPTY, cs[..0]) == EMPTY && Drift(EMPTY, cs[..0]) == 0 && Replied(cs, [])
  {
  }

  lemma StartTracks(t: ArtTree, length: nat)
    requires t.Valid() && t.Content() == map[] && t.size == 0 && t.root == Null
    ensures Tracks(t, EMPTY, 0, length)
    ensures Foot(t.root) == {}
  {
    EmptyIndex(t.Content());
  }
}

/** The order in which the tree is traversed, and what it says about size, ends and prefixes. */
module TrieOrder {
  import opened Bytes
  import opened Tries

  datatype Pair = Pair(key: Key, value: Option<Handle>)

  /** Lexicographic order on unsigned bytes. */
  predicate Less(a: Key, b: Key) {
    var m := Lcp(a, b);
    m < |b| && (m == |a| || a[m] < b[m])
  }

  /** At `m` the keys part, and the first has the smaller byte there. */
  ghost predicate PartsAt(a: Key, b: Key, m: nat) {
    m < |a| && m < |b| && a[..m] == b[..m] && a[m] < b[m]
  }

  /** A proper prefix comes first; otherwise the first byte that differs decides. */
  lemma LessMeans(a: Key, b: Key)
    ensures Less(a, b) <==> a < b || exists m: nat :: PartsAt(a, b, m)
  {
    if m: nat :| PartsAt(a, b, m) {
      TakeAgrees(a, b, m);
      LcpUnique(a, b, m);
    } else {
      var n := Lcp(a, b);
      TakeAgrees(a, b, n);
      LcpWhole(a, b);
      if n < |a| && n < |b| { assert !PartsAt(a, b, n); }
    }
  }

  /** What a traversal visits: children by ascending edge byte. */
  function InOrder(t: Trie): seq<Pair>
    decreases t, 257
  {
    match t
    case Leaf(key, value) => [Pair(key, value)]
    case Inner(_, _) => Span(t, 0)
  }

  /** The part of the traversal below the edge bytes from `lo` on. */
  function Span(t: Trie, lo: nat): seq<Pair>
    requires t.Inner? && lo <= 256
    decreases t, 256 - lo
  {
    if lo == 256 then [] else (if lo in t.kids then InOrder(t.kids[lo]) else []) + Span(t, lo + 1)
  }

  lemma {:induction false} SpanSkip(t: Trie, lo: nat, hi: nat)
    requires t.Inner? && lo <= hi <= 256
    requires forall b :: b in t.kids ==> b < lo || hi <= b
    ensures Span(t, lo) == Span(t, hi)
    decreases hi - lo
  {
    if lo < hi { SpanSkip(t, lo + 1, hi); }
  }

  /** A traversal lists exactly the stored entries. */
  lemma {:induction false} InOrderEntry(t: Trie, k: Key, v: Option<Handle>)
    requires WellFormed(t)
    ensures Pair(k, v) in InOrder(t) <==> Entry(t, k) == Some(v)
    decreases t, 257
  {
    if t.Inner? {
      SpanEntry(t, 0, k, v);
      if Entry(t, k).Some? { EntryExtends(t, k); }
    }
  }

  lemma SpanStep(t: Trie, lo: nat)
    requires t.Inner? && lo < 256
    ensures Span(t, lo) == (if lo in t.kids then InOrder(t.kids[lo]) else []) + Span(t, lo + 1)
  {
    hide InOrder;
  }

  lemma SpanOver(t: Trie)
    requires t.Inner?
    ensures Span(t, 256) == []
  {
  }

  lemma {:induction false} SpanEntry(t: Trie, lo: nat, k: Key, v: Option<Handle>)
    requires WellFormed(t) && t.Inner? && lo <= 256
    ensures Pair(k, v) in Span(t, lo) <==> |t.pre| < |k| && k[|t.pre|] >= lo && Entry(t, k) == Some(v)
    decreases t, 256 - lo
  {
    hide InOrder, Span;
    if lo == 256 {
      SpanOver(t);
    } else {
      SpanStep(t, lo);
      SpanEntry(t, lo + 1, k, v);
      if lo in t.kids {
        InOrderEntry(t.kids[lo], k, v);
        if Entry(t.kids[lo], k).Some? { EntryExtends(t.kids[lo], k); }
      }
    }
  }

  ghost predicate Sorted(s: seq<Pair>) {
    forall i, j :: 0 <= i < j < |s| ==> Less(s[i].key, s[j].key)
  }

  lemma SpanBytes(t: Trie, lo: nat)
    requires WellFormed(t) && t.Inner? && lo <= 256
    ensures forall x :: x in Span(t, lo) ==> |t.pre| < |x.key| && t.pre <= x.key && x.key[|t.pre|] >= lo
  {
    forall x | x in Span(t, lo)
      ensures |t.pre| < |x.key| && t.pre <= x.key && x.key[|t.pre|] >= lo
    {
      SpanEntry(t, lo, x.key, x.value);
      EntryExtends(t, x.key);
    }
  }

  lemma LessAcross(pre: Key, a: Key, b: Key)
    requires |pre| < |a| && |pre| < |b| && pre <= a && pre <= b && a[|pre|] < b[|pre|]
    ensures Less(a, b)
  {
    LcpUnique(a, b, |pre|);
  }

  /** Keys come in strictly increasing order. */
  lemma {:induction false} InOrderSorted(t: Trie)
    requires WellFormed(t)
    ensures Sorted(InOrder(t))
    decreases t, 257
  {
    if t.Inner? { SpanSorted(t, 0); }
  }

  lemma {:induction false} SpanSorted(t: Trie, lo: nat)
    requires WellFormed(t) && t.Inner? && lo <= 256
    ensures Sorted(Span(t, lo))
    decreases t, 256 - lo
  {
    if lo < 256 {
      SpanSorted(t, lo + 1);
      if lo in t.kids {
        InOrderSorted(t.kids[lo]);
        var a, b := InOrder(t.kids[lo]), Span(t, lo + 1);
        SpanBytes(t, lo + 1);
        forall i, j | 0 <= i < |a| && 0 <= j < |b| ensures Less(a[i].key, b[j].key) {
          InOrderEntry(t.kids[lo], a[i].key, a[i].value);
          EntryExtends(t.kids[lo], a[i].key);
          assert b[j] in b;
          LessAcross(t.pre, a[i].key, b[j].key);
        }
        SortedConcat(a, b);
      }
    }
  }

  lemma SortedConcat(a: seq<Pair>, b: seq<Pair>)
    requires Sorted(a) && Sorted(b)
    requires forall i, j :: 0 <= i < |a| && 0 <= j < |b| ==> Less(a[i].key, b[j].key)
    ensures Sorted(a + b)
  {
    var s := a + b;
    forall i, j | 0 <= i < j < |s| ensures Less(s[i].key, s[j].key) {
      if i < |a| && |a| <= j { assert s[i] == a[i] && s[j] == b[j - |a|]; }
    }
  }

  lemma LessIrreflexive(a: Key)
    ensures !Less(a, a)
  {
    LcpUnique(a, a, |a|);
  }

  function NextByte(bs: seq<byte>, i: nat): (lo: nat)
    requires i <= |bs|
    ensures lo <= 256
  {
    if i == 0 then 0 else bs[i - 1] as int + 1
  }

  /** Where the traversal of `t` stands before its `i`-th child, given the edge bytes in order. */
  ghost function From(t: Trie, bs: seq<byte>, i: nat): seq<Pair>
    requires t.Inner? && i <= |bs|
  {
    Span(t, NextByte(bs, i))
  }

  ghost predicate EdgesInOrder(t: Trie, bs: seq<byte>) {
    && t.Inner?
    && (forall i, j :: 0 <= i < j < |bs| ==> bs[i] < bs[j])
    && (forall i :: 0 <= i < |bs| ==> bs[i] in t.kids)
    && (forall b :: b in t.kids ==> b in bs)
  }

  lemma FromStep(t: Trie, bs: seq<byte>, i: nat)
    requires EdgesInOrder(t, bs) && i < |bs|
    ensures From(t, bs, i) == InOrder(t.kids[bs[i]]) + From(t, bs, i + 1)
  {
    var lo := NextByte(bs, i);
    forall b | b in t.kids ensures b < lo || bs[i] <= b {
      var j :| 0 <= j < |bs| && bs[j] == b;
    }
    SpanSkip(t, lo, bs[i]);
  }

  lemma FromEnds(t: Trie, bs: seq<byte>)
    requires EdgesInOrder(t, bs)
    ensures From(t, bs, 0) == InOrder(t) && From(t, bs, |bs|) == []
  {
    var lo := NextByte(bs, |bs|);
    forall b | b in t.kids ensures b < lo {
      var j :| 0 <= j < |bs| && bs[j] == b;
    }
    SpanSkip(t, lo, 256);
  }

  lemma {:induction false} InOrderSome(t: Trie)
    requires WellFormed(t)
    ensures |InOrder(t)| > 0
  {
    if t.Inner? {
      var k := SomeKey(t);
      EntryIffKey(t, k);
      InOrderEntry(t, k, Entry(t, k).value);
    }
  }

  /** The least child holds the first entry. */
  lemma FirstBelow(t: Trie, b: byte)
    requires WellFormed(t) && t.Inner? && b in t.kids
    requires forall c :: c in t.kids ==> b <= c
    ensures |InOrder(t)| > 0 && |InOrder(t.kids[b])| > 0
    ensures InOrder(t)[0] == InOrder(t.kids[b])[0]
  {
    SpanSkip(t, 0, b);
    InOrderSome(t.kids[b]);
  }

  /** The greatest child holds the last. */
  lemma LastBelow(t: Trie, b: byte)
    requires WellFormed(t) && t.Inner? && b in t.kids
    requires forall c :: c in t.kids ==> c <= b
    ensures |InOrder(t)| > 0 && |InOrder(t.kids[b])| > 0
    ensures InOrder(t)[|InOrder(t)| - 1] == InOrder(t.kids[b])[|InOrder(t.kids[b])| - 1]
  {
    InOrderSome(t);
    InOrderSome(t.kids[b]);
    SpanSkip(t, b + 1, 256);
    SpanEnd(t, 0, b);
  }

  lemma {:induction false} SpanEnd(t: Trie, lo: nat, b: byte)
    requires t.Inner? && lo <= b && b in t.kids
    requires Span(t, b + 1) == [] && |InOrder(t.kids[b])| > 0
    ensures |Span(t, lo)| > 0
    ensures Span(t, lo)[|Span(t, lo)| - 1] == InOrder(t.kids[b])[|InOrder(t.kids[b])| - 1]
    decreases b - lo
  {
    hide InOrder, Span;
    SpanStep(t, lo);
    if lo < b {
      SpanEnd(t, lo + 1, b);
      LastOf(if lo in t.kids then InOrder(t.kids[lo]) else [], Span(t, lo + 1));
    } else {
      assert InOrder(t.kids[b]) + [] == InOrder(t.kids[b]);
    }
  }

  lemma LastOf<T>(a: seq<T>, b: seq<T>)
    requires b != []
    ensures (a + b)[|a + b| - 1] == b[|b| - 1]
  {
  }

  // ---------------------------------------------------------------- callbacks

  /** The calls a traversal of `s` makes: up to and including the first that returns non-zero. */
  function Calls(s: seq<Pair>, callback: Pair -> int): seq<Pair> {
    if s == [] then []
    else if callback(s[0]) != 0 then [s[0]]
    else [s[0]] + Calls(s[1..], callback)
  }

  function Outcome(s: seq<Pair>, callback: Pair -> int): int {
    if s == [] then 0
    else if callback(s[0]) != 0 then callback(s[0])
    else Outcome(s[1..], callback)
  }

  /** The calls are a first part of the traversal; all but the last return 0, and only the last of all may too. */
  lemma {:induction false} CallsUntil(s: seq<Pair>, callback: Pair -> int)
    ensures Calls(s, callback) <= s
    ensures forall i :: 0 <= i < |Calls(s, callback)| - 1 ==> callback(s[i]) == 0
    ensures Outcome(s, callback) == 0 ==> Calls(s, callback) == s && forall x | x in s :: callback(x) == 0
    ensures Outcome(s, callback) != 0 ==>
              Calls(s, callback) != [] && Outcome(s, callback) == callback(s[|Calls(s, callback)| - 1])
    decreases |s|
  {
    if s != [] {
      var rest := s[1..];
      assert s == [s[0]] + rest;
      CallsUntil(rest, callback);
      if callback(s[0]) == 0 {
        assert Calls(s, callback) == [s[0]] + Calls(rest, callback);
        forall i | 0 <= i < |Calls(s, callback)| - 1 ensures callback(s[i]) == 0 {
          if i > 0 { assert s[i] == rest[i - 1]; }
        }
      }
    }
  }

  lemma {:induction false} CallsConcat(a: seq<Pair>, b: seq<Pair>, callback: Pair -> int)
    ensures Outcome(a, callback) != 0 ==>
              Calls(a + b, callback) == Calls(a, callback) && Outcome(a + b, callback) == Outcome(a, callback)
    ensures Outcome(a, callback) == 0 ==>
              Calls(a + b, callback) == a + Calls(b, callback) && Outcome(a + b, callback) == Outcome(b, callback)
              && Calls(a, callback) == a
    decreases |a|
  {
    if a == [] {
      assert a + b == b;
    } else {
      hide Calls, Outcome;
      CallsConcat(a[1..], b, callback);
      assert (a + b)[0] == a[0] && (a + b)[1..] == a[1..] + b;
      CallsStep(a, callback);
      CallsStep(a + b, callback);
      assert a == [a[0]] + a[1..];
      Associative([a[0]], a[1..], Calls(b, callback));
    }
  }

  lemma CallsStep(s: seq<Pair>, callback: Pair -> int)
    requires s != []
    ensures Calls(s, callback) == [s[0]] + if callback(s[0]) != 0 then [] else Calls(s[1..], callback)
    ensures Outcome(s, callback) == if callback(s[0]) != 0 then callback(s[0]) else Outcome(s[1..], callback)
  {
    assert [s[0]] + [] == [s[0]];
  }

  /** `calls` have been made, none asked to stop, and `rest` of the traversal `whole` remains. */
  ghost predicate Under(calls: seq<Pair>, rest: seq<Pair>, whole: seq<Pair>, callback: Pair -> int) {
    && calls + Calls(rest, callback) == Calls(whole, callback)
    && Outcome(rest, callback) == Outcome(whole, callback)
  }

  lemma UnderStep(calls: seq<Pair>, below: seq<Pair>, rest: seq<Pair>, whole: seq<Pair>, callback: Pair -> int)
    requires Under(calls, below + rest, whole, callback)
    ensures Outcome(below, callback) == 0 ==> Under(calls + Calls(below, callback), rest, whole, callback)
    ensures Outcome(below, callback) != 0 ==>
              && calls + Calls(below, callback) == Calls(whole, callback)
              && Outcome(below, callback) == Outcome(whole, callback)
  {
    hide Calls, Outcome;
    CallsConcat(below, rest, callback);
    Associative(calls, below, Calls(rest, callback));
  }

  lemma UnderEnds(calls: seq<Pair>, whole: seq<Pair>, callback: Pair -> int)
    ensures Under([], whole, whole, callback)
    ensures Under(calls, [], whole, callback) ==> calls == Calls(whole, callback) && Outcome(whole, callback) == 0
  {
    assert calls + [] == calls;
    assert [] + Calls(whole, callback) == Calls(whole, callback);
  }

  /** The value of an active leaf, none for a tag. */
  function ActiveValue(x: Pair): seq<Handle> {
    if x.value.Some? then [x.value.value] else []
  }

  /** The values of the active leaves of a traversal. */
  function ActiveValues(s: seq<Pair>): seq<Handle> {
    if s == [] then [] else ActiveValue(s[0]) + ActiveValues(s[1..])
  }

  /** For one leaf; `ActiveConcat` extends this to every traversal. */
  lemma ActiveOne(x: Pair)
    ensures ActiveValues([]) == [] && ActiveValues([x]) == if x.value.Some? then [x.value.value] else []
  {
    assert [x][1..] == [];
    assert ActiveValue(x) + [] == ActiveValue(x);
  }

  lemma {:induction false} ActiveConcat(a: seq<Pair>, b: seq<Pair>)
    ensures ActiveValues(a + b) == ActiveValues(a) + ActiveValues(b)
    decreases |a|
  {
    hide ActiveValue;
    if a == [] {
      assert a + b == b;
    } else {
      ActiveConcat(a[1..], b);
      assert (a + b)[0] == a[0] && (a + b)[1..] == a[1..] + b;
      Associative(ActiveValue(a[0]), ActiveValues(a[1..]), ActiveValues(b));
    }
  }

  /** `values` have been handed out, and `rest` of the traversal `whole` remains. */
  ghost predicate Handed(values: seq<Handle>, rest: seq<Pair>, whole: seq<Pair>) {
    values + ActiveValues(rest) == ActiveValues(whole)
  }

  lemma HandedStep(values: seq<Handle>, below: seq<Pair>, rest: seq<Pair>, whole: seq<Pair>)
    requires Handed(values, below + rest, whole)
    ensures Handed(values + ActiveValues(below), rest, whole)
  {
    hide ActiveValues;
    ActiveConcat(below, rest);
    Associative(values, ActiveValues(below), ActiveValues(rest));
  }

  lemma HandedEnds(values: seq<Handle>, whole: seq<Pair>)
    ensures Handed([], whole, whole)
    ensures Handed(values, [], whole) ==> values == ActiveValues(whole)
  {
    assert values + [] == values;
    assert [] + ActiveValues(whole) == ActiveValues(whole);
  }
}

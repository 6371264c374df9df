/** Scopes of addresses: what a disabled prefix covers, and what lies outside it. */
module Scopes {
  import opened Bytes

  /** Some disabled prefix covers the address; the address itself counts. */
  ghost predicate Cancelled(tags: set<Key>, a: Key) {
    exists p :: p in tags && p <= a
  }

  ghost function Outside(bound: map<Key, Handle>, p: Key): map<Key, Handle> {
    map a | a in bound && !(p <= a) :: bound[a]
  }

  /** The tags once `p` is disabled. */
  ghost function Tagged(tags: set<Key>, p: Key): set<Key> {
    (set t | t in tags && !(p <= t)) + {p}
  }

  /** A tag strictly above `p`: disabling `p` is refused. */
  ghost predicate Above(tags: set<Key>, p: Key) {
    exists t :: t in tags && t < p
  }

  /** Something is stored under `p`. */
  ghost predicate Stored(bound: map<Key, Handle>, tags: set<Key>, p: Key) {
    (exists a :: a in bound && p <= a) || (exists t :: t in tags && p <= t)
  }

  lemma TaggedCovers(tags: set<Key>, p: Key, a: Key)
    ensures Cancelled(Tagged(tags, p), a) <==> Cancelled(tags, a) || p <= a
  {
    if Cancelled(tags, a) {
      var t :| t in tags && t <= a;
      if p <= t { assert p in Tagged(tags, p); } else { assert t in Tagged(tags, p); }
    }
    if p <= a { assert p in Tagged(tags, p); }
  }

  lemma CancelledBelow(tags: set<Key>, p: Key, a: Key)
    requires Cancelled(tags, p) && p <= a
    ensures Cancelled(tags, a)
  {
    var t :| t in tags && t <= p;
  }
}

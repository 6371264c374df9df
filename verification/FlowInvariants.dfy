/** What holds of a dataflow in every reachable state, and why each operation keeps it. */
module FlowInvariants {
  import opened Bytes
  import opened Operators
  import opened Pipelines
  import opened Scopes
  import opened Flows

  ghost function Members(ids: seq<nat>): set<nat> {
    set id | id in ids
  }

  ghost predicate OpOf(plan: Plan, a: Actor) {
    && IsStage(plan, a.address) && OpFits(a.op, StageOf(a.address) == plan.hops)
    && (a.op.Limit? ==> a.op.limit == plan.limit)
  }

  /**
    An actor is active exactly when it is queued or running; it is active when it has mail; a
    terminating one has none, is on its way out, and its address is disabled; any other is the one
    the tree knows under its address.
   */
  ghost predicate ActorFits(plan: Plan, s: Flow, running: set<nat>, id: nat)
    requires id in s.actors
  {
    var a := s.actors[id];
    && id < s.next && IsStage(plan, a.address)
    && (a.active <==> id in s.tasks || id in running)
    && (a.terminating ==> a.mailbox == [] && a.active && Cancelled(s.tags, a.address))
    && (!a.terminating ==> a.address in s.bound && s.bound[a.address] == id)
    && (!a.terminating && id !in running ==> OpOf(plan, a) && (a.active <==> a.mailbox != []))
  }

  /** What the tree knows is live, not terminating, and not covered by a disabled prefix. */
  ghost predicate BoundFits(plan: Plan, s: Flow, a: Key)
    requires a in s.bound
  {
    && s.bound[a] in s.actors && s.actors[s.bound[a]].address == a && !s.actors[s.bound[a]].terminating
    && !Cancelled(s.tags, a) && IsStage(plan, a)
  }

  /** Nothing is queued twice, nothing queued has been deleted. */
  ghost predicate TasksFit(tasks: seq<nat>, actors: map<nat, Actor>, running: set<nat>) {
    && Distinct(tasks) && running <= actors.Keys
    && forall id :: id in tasks ==> id in actors && id !in running
  }

  ghost function Leaving(actors: map<nat, Actor>): set<nat> {
    set id | id in actors && actors[id].terminating
  }

  ghost predicate MessageFits(plan: Plan, m: Message) {
    && (m.User? ==> IsStage(plan, m.address))
    && (m.CancelScope? ==> |m.prefix| <= ADDRESS_LENGTH)
  }

  ghost predicate MailFits(plan: Plan, mailbox: seq<Message>) {
    forall m :: m in mailbox ==> MessageFits(plan, m)
  }

  /** The counter is the number of terminating actors; whoever was stopped is one, or was deleted once. */
  ghost predicate PastFits(s: Flow) {
    && s.terminating == |Leaving(s.actors)|
    && Distinct(s.deleted) && (forall id :: id in s.deleted ==> id !in s.actors && id < s.next)
    && s.stopped == Leaving(s.actors) + Members(s.deleted)
  }

  /** No actor under a cancelled scope is created, or does work, after the cancellation. */
  ghost predicate Safe(trace: seq<Event>) {
    forall j, k :: 0 <= j < k < |trace| && trace[j].Cut? && !trace[k].Cut? ==> !(trace[j].prefix <= trace[k].address)
  }

  ghost predicate TraceFits(trace: seq<Event>, tags: set<Key>) {
    && Safe(trace)
    && forall e :: e in trace && e.Cut? ==> Cancelled(tags, e.prefix)
  }

  ghost predicate ActorsFit(plan: Plan, s: Flow, running: set<nat>) {
    forall id :: id in s.actors ==> ActorFits(plan, s, running, id)
  }

  ghost predicate TreeFits(plan: Plan, s: Flow) {
    forall a :: a in s.bound ==> BoundFits(plan, s, a)
  }

  ghost predicate Inv(plan: Plan, s: Flow, running: set<nat>) {
    && PlanFits(plan) && ActorsFit(plan, s, running) && TreeFits(plan, s)
    && TasksFit(s.tasks, s.actors, running) && MailFits(plan, s.mailbox) && PastFits(s) && TraceFits(s.trace, s.tags)
  }

  /** Only the mail changes. */
  lemma MailInv(plan: Plan, s: Flow, running: set<nat>, mailbox: seq<Message>)
    requires Inv(plan, s, running) && MailFits(plan, mailbox)
    ensures Inv(plan, s.(mailbox := mailbox), running)
  {
    hide IsStage, OpOf, Cancelled, TraceFits, MailFits, PlanFits, TasksFit;
    var s' := s.(mailbox := mailbox);
    forall id | id in s'.actors ensures ActorFits(plan, s', running, id) { assert ActorFits(plan, s, running, id); }
    forall a | a in s'.bound ensures BoundFits(plan, s', a) { assert BoundFits(plan, s, a); }
  }

  // ---------------------------------------------------------------- mail for a child

  lemma EnqueueInv(plan: Plan, s: Flow, id: nat, p: Payload)
    requires Inv(plan, s, {}) && id in s.actors && !s.actors[id].terminating
    ensures Inv(plan, Enqueue(s, id, p), {})
  {
    hide ActorFits, BoundFits, TraceFits, MailFits, PlanFits, Distinct;
    var s' := Enqueue(s, id, p);
    forall j | j in s'.actors ensures ActorFits(plan, s', {}, j) { EnqueueActor(plan, s, id, p, j); }
    forall a | a in s'.bound ensures BoundFits(plan, s', a) { EnqueueBound(plan, s, id, p, a); }
    QueueOnce(s.tasks, id);
    assert ActorFits(plan, s, {}, id);
    ActiveQueued(plan, s, {}, id);
    assert Leaving(s'.actors) == Leaving(s.actors);
  }

  lemma ActiveQueued(plan: Plan, s: Flow, running: set<nat>, id: nat)
    requires id in s.actors && ActorFits(plan, s, running, id)
    ensures s.actors[id].active <==> id in s.tasks || id in running
  {
  }

  lemma EnqueueActor(plan: Plan, s: Flow, id: nat, p: Payload, j: nat)
    requires id in s.actors && !s.actors[id].terminating && j in s.actors
    requires ActorFits(plan, s, {}, j)
    ensures ActorFits(plan, Enqueue(s, id, p), {}, j)
  {
    hide IsStage, OpFits, Cancelled;
  }

  lemma EnqueueBound(plan: Plan, s: Flow, id: nat, p: Payload, a: Key)
    requires id in s.actors && a in s.bound && BoundFits(plan, s, a)
    ensures BoundFits(plan, Enqueue(s, id, p), a)
  {
    hide IsStage, Cancelled;
  }

  lemma QueueOnce(tasks: seq<nat>, id: nat)
    requires Distinct(tasks)
    ensures id !in tasks ==> Distinct(tasks + [id])
    ensures forall j :: j in tasks + [id] <==> j in tasks || j == id
  {
  }

  lemma CreateInv(plan: Plan, s: Flow, a: Key)
    requires Inv(plan, s, {}) && IsStage(plan, a) && !Cancelled(s.tags, a) && a !in s.bound
    ensures Inv(plan, Create(plan, s, a), {})
    ensures a in Create(plan, s, a).bound
  {
    hide ActorFits, BoundFits, TraceFits, MailFits, PlanFits, Distinct, Cancelled, NewOp;
    var s' := Create(plan, s, a);
    assert s.next !in s.actors by {
      if s.next in s.actors { KnownBefore(plan, s, {}, s.next); }
    }
    forall j | j in s'.actors ensures ActorFits(plan, s', {}, j) { CreateActor(plan, s, a, j); }
    forall b | b in s'.bound ensures BoundFits(plan, s', b) { CreateBound(plan, s, a, b); }
    assert Leaving(s'.actors) == Leaving(s.actors);
    TraceMore(s.trace, s.tags, Born(a));
  }

  lemma KnownBefore(plan: Plan, s: Flow, running: set<nat>, id: nat)
    requires id in s.actors && ActorFits(plan, s, running, id)
    ensures id < s.next
  {
  }

  lemma CreateActor(plan: Plan, s: Flow, a: Key, j: nat)
    requires Inv(plan, s, {}) && IsStage(plan, a) && a !in s.bound && s.next !in s.actors
    requires j in s.actors || j == s.next
    ensures ActorFits(plan, Create(plan, s, a), {}, j)
  {
    hide Cancelled, TreeFits, MailFits, TraceFits, PastFits;
    if j in s.actors { assert ActorFits(plan, s, {}, j); }
    assert s.next !in s.tasks;
  }

  lemma CreateBound(plan: Plan, s: Flow, a: Key, b: Key)
    requires TreeFits(plan, s) && IsStage(plan, a) && !Cancelled(s.tags, a) && s.next !in s.actors
    requires b in s.bound || b == a
    ensures BoundFits(plan, Create(plan, s, a), b)
  {
    hide Cancelled, IsStage;
    if b in s.bound && b != a { assert BoundFits(plan, s, b); }
  }

  /** An uncovered actor may be created, and may work. */
  lemma TraceMore(trace: seq<Event>, tags: set<Key>, e: Event)
    requires TraceFits(trace, tags) && !e.Cut? && !Cancelled(tags, e.address)
    ensures TraceFits(trace + [e], tags)
  {
    hide Cancelled;
    var t := trace + [e];
    forall j, k | 0 <= j < k < |t| && t[j].Cut? && !t[k].Cut? ensures !(t[j].prefix <= t[k].address) {
      if k == |trace| {
        assert t[j] in trace;
        if t[j].prefix <= e.address { CancelledBelow(tags, t[j].prefix, e.address); }
      }
    }
    forall f | f in t && f.Cut? ensures Cancelled(tags, f.prefix) { assert f in trace; }
  }

  // ---------------------------------------------------------------- stopping children

  /** What a sequence of stops leaves of one actor. */
  function Halted(a: Actor): Actor {
    a.(terminating := true, mailbox := [], active := true)
  }

  ghost predicate AllLive(s: Flow, ids: seq<nat>) {
    Distinct(ids) && forall id :: id in ids ==> id in s.actors && !s.actors[id].terminating
  }

  ghost predicate Halts(s: Flow, ids: seq<nat>, s': Flow) {
    && s' == s.(actors := s'.actors, tasks := s'.tasks, terminating := s.terminating + |ids|,
                stopped := s.stopped + Members(ids))
    && s'.actors.Keys == s.actors.Keys
    && (forall id :: id in s.actors ==> s'.actors[id] == if id in ids then Halted(s.actors[id]) else s.actors[id])
    && (forall id :: id in s'.tasks <==> id in s.tasks || (id in ids && id in s.actors && !s.actors[id].active))
  }

  lemma {:induction false} StopAllHalts(s: Flow, ids: seq<nat>)
    requires AllLive(s, ids)
    requires Distinct(s.tasks) && forall id :: id in s.actors && id in s.tasks ==> s.actors[id].active
    ensures Halts(s, ids, StopAll(s, ids)) && Distinct(StopAll(s, ids).tasks)
    decreases |ids|
  {
    if ids == [] {
      assert s.stopped + Members(ids) == s.stopped;
    } else {
      var rest, id := ids[..|ids| - 1], ids[|ids| - 1];
      assert ids == rest + [id];
      forall i, j | 0 <= i < j < |rest| ensures rest[i] != rest[j] { assert ids[i] != ids[j]; }
      StopAllHalts(s, rest);
      StopOne(s, rest, id, StopAll(s, rest));
    }
  }

  /** The children among `ids` that are neither queued nor running, in order. */
  function Asleep(s: Flow, ids: seq<nat>): (r: seq<nat>)
    requires forall id | id in ids :: id in s.actors
    ensures (forall id | id in ids :: !s.actors[id].active) ==> r == ids
  {
    if ids == [] then []
    else Asleep(s, ids[..|ids| - 1]) + if s.actors[ids[|ids| - 1]].active then [] else [ids[|ids| - 1]]
  }

  /** They are queued behind all others, in the order in which they are stopped. */
  lemma {:induction false} StopAllOrder(s: Flow, ids: seq<nat>)
    requires AllLive(s, ids)
    requires Distinct(s.tasks) && forall id :: id in s.actors && id in s.tasks ==> s.actors[id].active
    ensures StopAll(s, ids).tasks == s.tasks + Asleep(s, ids)
    decreases |ids|
  {
    hide AllLive, Halts, Distinct, Stop, StopAll, Asleep;
    if ids == [] {
      StopLast(s, ids);
    } else {
      var rest, id := ids[..|ids| - 1], ids[|ids| - 1];
      LiveRest(s, ids);
      StopLast(s, ids);
      StopAllOrder(s, rest);
      StopAllHalts(s, rest);
      StopOrder(s, rest, id, StopAll(s, rest));
      Associative(s.tasks, Asleep(s, rest), if s.actors[id].active then [] else [id]);
    }
  }

  lemma StopLast(s: Flow, ids: seq<nat>)
    requires forall id | id in ids :: id in s.actors
    ensures if ids == [] then StopAll(s, ids).tasks == s.tasks + Asleep(s, ids)
            else var t := StopAll(s, ids[..|ids| - 1]);
                 && StopAll(s, ids).tasks == Stop(t.(terminating := t.terminating + 1), ids[|ids| - 1]).tasks
                 && Asleep(s, ids) == Asleep(s, ids[..|ids| - 1])
                                      + if s.actors[ids[|ids| - 1]].active then [] else [ids[|ids| - 1]]
  {
    hide Stop;
  }

  lemma LiveRest(s: Flow, ids: seq<nat>)
    requires AllLive(s, ids) && ids != []
    ensures AllLive(s, ids[..|ids| - 1]) && ids[|ids| - 1] !in ids[..|ids| - 1]
    ensures ids[|ids| - 1] in s.actors && !s.actors[ids[|ids| - 1]].terminating
    ensures forall id | id in ids :: id in s.actors
  {
    var rest := ids[..|ids| - 1];
    forall i, j | 0 <= i < j < |rest| ensures rest[i] != rest[j] { assert ids[i] != ids[j]; }
  }

  lemma StopOrder(s: Flow, rest: seq<nat>, id: nat, t: Flow)
    requires Halts(s, rest, t) && id in s.actors && id !in rest && !s.actors[id].terminating
    ensures Stop(t.(terminating := t.terminating + 1), id).tasks == t.tasks + if s.actors[id].active then [] else [id]
  {
  }

  lemma StopOne(s: Flow, rest: seq<nat>, id: nat, t: Flow)
    requires Halts(s, rest, t) && Distinct(t.tasks) && id in s.actors && id !in rest && !s.actors[id].terminating
    requires id in s.tasks ==> s.actors[id].active
    ensures var s' := Stop(t.(terminating := t.terminating + 1), id);
            Halts(s, rest + [id], s') && Distinct(s'.tasks)
  {
    hide Distinct;
    var s' := Stop(t.(terminating := t.terminating + 1), id);
    QueueOnce(t.tasks, id);
    assert Members(rest + [id]) == Members(rest) + {id};
    assert s.stopped + Members(rest + [id]) == t.stopped + {id};
  }

  /** `ids` are the children the tree knows under `p`, each once. */
  ghost predicate AllUnder(s: Flow, p: Key, ids: seq<nat>) {
    && Distinct(ids)
    && (forall a :: a in s.bound && p <= a ==> s.bound[a] in ids)
    && (forall id :: id in ids ==> id in s.actors && Under(s, p, id))
  }

  ghost predicate Under(s: Flow, p: Key, id: nat) {
    exists a :: a in s.bound && p <= a && s.bound[a] == id
  }

  lemma UnderIs(plan: Plan, s: Flow, p: Key, ids: seq<nat>, id: nat)
    requires TreeFits(plan, s) && AllUnder(s, p, ids) && id in ids
    ensures id in s.actors && !s.actors[id].terminating
    ensures s.actors[id].address in s.bound && s.bound[s.actors[id].address] == id
    ensures p <= s.actors[id].address && !Cancelled(s.tags, s.actors[id].address)
  {
    hide Cancelled;
    assert Under(s, p, id);
    var a :| a in s.bound && p <= a && s.bound[a] == id;
    assert BoundFits(plan, s, a);
  }

  lemma DisableCovers(plan: Plan, s: Flow, p: Key, ids: seq<nat>)
    requires TreeFits(plan, s) && AllUnder(s, p, ids)
    ensures Disable(s, p) != s.(bound := Outside(s.bound, p), tags := Tagged(s.tags, p)) ==>
              ids == [] && Disable(s, p) == s
  {
    hide Cancelled;
    if Above(s.tags, p) && ids != [] {
      UnderIs(plan, s, p, ids, ids[0]);
      var t :| t in s.tags && t < p;
      CoversBelow(s.tags, t, s.actors[ids[0]].address);
    }
    if s.bound == map[] && ids != [] { UnderIs(plan, s, p, ids, ids[0]); }
  }

  lemma CoversBelow(tags: set<Key>, t: Key, a: Key)
    requires t in tags && t <= a
    ensures Cancelled(tags, a)
  {
  }

  ghost function Severed(s: Flow, s1: Flow, p: Key): Flow {
    s1.(bound := Outside(s.bound, p), tags := Tagged(s.tags, p))
  }

  lemma SeveredActor(plan: Plan, s: Flow, running: set<nat>, p: Key, ids: seq<nat>, s1: Flow, id: nat)
    requires TreeFits(plan, s) && AllUnder(s, p, ids) && Halts(s, ids, s1)
    requires id in s.actors && ActorFits(plan, s, running, id)
    ensures ActorFits(plan, Severed(s, s1, p), running, id)
  {
    hide Cancelled, TreeFits, OpOf, IsStage, AllUnder, Tagged;
    var a := s.actors[id];
    TaggedCovers(s.tags, p, a.address);
    if id in ids {
      UnderIs(plan, s, p, ids, id);
    } else if !a.terminating {
      NotUnder(s, p, ids, a.address);
    }
  }

  lemma NotUnder(s: Flow, p: Key, ids: seq<nat>, a: Key)
    requires AllUnder(s, p, ids) && a in s.bound && s.bound[a] !in ids
    ensures a in Outside(s.bound, p) && Outside(s.bound, p)[a] == s.bound[a]
  {
  }

  lemma SeveredBound(plan: Plan, s: Flow, p: Key, ids: seq<nat>, s1: Flow, a: Key)
    requires TreeFits(plan, s) && AllUnder(s, p, ids) && Halts(s, ids, s1)
    requires a in Outside(s.bound, p)
    ensures BoundFits(plan, Severed(s, s1, p), a)
  {
    hide Cancelled, IsStage, AllUnder, Tagged;
    assert BoundFits(plan, s, a);
    TaggedCovers(s.tags, p, a);
    if s.bound[a] in ids { UnderIs(plan, s, p, ids, s.bound[a]); }
  }

  lemma {:induction false} DistinctCount(ids: seq<nat>)
    requires Distinct(ids)
    ensures |Members(ids)| == |ids|
    decreases |ids|
  {
    if ids == [] {
      assert Members(ids) == {};
    } else {
      var rest, x := ids[..|ids| - 1], ids[|ids| - 1];
      DistinctCount(rest);
      assert x !in Members(rest);
      assert ids == rest + [x];
      assert Members(ids) == Members(rest) + {x};
    }
  }

  lemma SeveredLeaving(s: Flow, ids: seq<nat>, s1: Flow)
    requires AllLive(s, ids) && Halts(s, ids, s1)
    ensures Leaving(s1.actors) == Leaving(s.actors) + Members(ids)
    ensures |Leaving(s1.actors)| == |Leaving(s.actors)| + |ids|
  {
    hide Distinct;
    DistinctCount(ids);
    assert Leaving(s1.actors) == Leaving(s.actors) + Members(ids);
    assert Leaving(s.actors) !! Members(ids);
  }

  lemma SeveredPast(s: Flow, ids: seq<nat>, s1: Flow, p: Key)
    requires PastFits(s) && AllLive(s, ids) && Halts(s, ids, s1)
    ensures PastFits(Severed(s, s1, p))
  {
    hide Outside, Tagged, Leaving, Distinct, AllLive;
    SeveredLeaving(s, ids, s1);
  }

  lemma SeveredTrace(s: Flow, p: Key)
    requires TraceFits(s.trace, s.tags)
    ensures TraceFits(s.trace, Tagged(s.tags, p))
  {
    hide Cancelled, Safe;
    forall e | e in s.trace && e.Cut? ensures Cancelled(Tagged(s.tags, p), e.prefix) {
      TaggedCovers(s.tags, p, e.prefix);
    }
  }

  lemma SeveredTasks(plan: Plan, s: Flow, running: set<nat>, ids: seq<nat>, s1: Flow)
    requires ActorsFit(plan, s, running) && TasksFit(s.tasks, s.actors, running)
    requires Halts(s, ids, s1) && Distinct(s1.tasks)
    ensures TasksFit(s1.tasks, s1.actors, running)
  {
    hide ActorFits, Distinct;
    forall id | id in s1.tasks ensures id in s1.actors && id !in running {
      if id in running { ActiveQueued(plan, s, running, id); }
    }
  }

  /** Stopping every child under a prefix and disabling it. */
  lemma CancelInv(plan: Plan, s: Flow, running: set<nat>, p: Key, ids: seq<nat>)
    requires Inv(plan, s, running) && AllUnder(s, p, ids)
    ensures AllLive(s, ids) && Inv(plan, CancelUnder(s, p, ids), running)
    ensures Halts(s, ids, StopAll(s, ids))
    ensures CancelUnder(s, p, ids) == Severed(s, StopAll(s, ids), p) || (ids == [] && CancelUnder(s, p, ids) == s)
  {
    hide ActorFits, BoundFits, TasksFit, PastFits, TraceFits, MailFits, PlanFits, Cancelled, AllUnder, Halts, Above,
         Outside, Tagged;
    UnderLive(plan, s, p, ids);
    QueuedActive(plan, s, running);
    StopAllHalts(s, ids);
    var s1 := StopAll(s, ids);
    var s2 := Severed(s, s1, p);
    DisableCovers(plan, s, p, ids);
    HaltsKeep(s, ids, s1);
    forall id | id in s2.actors ensures ActorFits(plan, s2, running, id) {
      SeveredActor(plan, s, running, p, ids, s1, id);
    }
    forall a | a in s2.bound ensures BoundFits(plan, s2, a) { SeveredBound(plan, s, p, ids, s1, a); }
    SeveredPast(s, ids, s1, p);
    SeveredTrace(s, p);
    SeveredTasks(plan, s, running, ids, s1);
  }

  lemma HaltsKeep(s: Flow, ids: seq<nat>, s1: Flow)
    requires Halts(s, ids, s1)
    ensures s1.actors.Keys == s.actors.Keys && s1.bound == s.bound && s1.tags == s.tags
    ensures s1.mailbox == s.mailbox && s1.trace == s.trace
    ensures ids == [] ==> s1.actors == s.actors
  {
  }

  lemma UnderLive(plan: Plan, s: Flow, p: Key, ids: seq<nat>)
    requires TreeFits(plan, s) && AllUnder(s, p, ids)
    ensures AllLive(s, ids)
  {
    hide TreeFits;
    forall id | id in ids ensures id in s.actors && !s.actors[id].terminating { UnderIs(plan, s, p, ids, id); }
  }

  lemma QueuedActive(plan: Plan, s: Flow, running: set<nat>)
    requires ActorsFit(plan, s, running) && TasksFit(s.tasks, s.actors, running)
    ensures Distinct(s.tasks) && forall id :: id in s.actors && id in s.tasks ==> s.actors[id].active
  {
    hide ActorFits;
    forall id | id in s.actors && id in s.tasks ensures s.actors[id].active { ActiveQueued(plan, s, running, id); }
  }

  /** Exactly when something is stored at all, a disabled prefix is covered from then on. */
  lemma DisabledCovered(s: Flow, p: Key)
    ensures Cancelled(Disable(s, p).tags, p) <==> !(s.bound == map[] && s.tags == {})
  {
    hide Outside;
    if Above(s.tags, p) {
      var t :| t in s.tags && t < p;
      assert t <= p;
    } else if !(s.bound == map[] && s.tags == {}) {
      assert p in Tagged(s.tags, p);
    }
  }

  /** Recording the cancellation of a scope that is covered. */
  lemma CutInv(plan: Plan, s: Flow, running: set<nat>, p: Key)
    requires Inv(plan, s, running) && Cancelled(s.tags, p)
    ensures Inv(plan, s.(trace := s.trace + [Cut(p)]), running)
  {
    hide ActorFits, BoundFits, TasksFit, MailFits, PlanFits, Cancelled, TraceFits;
    var s' := s.(trace := s.trace + [Cut(p)]);
    forall id | id in s'.actors ensures ActorFits(plan, s', running, id) { TracelessActor(plan, s, s', running, id); }
    forall a | a in s'.bound ensures BoundFits(plan, s', a) { TracelessBound(plan, s, s', a); }
    TraceCut(s.trace, s.tags, p);
  }

  lemma TracelessActor(plan: Plan, s: Flow, s': Flow, running: set<nat>, id: nat)
    requires s'.actors == s.actors && s'.tasks == s.tasks && s'.tags == s.tags && s'.bound == s.bound
    requires s'.next == s.next
    requires id in s.actors && ActorFits(plan, s, running, id)
    ensures ActorFits(plan, s', running, id)
  {
  }

  lemma TracelessBound(plan: Plan, s: Flow, s': Flow, a: Key)
    requires s'.actors == s.actors && s'.tags == s.tags && s'.bound == s.bound
    requires a in s.bound && BoundFits(plan, s, a)
    ensures BoundFits(plan, s', a)
  {
  }

  lemma TraceCut(trace: seq<Event>, tags: set<Key>, p: Key)
    requires TraceFits(trace, tags) && Cancelled(tags, p)
    ensures TraceFits(trace + [Cut(p)], tags)
  {
    hide Cancelled;
    var t := trace + [Cut(p)];
    forall f | f in t && f.Cut? ensures Cancelled(tags, f.prefix) { assert f in trace || f == Cut(p); }
  }

  // ---------------------------------------------------------------- running an actor

  /** The queue's head is taken and run. */
  lemma StartInv(plan: Plan, s: Flow)
    requires Inv(plan, s, {}) && s.tasks != []
    ensures s.tasks[0] in s.actors && s.actors[s.tasks[0]].active
    ensures Inv(plan, s.(tasks := s.tasks[1..]), {s.tasks[0]})
    ensures var a := s.actors[s.tasks[0]]; !a.terminating ==> OpOf(plan, a) && a.mailbox != []
  {
    hide ActorFits, BoundFits, MailFits, PlanFits, TraceFits, Leaving, Members, OpOf;
    var id, s' := s.tasks[0], s.(tasks := s.tasks[1..]);
    assert id in s.tasks;
    assert ActorFits(plan, s, {}, id);
    QueuedHere(plan, s, id);
    forall j | j in s'.actors ensures ActorFits(plan, s', {id}, j) { StartActor(plan, s, j); }
    forall a | a in s'.bound ensures BoundFits(plan, s', a) { TracelessBound(plan, s, s', a); }
    forall i, j | 0 <= i < j < |s'.tasks| ensures s'.tasks[i] != s'.tasks[j] {
      assert s.tasks[i + 1] != s.tasks[j + 1];
    }
  }

  lemma QueuedHere(plan: Plan, s: Flow, id: nat)
    requires id in s.actors && id in s.tasks && ActorFits(plan, s, {}, id)
    ensures s.actors[id].active
    ensures !s.actors[id].terminating ==> OpOf(plan, s.actors[id]) && s.actors[id].mailbox != []
  {
  }

  lemma StartActor(plan: Plan, s: Flow, j: nat)
    requires s.tasks != [] && Distinct(s.tasks) && j in s.actors && ActorFits(plan, s, {}, j)
    ensures ActorFits(plan, s.(tasks := s.tasks[1..]), {s.tasks[0]}, j)
  {
    hide OpOf, IsStage, Cancelled;
    var id := s.tasks[0];
    assert s.tasks == [id] + s.tasks[1..];
    assert id !in s.tasks[1..];
  }

  /** What one `do_work` promises: an operator of the same plan, messages for the next stage only. */
  ghost predicate Works(plan: Plan, a: Actor, w: Outcome) {
    && OpOf(plan, a) && a.mailbox != [] && w == Work(plan.graph, a.op, a.mailbox[0])
  }

  lemma PostedFits(plan: Plan, a: Actor, w: Outcome)
    requires PlanFits(plan) && Works(plan, a, w)
    ensures MailFits(plan, Posted(Downstream(a.address, StageOf(a.address) + 1), w.sent))
    ensures StageOf(a.address) < plan.hops ==>
              Downstream(a.address, StageOf(a.address) + 1) == Address(plan, StageOf(a.address) + 1)
    ensures StageOf(a.address) == plan.hops ==> w.sent == []
  {
    hide Work, OpFits;
    var i := StageOf(a.address);
    WorkKeepsFit(plan.graph, a.op, a.mailbox[0], i == plan.hops);
    if i < plan.hops { AddressStage(plan, i + 1); }
  }

  lemma AbsorbInv(plan: Plan, s: Flow, id: nat, w: Outcome)
    requires Inv(plan, s, {id}) && id in s.actors && !s.actors[id].terminating && Works(plan, s.actors[id], w)
    ensures Inv(plan, Absorb(s, id, w), {id})
    ensures w.flag != CancelMe ==> OpOf(plan, Absorb(s, id, w).actors[id])
  {
    hide ActorFits, BoundFits, MailFits, TraceFits, Works, OpOf, Cancelled, Scoped, StageOf, Work;
    WorksStage(plan, s.actors[id], w);
    var s' := Absorb(s, id, w);
    UncoveredRunning(plan, s, id);
    forall j | j in s'.actors ensures ActorFits(plan, s', {id}, j) { AbsorbActor(plan, s, id, w, j); }
    forall a | a in s'.bound ensures BoundFits(plan, s', a) { AbsorbBound(plan, s, id, w, a); }
    assert Leaving(s'.actors) == Leaving(s.actors);
    PostedFits(plan, s.actors[id], w);
    MailMore(plan, s.mailbox, Posted(Downstream(s.actors[id].address, StageOf(s.actors[id].address) + 1), w.sent));
    TraceMore(s.trace, s.tags, Acted(s.actors[id].address));
    KeepsOp(plan, s.actors[id], w);
  }

  lemma WorksStage(plan: Plan, a: Actor, w: Outcome)
    requires PlanFits(plan) && Works(plan, a, w)
    ensures |a.address| == ADDRESS_LENGTH && StageOf(a.address) < 0x8000 && a.mailbox != []
  {
  }

  lemma KeepsOp(plan: Plan, a: Actor, w: Outcome)
    requires Works(plan, a, w)
    ensures w.flag != CancelMe ==> OpOf(plan, a.(op := w.op, mailbox := a.mailbox[1..]))
  {
    hide Work, OpFits;
    WorkKeepsFit(plan.graph, a.op, a.mailbox[0], StageOf(a.address) == plan.hops);
    KeepsKind(plan.graph, a.op, a.mailbox[0]);
  }

  lemma KeepsKind(g: Graph, op: Op, data: Payload)
    ensures Work(g, op, data).op.Limit? <==> op.Limit?
    ensures op.Limit? ==> Work(g, op, data).op.limit == op.limit
  {
    hide Fill, FlatMap;
  }

  lemma UncoveredRunning(plan: Plan, s: Flow, id: nat)
    requires ActorsFit(plan, s, {id}) && TreeFits(plan, s) && id in s.actors && !s.actors[id].terminating
    ensures s.actors[id].address in s.bound && s.bound[s.actors[id].address] == id
    ensures !Cancelled(s.tags, s.actors[id].address) && IsStage(plan, s.actors[id].address)
  {
    assert ActorFits(plan, s, {id}, id);
    assert BoundFits(plan, s, s.actors[id].address);
  }

  lemma AbsorbActor(plan: Plan, s: Flow, id: nat, w: Outcome, j: nat)
    requires id in s.actors && s.actors[id].mailbox != [] && |s.actors[id].address| == ADDRESS_LENGTH
    requires StageOf(s.actors[id].address) < 0x8000 && !s.actors[id].terminating
    requires j in s.actors && ActorFits(plan, s, {id}, j)
    ensures ActorFits(plan, Absorb(s, id, w), {id}, j)
  {
    hide OpOf, IsStage, Cancelled, Scoped;
  }

  lemma AbsorbBound(plan: Plan, s: Flow, id: nat, w: Outcome, a: Key)
    requires id in s.actors && s.actors[id].mailbox != [] && |s.actors[id].address| == ADDRESS_LENGTH
    requires StageOf(s.actors[id].address) < 0x8000
    requires a in s.bound && BoundFits(plan, s, a)
    ensures BoundFits(plan, Absorb(s, id, w), a)
  {
    hide IsStage, Cancelled, Scoped;
  }

  lemma MailMore(plan: Plan, ms: seq<Message>, more: seq<Message>)
    requires MailFits(plan, ms) && MailFits(plan, more)
    ensures MailFits(plan, ms + more)
  {
    hide MessageFits;
  }

  // ---------------------------------------------------------------- the end of a run

  lemma FinishInv(plan: Plan, s: Flow, id: nat)
    requires Inv(plan, s, {id}) && id in s.actors && s.actors[id].terminating
    ensures Inv(plan, Finish(s, id), {})
    ensures |Leaving(Finish(s, id).actors)| == |Leaving(s.actors)| - 1
  {
    hide ActorFits, BoundFits, MailFits, TraceFits, PastFits, PlanFits, Distinct;
    var s' := Finish(s, id);
    forall j | j in s'.actors ensures ActorFits(plan, s', {}, j) { FinishActor(plan, s, id, j); }
    forall a | a in s'.bound ensures BoundFits(plan, s', a) { FinishBound(plan, s, id, a); }
    assert ActorFits(plan, s, {id}, id);
    KnownBefore(plan, s, {id}, id);
    FinishPast(s, id);
  }

  lemma FinishActor(plan: Plan, s: Flow, id: nat, j: nat)
    requires j in s.actors && j != id && ActorFits(plan, s, {id}, j)
    ensures ActorFits(plan, Finish(s, id), {}, j)
  {
    hide OpOf, IsStage, Cancelled;
  }

  lemma FinishBound(plan: Plan, s: Flow, id: nat, a: Key)
    requires id in s.actors && s.actors[id].terminating && a in s.bound && BoundFits(plan, s, a)
    ensures BoundFits(plan, Finish(s, id), a)
  {
    hide IsStage, Cancelled;
  }

  lemma FinishLeaving(s: Flow, id: nat)
    requires id in s.actors && s.actors[id].terminating
    ensures Leaving(s.actors) == Leaving(Finish(s, id).actors) + {id}
    ensures |Leaving(Finish(s, id).actors)| == |Leaving(s.actors)| - 1
  {
    assert Leaving(s.actors) == Leaving(Finish(s, id).actors) + {id};
    assert id !in Leaving(Finish(s, id).actors);
  }

  lemma FinishPast(s: Flow, id: nat)
    requires PastFits(s) && id in s.actors && s.actors[id].terminating && id < s.next
    ensures PastFits(Finish(s, id))
    ensures |Leaving(Finish(s, id).actors)| == |Leaving(s.actors)| - 1
  {
    hide Distinct, Leaving, Members;
    var s' := Finish(s, id);
    FinishLeaving(s, id);
    assert id !in s.deleted;
    QueueOnce(s.deleted, id);
    MembersMore(s.deleted, id);
  }

  lemma MembersMore(ids: seq<nat>, id: nat)
    ensures Members(ids + [id]) == Members(ids) + {id}
  {
  }

  lemma RestInv(plan: Plan, s: Flow, id: nat)
    requires Inv(plan, s, {id}) && id in s.actors && !s.actors[id].terminating && OpOf(plan, s.actors[id])
    ensures Inv(plan, Rest(s, id), {})
  {
    hide ActorFits, BoundFits, MailFits, TraceFits, PlanFits, Distinct, OpOf, Leaving, Members;
    var s' := Rest(s, id);
    forall j | j in s'.actors ensures ActorFits(plan, s', {}, j) { RestActor(plan, s, id, j); }
    forall a | a in s'.bound ensures BoundFits(plan, s', a) { RestBound(plan, s, id, a); }
    RestLeaving(s, id);
    QueueOnce(s.tasks, id);
  }

  lemma RestLeaving(s: Flow, id: nat)
    requires id in s.actors && !s.actors[id].terminating
    ensures Leaving(Rest(s, id).actors) == Leaving(s.actors)
  {
  }

  lemma RestActor(plan: Plan, s: Flow, id: nat, j: nat)
    requires id in s.actors && !s.actors[id].terminating && OpOf(plan, s.actors[id]) && id !in s.tasks
    requires j in s.actors && ActorFits(plan, s, {id}, j)
    ensures ActorFits(plan, Rest(s, id), {}, j)
  {
    hide IsStage, Cancelled, OpFits;
  }

  lemma RestBound(plan: Plan, s: Flow, id: nat, a: Key)
    requires id in s.actors && a in s.bound && BoundFits(plan, s, a)
    ensures BoundFits(plan, Rest(s, id), a)
  {
    hide IsStage, Cancelled;
  }

  // ---------------------------------------------------------------- beginnings and consequences

  lemma StartsFit(plan: Plan, mailbox: seq<Message>)
    requires PlanFits(plan) && MailFits(plan, mailbox)
    ensures Inv(plan, Flow(mailbox, [], map[], map[], {}, 0, [], 0, [], {}, []), {})
  {
    assert Leaving(map[]) == {} && Members([]) == {};
  }

  /** Under a cancelled scope there is no child any more but those on their way out, for good. */
  lemma CutForGood(plan: Plan, s: Flow, running: set<nat>, p: Key, id: nat)
    requires Inv(plan, s, running) && Cut(p) in s.trace && id in s.actors && p <= s.actors[id].address
    ensures s.actors[id].terminating && s.actors[id].mailbox == []
    ensures s.actors[id].address !in s.bound
  {
    hide TasksFit, PastFits, MailFits, Safe, IsStage, OpOf;
    var a := s.actors[id].address;
    assert Cut(p).Cut?;
    CancelledBelow(s.tags, p, a);
    assert ActorFits(plan, s, running, id);
    assert a in s.bound ==> BoundFits(plan, s, a);
  }
}

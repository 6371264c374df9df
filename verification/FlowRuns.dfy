/** What the steps of a run keep: the invariant, the meaning of the state, and progress. */
module FlowRuns {
  import opened Bytes
  import opened Operators
  import opened Pipelines
  import opened Scopes
  import opened Flows
  import opened FlowInvariants
  import opened FlowViews

  /** Everything printed so far, and everything that will be. */
  ghost function Meaning(plan: Plan, s: Flow): seq<LightNode>
    requires PlanFits(plan)
  {
    s.output + Printed(plan.graph, Views(plan, s))
  }

  /** How often an operator will still work. */
  ghost function Left(plan: Plan, s: Flow): nat
    requires PlanFits(plan)
  {
    WorkLeft(plan.graph, Views(plan, s), plan.hops + 1)
  }

  /** No stage that was going to end has lost its end, and no LIMIT of zero has ended. */
  ghost predicate Closes(plan: Plan, s: Flow, s': Flow) {
    PlanFits(plan) && Closing(plan.graph, Views(plan, s), Views(plan, s'))
  }

  lemma ClosesSame(plan: Plan, s: Flow, s': Flow)
    requires PlanFits(plan) && Views(plan, s') == Views(plan, s)
    ensures Closes(plan, s, s')
  {
    hide Views, Closing;
    ClosingSame(plan.graph, Views(plan, s));
  }

  lemma ClosesStep(plan: Plan, s: Flow, t: Flow, u: Flow)
    requires Closes(plan, s, t) && Closes(plan, t, u)
    ensures Closes(plan, s, u)
  {
    hide Views, Closing;
    ClosingStep(plan.graph, Views(plan, s), Views(plan, t), Views(plan, u));
  }

  /** The same seen from outside: nothing but deliveries and queueing lies between. */
  ghost predicate Alike(plan: Plan, s: Flow, s': Flow) {
    PlanFits(plan) && Views(plan, s') == Views(plan, s) && s'.output == s.output
  }

  lemma AlikeMeans(plan: Plan, s: Flow, s': Flow)
    requires Alike(plan, s, s')
    ensures Meaning(plan, s') == Meaning(plan, s) && Left(plan, s') == Left(plan, s) && Closes(plan, s, s')
  {
    hide Views, Printed, WorkLeft, Closes;
    ClosesSame(plan, s, s');
  }

  // ---------------------------------------------------------------- delivering mail

  /** What `process_mailbox` does with a message for a child. */
  ghost function Deliver(plan: Plan, s: Flow, a: Key, p: Payload): Flow
    requires |a| == ADDRESS_LENGTH && TreeFits(plan, s)
  {
    if Cancelled(s.tags, a) then s
    else if a in s.bound then
      assert BoundFits(plan, s, a);
      Enqueue(s, s.bound[a], p)
    else Enqueue(Create(plan, s, a), s.next, p)
  }

  /** Delivering the first message of the mailbox keeps everything, and cannot be seen from outside. */
  lemma DeliverKeeps(plan: Plan, s: Flow)
    requires Inv(plan, s, {}) && s.mailbox != [] && s.mailbox[0].User?
    ensures var m, s0 := s.mailbox[0], s.(mailbox := s.mailbox[1..]);
            && IsStage(plan, m.address) && Inv(plan, s0, {}) && TreeFits(plan, s0)
            && Inv(plan, Deliver(plan, s0, m.address, m.payload), {})
            && Alike(plan, s, Deliver(plan, s0, m.address, m.payload))
            && Deliver(plan, s0, m.address, m.payload).terminating == s.terminating
  {
    hide ActorFits, BoundFits, TasksFit, PastFits, TraceFits, Cancelled, ViewOf, Views, IsStage, StageOf, ActorsFit,
         Enqueue, Create;
    var m, s0 := s.mailbox[0], s.(mailbox := s.mailbox[1..]);
    HeadFits(plan, s.mailbox);
    MailInv(plan, s, {}, s.mailbox[1..]);
    if Cancelled(s.tags, m.address) {
      DropViews(plan, s, {});
    } else if m.address in s.bound {
      DeliverOld(plan, s);
    } else {
      DeliverNew(plan, s);
    }
  }

  lemma HeadFits(plan: Plan, ms: seq<Message>)
    requires MailFits(plan, ms) && ms != []
    ensures MessageFits(plan, ms[0]) && MailFits(plan, ms[1..])
  {
    hide MessageFits;
    assert ms[0] in ms;
  }

  lemma EnqueueSame(s: Flow, id: nat, p: Payload)
    requires id in s.actors
    ensures Enqueue(s, id, p).output == s.output && Enqueue(s, id, p).terminating == s.terminating
    ensures Enqueue(s, id, p).bound == s.bound && Enqueue(s, id, p).tags == s.tags
    ensures Enqueue(s, id, p).mailbox == s.mailbox && Enqueue(s, id, p).trace == s.trace
  {
  }

  lemma DeliverOld(plan: Plan, s: Flow)
    requires Inv(plan, s, {}) && s.mailbox != [] && s.mailbox[0].User? && s.mailbox[0].address in s.bound
    requires Inv(plan, s.(mailbox := s.mailbox[1..]), {})
    ensures s.bound[s.mailbox[0].address] in s.actors
    ensures var s' := Enqueue(s.(mailbox := s.mailbox[1..]), s.bound[s.mailbox[0].address], s.mailbox[0].payload);
            Inv(plan, s', {}) && Alike(plan, s, s') && s'.terminating == s.terminating
  {
    hide ActorFits, BoundFits, TasksFit, PastFits, TraceFits, Cancelled, ViewOf, Views, IsStage, Enqueue;
    var m, s0 := s.mailbox[0], s.(mailbox := s.mailbox[1..]);
    assert BoundFits(plan, s, m.address);
    BoundIs(plan, s, m.address);
    EnqueueInv(plan, s0, s.bound[m.address], m.payload);
    EnqueueViews(plan, s);
    EnqueueSame(s0, s.bound[m.address], m.payload);
  }

  lemma DeliverNew(plan: Plan, s: Flow)
    requires Inv(plan, s, {}) && s.mailbox != [] && s.mailbox[0].User? && s.mailbox[0].address !in s.bound
    requires IsStage(plan, s.mailbox[0].address) && !Cancelled(s.tags, s.mailbox[0].address)
    requires Inv(plan, s.(mailbox := s.mailbox[1..]), {})
    ensures var c := Create(plan, s.(mailbox := s.mailbox[1..]), s.mailbox[0].address);
            var s' := Enqueue(c, s.next, s.mailbox[0].payload);
            Inv(plan, s', {}) && Alike(plan, s, s') && s'.terminating == s.terminating
  {
    hide ActorFits, BoundFits, TasksFit, PastFits, TraceFits, MailFits, Cancelled, ViewOf, Views, Enqueue, NewOp;
    var m, s0 := s.mailbox[0], s.(mailbox := s.mailbox[1..]);
    CreateInv(plan, s0, m.address);
    CreateInv(plan, s, m.address);
    CreateViews(plan, s, m.address);
    var c0, c := Create(plan, s0, m.address), Create(plan, s, m.address);
    assert c0 == c.(mailbox := c.mailbox[1..]);
    EnqueueInv(plan, c0, s.next, m.payload);
    EnqueueViews(plan, c);
    EnqueueSame(c0, s.next, m.payload);
  }

  // ---------------------------------------------------------------- working

  ghost function AfterWork(s: Flow, id: nat, w: Outcome): Flow
    requires id in s.actors && s.actors[id].mailbox != [] && |s.actors[id].address| == ADDRESS_LENGTH
    requires StageOf(s.actors[id].address) < 0x8000
  {
    if w.flag == CancelMe then CancelUnder(Absorb(s, id, w), s.actors[id].address, [id]) else Absorb(s, id, w)
  }

  /** One `do_work`, with the termination it may ask for. */
  lemma WorkKeeps(plan: Plan, s: Flow, id: nat, w: Outcome)
    requires Inv(plan, s, {id}) && id in s.actors && !s.actors[id].terminating && Works(plan, s.actors[id], w)
    ensures |s.actors[id].address| == ADDRESS_LENGTH && StageOf(s.actors[id].address) < 0x8000
    ensures s.actors[id].mailbox != []
    ensures var s' := AfterWork(s, id, w);
            && Inv(plan, s', {id}) && Meaning(plan, s') == Meaning(plan, s) && Left(plan, s') < Left(plan, s)
            && Closes(plan, s, s') && id in s'.actors && s'.tasks == s.tasks
            && (w.flag == CancelMe ==> s'.actors[id].terminating && s'.actors[id].mailbox == [])
            && (w.flag != CancelMe ==>
                  && !s'.actors[id].terminating && OpOf(plan, s'.actors[id])
                  && s'.actors[id].mailbox == s.actors[id].mailbox[1..])
  {
    hide ActorFits, BoundFits, TasksFit, PastFits, TraceFits, MailFits, Cancelled, ViewOf, Views, Printed, WorkLeft,
         OpOf, Works, CancelUnder, Severed, Halts, Absorb, Work, StopAll, Closing, AfterWork;
    WorksStage(plan, s.actors[id], w);
    WorkTasks(plan, s, id, w);
    AfterWorkIs(s, id, w);
    AbsorbInv(plan, s, id, w);
    var i := RunsNow(plan, s, id, w);
    var vs := Views(plan, s);
    PrintedWorked(plan.graph, vs, i, w);
    WorkLeftWorked(plan.graph, vs, i, w);
    ClosingWorked(plan.graph, vs, i, w);
    AbsorbIs(s, id, w);
    Associative(s.output, w.printed, Printed(plan.graph, Pipelines.Worked(vs, i, w)));
    if w.flag == CancelMe {
      LastWorkViews(plan, s, id, i, w);
      LastWorkIs(plan, s, id, w);
    } else {
      AbsorbViews(plan, s, id, i, w);
    }
  }

  lemma AfterWorkIs(s: Flow, id: nat, w: Outcome)
    requires id in s.actors && s.actors[id].mailbox != [] && |s.actors[id].address| == ADDRESS_LENGTH
    requires StageOf(s.actors[id].address) < 0x8000
    ensures id in Absorb(s, id, w).actors
    ensures AfterWork(s, id, w)
         == if w.flag == CancelMe then CancelUnder(Absorb(s, id, w), s.actors[id].address, [id]) else Absorb(s, id, w)
  {
    hide CancelUnder, StageOf;
  }

  /** The running actor is active, so nothing it does to itself queues it. */
  lemma WorkTasks(plan: Plan, s: Flow, id: nat, w: Outcome)
    requires Inv(plan, s, {id}) && id in s.actors && s.actors[id].mailbox != []
    requires |s.actors[id].address| == ADDRESS_LENGTH && StageOf(s.actors[id].address) < 0x8000
    ensures AfterWork(s, id, w).tasks == s.tasks
  {
    hide TreeFits, TasksFit, PastFits, TraceFits, MailFits, Cancelled, OpOf, IsStage, StageOf, Above, Outside, Tagged,
         Scoped;
    assert ActorFits(plan, s, {id}, id);
    StopAllOne(Absorb(s, id, w), id);
  }

  lemma StopAllOne(s: Flow, id: nat)
    requires id in s.actors
    ensures StopAll(s, [id]).tasks == Stop(s.(terminating := s.terminating + 1), id).tasks
  {
    hide Stop;
    var ids := [id];
    assert ids[..0] == [];
    var t := StopAll(s, ids[..0]);
    assert t == s;
  }

  lemma AbsorbIs(s: Flow, id: nat, w: Outcome)
    requires id in s.actors && s.actors[id].mailbox != [] && |s.actors[id].address| == ADDRESS_LENGTH
    requires StageOf(s.actors[id].address) < 0x8000
    ensures var t := Absorb(s, id, w);
            && t.output == s.output + w.printed && id in t.actors
            && t.actors[id] == s.actors[id].(op := w.op, mailbox := s.actors[id].mailbox[1..])
  {
  }

  lemma LastWorkIs(plan: Plan, s: Flow, id: nat, w: Outcome)
    requires Inv(plan, s, {id}) && id in s.actors && !s.actors[id].terminating && Works(plan, s.actors[id], w)
    requires |s.actors[id].address| == ADDRESS_LENGTH && StageOf(s.actors[id].address) < 0x8000
    requires s.actors[id].mailbox != [] && Inv(plan, Absorb(s, id, w), {id})
    ensures id in Absorb(s, id, w).actors
    ensures var s' := CancelUnder(Absorb(s, id, w), s.actors[id].address, [id]);
            && Inv(plan, s', {id}) && s'.output == s.output + w.printed
            && id in s'.actors && s'.actors[id].terminating && s'.actors[id].mailbox == []
  {
    hide ActorFits, BoundFits, TasksFit, PastFits, TraceFits, MailFits, Cancelled, OpOf, Works, Work, StopAll, Absorb,
         Distinct, AllUnder, AllLive, Inv, Disable;
    var t, a := Absorb(s, id, w), s.actors[id].address;
    AbsorbKeeps(s, id, w);
    AbsorbIs(s, id, w);
    OnlyChild(plan, t, id);
    CancelInv(plan, t, {id}, a, [id]);
    assert id in [id];
  }

  // ---------------------------------------------------------------- cancelling

  ghost predicate NoCancels(mailbox: seq<Message>) {
    forall m :: m in mailbox ==> !m.CancelScope?
  }

  /** Anything is stored in the tree, an address or a tag. */
  ghost predicate Started(s: Flow) {
    !(s.bound == map[] && s.tags == {})
  }

  /** The scope is inside the dataflow; others are not handled. */
  ghost predicate Inside(plan: Plan, p: Key) {
    |p| > |plan.base|
  }

  /** One cancelled scope; it is recorded if it has any effect. */
  ghost function CutScope(s: Flow, p: Key, ids: seq<nat>): Flow
    requires forall id | id in ids :: id in s.actors
  {
    var t := CancelUnder(s, p, ids);
    if Started(s) then t.(trace := t.trace + [Cut(p)]) else t
  }

  /** A cancelled scope is covered from then on exactly when anything is stored when its turn comes. */
  lemma CutKeeps(plan: Plan, s: Flow, p: Key, ids: seq<nat>)
    requires Inv(plan, s, {}) && AllUnder(s, p, ids)
    ensures Inv(plan, CutScope(s, p, ids), {})
    ensures Cancelled(CutScope(s, p, ids).tags, p) <==> Started(s)
    ensures Started(CutScope(s, p, ids)) <==> Started(s)
    ensures !Started(s) ==> CutScope(s, p, ids) == s
  {
    hide ActorFits, TasksFit, PastFits, TraceFits, MailFits, Cancelled, StopAll, AllUnder, Distinct, Inv;
    CancelInv(plan, s, {}, p, ids);
    HaltsKeep(s, ids, StopAll(s, ids));
    DisabledCovered(StopAll(s, ids), p);
    var t := CancelUnder(s, p, ids);
    if Started(s) {
      CutInv(plan, t, {}, p);
      CoveredStarted(t.tags, p);
    } else {
      NothingUnder(s, p, ids);
    }
  }

  lemma NothingUnder(s: Flow, p: Key, ids: seq<nat>)
    requires AllUnder(s, p, ids) && !Started(s)
    ensures ids == [] && CancelUnder(s, p, ids) == s
  {
    hide AllUnder;
    if ids != [] { SomeUnder(s, p, ids); }
  }

  lemma SomeUnder(s: Flow, p: Key, ids: seq<nat>)
    requires AllUnder(s, p, ids) && ids != []
    ensures s.bound != map[]
  {
    assert Under(s, p, ids[0]);
  }

  lemma CoveredStarted(tags: set<Key>, p: Key)
    requires Cancelled(tags, p)
    ensures tags != {}
  {
  }

  // What every step of a run leaves behind it.

  /** The trace goes on, and what was covered stays covered. */
  ghost predicate Onward(s: Flow, s': Flow) {
    && s.trace <= s'.trace
    && forall a :: Cancelled(s.tags, a) ==> Cancelled(s'.tags, a)
  }

  lemma OnwardStart(s: Flow)
    ensures Onward(s, s)
  {
  }

  lemma OnwardStep(s: Flow, t: Flow, u: Flow)
    requires Onward(s, t) && Onward(t, u)
    ensures Onward(s, u)
  {
    hide Cancelled;
  }

  lemma OnwardSame(s: Flow, t: Flow)
    requires s.trace <= t.trace && t.tags == s.tags
    ensures Onward(s, t)
  {
    hide Cancelled;
  }

  lemma OnwardCancel(plan: Plan, s: Flow, running: set<nat>, p: Key, ids: seq<nat>)
    requires Inv(plan, s, running) && AllUnder(s, p, ids)
    ensures forall id | id in ids :: id in s.actors
    ensures CancelUnder(s, p, ids).trace == s.trace && Onward(s, CancelUnder(s, p, ids))
    ensures CancelUnder(s, p, ids).mailbox == s.mailbox && CancelUnder(s, p, ids).output == s.output
  {
    hide ActorFits, TasksFit, PastFits, TraceFits, MailFits, Cancelled, StopAll, AllUnder, Distinct, Inv, Above;
    CancelInv(plan, s, running, p, ids);
    HaltsKeep(s, ids, StopAll(s, ids));
    HaltsOutput(s, ids, StopAll(s, ids));
    forall a | Cancelled(s.tags, a) ensures Cancelled(CancelUnder(s, p, ids).tags, a) { TaggedCovers(s.tags, p, a); }
  }

  lemma HaltsOutput(s: Flow, ids: seq<nat>, s1: Flow)
    requires Halts(s, ids, s1)
    ensures s1.output == s.output
  {
  }

  lemma OnwardDeliver(plan: Plan, s: Flow, a: Key, p: Payload)
    requires |a| == ADDRESS_LENGTH && TreeFits(plan, s)
    ensures Onward(s, Deliver(plan, s, a, p)) && Started(Deliver(plan, s, a, p))
    ensures Deliver(plan, s, a, p).mailbox == s.mailbox
  {
    hide Cancelled, StageOf, NewOp, Enqueue;
    if Cancelled(s.tags, a) {
      CoveredStarted(s.tags, a);
      OnwardStart(s);
    } else if a in s.bound {
      assert BoundFits(plan, s, a);
      EnqueueSame(s, s.bound[a], p);
      OnwardSame(s, Deliver(plan, s, a, p));
    } else {
      var c := Create(plan, s, a);
      EnqueueSame(c, s.next, p);
      OnwardSame(s, Deliver(plan, s, a, p));
      assert a in c.bound;
    }
  }

  /** `do_work`, and the termination it may ask for, lead on. */
  lemma OnwardWork(plan: Plan, s: Flow, id: nat, w: Outcome)
    requires Inv(plan, s, {id}) && id in s.actors && !s.actors[id].terminating && Works(plan, s.actors[id], w)
    requires |s.actors[id].address| == ADDRESS_LENGTH && StageOf(s.actors[id].address) < 0x8000
    requires s.actors[id].mailbox != []
    ensures id in Absorb(s, id, w).actors && Onward(s, AfterWork(s, id, w))
  {
    hide Inv, Works, StageOf, Cancelled, CancelUnder, AllUnder, Work;
    AbsorbInv(plan, s, id, w);
    AbsorbKeeps(s, id, w);
    AbsorbTrace(s, id, w);
    var t := Absorb(s, id, w);
    OnwardSame(s, t);
    if w.flag == CancelMe {
      OnlyChild(plan, t, id);
      OnwardCancel(plan, t, {id}, s.actors[id].address, [id]);
      OnwardStep(s, t, CancelUnder(t, s.actors[id].address, [id]));
    }
  }

  lemma AbsorbTrace(s: Flow, id: nat, w: Outcome)
    requires id in s.actors && s.actors[id].mailbox != [] && |s.actors[id].address| == ADDRESS_LENGTH
    requires StageOf(s.actors[id].address) < 0x8000
    ensures s.trace <= Absorb(s, id, w).trace
  {
  }

  // ---------------------------------------------------------------- what a state with cancellations in its mail means

  /** The stages once the scopes in the mail are cancelled: each if anything is stored when its turn comes. */
  ghost function Trim(plan: Plan, vs: seq<View>, ms: seq<Message>, started: bool): (ws: seq<View>)
    requires |vs| < 0x10000
    ensures |ws| == |vs|
    decreases |ms|
  {
    if ms == [] then vs
    else
      match ms[0]
      case User(_, _) => Trim(plan, vs, ms[1..], true)
      case CancelScope(p) =>
        Trim(plan, if Inside(plan, p) && started then Sever(plan, vs, p) else vs, ms[1..], started)
      case Other => Trim(plan, vs, ms[1..], started)
  }

  /** Everything printed so far, and all that will be, cancellations in the mail taken into account. */
  ghost function Foretold(plan: Plan, s: Flow): seq<LightNode>
    requires PlanFits(plan)
  {
    s.output + Printed(plan.graph, Trim(plan, Views(plan, s), s.mailbox, Started(s)))
  }

  lemma {:induction false} TrimNothing(plan: Plan, vs: seq<View>, ms: seq<Message>, started: bool)
    requires |vs| < 0x10000 && NoCancels(ms)
    ensures Trim(plan, vs, ms, started) == vs
    decreases |ms|
  {
    if ms != [] {
      assert ms[0] in ms;
      TrimNothing(plan, vs, ms[1..], started || ms[0].User?);
    }
  }

  /** Without a cancellation in the mail it is the meaning. */
  lemma ForetoldMeans(plan: Plan, s: Flow)
    requires PlanFits(plan) && NoCancels(s.mailbox)
    ensures Foretold(plan, s) == Meaning(plan, s)
  {
    hide Views, Printed, Trim;
    TrimNothing(plan, Views(plan, s), s.mailbox, Started(s));
  }

  /** Nothing has happened but routing: the same meaning, the same work left, no one more on the way out. */
  ghost predicate Unmoved(plan: Plan, s: Flow, s': Flow) {
    && PlanFits(plan) && Meaning(plan, s') == Meaning(plan, s) && Left(plan, s') == Left(plan, s)
    && s'.terminating == s.terminating && Closes(plan, s, s')
  }

  lemma SkipKeeps(plan: Plan, s: Flow)
    requires Inv(plan, s, {}) && s.mailbox != [] && !s.mailbox[0].User?
    ensures Inv(plan, s.(mailbox := s.mailbox[1..]), {}) && Unmoved(plan, s, s.(mailbox := s.mailbox[1..]))
  {
    hide ActorFits, BoundFits, TasksFit, PastFits, TraceFits, Cancelled, Views, Printed, WorkLeft, Closes;
    HeadFits(plan, s.mailbox);
    MailInv(plan, s, {}, s.mailbox[1..]);
    DropViews(plan, s, {});
    ClosesSame(plan, s, s.(mailbox := s.mailbox[1..]));
  }

  // The three ways in which a message is processed.

  lemma UserProcessed(plan: Plan, s: Flow)
    requires Inv(plan, s, {}) && s.mailbox != [] && s.mailbox[0].User?
    ensures IsStage(plan, s.mailbox[0].address) && |s.mailbox[0].address| == ADDRESS_LENGTH
    ensures TreeFits(plan, s.(mailbox := s.mailbox[1..]))
    ensures var s' := Deliver(plan, s.(mailbox := s.mailbox[1..]), s.mailbox[0].address, s.mailbox[0].payload);
            && Inv(plan, s', {}) && Unmoved(plan, s, s') && s'.mailbox == s.mailbox[1..]
            && Foretold(plan, s') == Foretold(plan, s) && Onward(s, s') && Started(s')
  {
    hide ActorsFit, TreeFits, TasksFit, PastFits, TraceFits, MailFits, Cancelled, Views, Meaning, Left, Enqueue, Create,
         StageOf, Printed, Onward, Started, Deliver, Closes;
    DeliverKeeps(plan, s);
    var s0 := s.(mailbox := s.mailbox[1..]);
    var s' := Deliver(plan, s0, s.mailbox[0].address, s.mailbox[0].payload);
    AlikeMeans(plan, s, s');
    OnwardDeliver(plan, s0, s.mailbox[0].address, s.mailbox[0].payload);
    OnwardSame(s, s0);
    OnwardStep(s, s0, s');
  }

  lemma ScopeStarts(plan: Plan, s: Flow)
    requires Inv(plan, s, {}) && s.mailbox != [] && s.mailbox[0].CancelScope?
    ensures |s.mailbox[0].prefix| <= ADDRESS_LENGTH
    ensures Inv(plan, s.(mailbox := s.mailbox[1..]), {}) && TreeFits(plan, s.(mailbox := s.mailbox[1..]))
  {
    hide ActorFits, BoundFits, TasksFit, PastFits, TraceFits, Cancelled;
    HeadFits(plan, s.mailbox);
    MailInv(plan, s, {}, s.mailbox[1..]);
  }

  lemma ScopeProcessed(plan: Plan, s: Flow, p: Key, ids: seq<nat>)
    requires Inv(plan, s, {}) && s.mailbox != [] && s.mailbox[0] == CancelScope(p) && Inside(plan, p)
    requires AllUnder(s.(mailbox := s.mailbox[1..]), p, ids)
    ensures forall id | id in ids :: id in s.actors
    ensures var s' := CutScope(s.(mailbox := s.mailbox[1..]), p, ids);
            && Inv(plan, s', {}) && s'.mailbox == s.mailbox[1..] && Foretold(plan, s') == Foretold(plan, s)
            && Onward(s, s') && (Started(s') <==> Started(s))
            && (Cancelled(s'.tags, p) <==> Started(s))
            && s'.trace == (if Started(s) then s.trace + [Cut(p)] else s.trace)
            && (!Started(s) ==> s' == s.(mailbox := s.mailbox[1..]))
  {
    hide Inv, Cancelled, AllUnder, CancelUnder, Views, Printed, Onward;
    ScopeStarts(plan, s);
    var s0 := s.(mailbox := s.mailbox[1..]);
    PlanOf(plan, s0, {});
    CutKeeps(plan, s0, p, ids);
    OnwardCancel(plan, s0, {}, p, ids);
    OnwardSame(s, s0);
    OnwardSame(CancelUnder(s0, p, ids), CutScope(s0, p, ids));
    OnwardStep(s, s0, CancelUnder(s0, p, ids));
    OnwardStep(s, CancelUnder(s0, p, ids), CutScope(s0, p, ids));
    DropViews(plan, s, {});
    TrimScope(plan, Views(plan, s), s.mailbox, Started(s));
    if Started(s) {
      CancelViews(plan, s0, p, ids);
      TraceViews(plan, CancelUnder(s0, p, ids), CutScope(s0, p, ids));
    }
  }

  lemma TraceViews(plan: Plan, s: Flow, s': Flow)
    requires PlanFits(plan) && s' == s.(trace := s'.trace)
    ensures Views(plan, s') == Views(plan, s)
  {
    hide Cancelled, Scoped, InFlight;
    SameViews(plan, s, s');
  }

  lemma TrimScope(plan: Plan, vs: seq<View>, ms: seq<Message>, started: bool)
    requires |vs| < 0x10000 && ms != [] && ms[0].CancelScope?
    ensures Trim(plan, vs, ms, started)
         == Trim(plan, if Inside(plan, ms[0].prefix) && started then Sever(plan, vs, ms[0].prefix) else vs,
                 ms[1..], started)
  {
  }

  lemma SkipProcessed(plan: Plan, s: Flow)
    requires Inv(plan, s, {}) && s.mailbox != [] && !s.mailbox[0].User?
    requires s.mailbox[0].CancelScope? ==> !Inside(plan, s.mailbox[0].prefix)
    ensures var s' := s.(mailbox := s.mailbox[1..]);
            && Inv(plan, s', {}) && Unmoved(plan, s, s') && Foretold(plan, s') == Foretold(plan, s)
            && Onward(s, s') && (Started(s') <==> Started(s))
  {
    hide Inv, Cancelled, Unmoved, Views, Printed, Onward;
    SkipKeeps(plan, s);
    PlanOf(plan, s, {});
    DropViews(plan, s, {});
    OnwardSame(s, s.(mailbox := s.mailbox[1..]));
  }

  // ---------------------------------------------------------------- the end

  /** Nothing queued, nothing in the mail. */
  ghost predicate Idle(s: Flow) {
    s.mailbox == [] && s.tasks == []
  }

  /** In an idle state no actor has mail or is on its way out, and everything has been printed. */
  lemma Quiescent(plan: Plan, s: Flow)
    requires Inv(plan, s, {}) && Idle(s)
    ensures forall id :: id in s.actors ==>
              s.actors[id].mailbox == [] && !s.actors[id].terminating && !s.actors[id].active
    ensures s.terminating == 0 && s.stopped == Members(s.deleted) && Distinct(s.deleted)
    ensures Meaning(plan, s) == s.output
  {
    hide BoundFits, TraceFits, MailFits, Cancelled, OpOf, IsStage, Scoped;
    forall id | id in s.actors ensures s.actors[id].mailbox == [] && !s.actors[id].terminating && !s.actors[id].active {
      assert ActorFits(plan, s, {}, id);
    }
    assert Leaving(s.actors) == {};
    IdleViews(plan, s);
    IdlePrinted(plan.graph, Views(plan, s));
    assert s.output + [] == s.output;
  }

  lemma IdleViews(plan: Plan, s: Flow)
    requires PlanFits(plan) && s.mailbox == []
    requires forall id :: id in s.actors ==> s.actors[id].mailbox == []
    ensures forall i :: 0 <= i <= plan.hops ==> Views(plan, s)[i].Here? ==> Views(plan, s)[i].queue == []
  {
    hide Cancelled, Scoped;
  }

  // ---------------------------------------------------------------- a query

  /** Inputs in batches and the end of the stream, on their way to the first stage of a new dataflow. */
  ghost predicate Queried(plan: Plan, s: Flow, ds: seq<seq<LightNode>>) {
    && PlanFits(plan) && s.mailbox == Posted(Address(plan, 0), Stream(ds))
    && s.actors == map[] && s.bound == map[] && s.tags == {} && s.output == []
  }

  lemma QueriedInitial(plan: Plan, s: Flow, ds: seq<seq<LightNode>>)
    requires Queried(plan, s, ds)
    ensures Initial(Views(plan, s), plan.hops, plan.limit, ds)
  {
    hide Stream, Concat, Scoped, StageOf, NewOp;
    var vs := Views(plan, s);
    forall i | 0 <= i <= plan.hops
      ensures vs[i] == Here(NewOp(i, plan.hops, plan.limit), if i == 0 then Stream(ds) else [])
    {
      InFlightPosted(Address(plan, 0), Stream(ds), Address(plan, i));
      AddressStage(plan, i);
      AddressStage(plan, 0);
    }
  }

  /** What a query means: the first `limit` results of all hops over all inputs, in order. */
  lemma QueryMeans(plan: Plan, s: Flow, ds: seq<seq<LightNode>>)
    requires Queried(plan, s, ds)
    ensures var all := Hops(plan.graph, plan.hops, Concat(ds));
            Meaning(plan, s) == all[..Min(|all|, plan.limit)]
  {
    hide Printed, Stream, Hops, Concat, Initial, Views;
    QueriedInitial(plan, s, ds);
    PipelineResult(plan.graph, Views(plan, s), plan.hops, plan.limit, ds);
    assert [] + Printed(plan.graph, Views(plan, s)) == Printed(plan.graph, Views(plan, s));
  }

  /** In an idle state every stage that was going to end is covered and unbound; a LIMIT of zero is not covered. */
  lemma StagesEnded(plan: Plan, s: Flow, s': Flow, i: nat)
    requires Inv(plan, s', {}) && Idle(s') && Closes(plan, s, s') && i <= plan.hops
    ensures Ending(plan.graph, Views(plan, s), i) ==>
              Cancelled(s'.tags, Address(plan, i)) && Address(plan, i) !in s'.bound
    ensures Endless(Views(plan, s)[i]) ==> !Cancelled(s'.tags, Address(plan, i))
  {
    hide Cancelled, Ending, ActorsFit, TasksFit, PastFits, TraceFits, MailFits, InFlight, Scoped;
    assert ViewOf(plan, s', i) == Views(plan, s')[i];
    if Address(plan, i) in s'.bound { BoundIs(plan, s', Address(plan, i)); }
    if Ending(plan.graph, Views(plan, s), i) {
      IdleQueues(plan, s');
      IdleGone(plan.graph, Views(plan, s'), i);
    }
  }

  lemma IdleQueues(plan: Plan, s: Flow)
    requires Inv(plan, s, {}) && Idle(s)
    ensures forall i :: 0 <= i <= plan.hops ==> Views(plan, s)[i].Here? ==> Views(plan, s)[i].queue == []
  {
    hide Views, Inv;
    Quiescent(plan, s);
    PlanOf(plan, s, {});
    IdleViews(plan, s);
  }

  /**
    What a query leaves: every OUT stage has ended, its address is covered and its actor gone; the LIMIT
    likewise, unless its limit is zero.
   */
  lemma QueryEnds(plan: Plan, s: Flow, ds: seq<seq<LightNode>>, s': Flow)
    requires Queried(plan, s, ds) && Inv(plan, s', {}) && Idle(s') && Closes(plan, s, s')
    ensures forall i: nat | i < plan.hops :: Cancelled(s'.tags, Address(plan, i)) && Address(plan, i) !in s'.bound
    ensures Cancelled(s'.tags, Address(plan, plan.hops)) <==> plan.limit > 0
    ensures forall id | id in s'.actors :: s'.actors[id].op.Limit? && plan.limit == 0
    ensures plan.limit > 0 ==> s'.actors == map[] && s'.bound == map[]
  {
    hide Cancelled, Ending, Endless, Closes, Inv, Initial, Views, Address, Stream, Concat, OpOf, IsStage;
    QueriedInitial(plan, s, ds);
    forall i: nat | i <= plan.hops
      ensures Cancelled(s'.tags, Address(plan, i)) <==> i < plan.hops || plan.limit > 0
      ensures i < plan.hops ==> Address(plan, i) !in s'.bound
    {
      InitialEnding(plan.graph, Views(plan, s), plan.hops, plan.limit, ds, i);
      StagesEnded(plan, s, s', i);
    }
    forall id | id in s'.actors ensures s'.actors[id].op.Limit? && plan.limit == 0 { Survivor(plan, s', id); }
    forall a | a in s'.bound ensures s'.bound[a] in s'.actors { TreeOf(plan, s', a); }
  }

  lemma TreeOf(plan: Plan, s: Flow, a: Key)
    requires Inv(plan, s, {}) && a in s.bound
    ensures s.bound[a] in s.actors
  {
    hide ActorsFit, TasksFit, PastFits, TraceFits, MailFits, Cancelled, IsStage;
    assert BoundFits(plan, s, a);
  }

  /** Whoever is left when all is idle sits at the address of a stage that has not ended. */
  lemma Survivor(plan: Plan, s: Flow, id: nat)
    requires Inv(plan, s, {}) && Idle(s) && id in s.actors
    ensures var i := StageOf(s.actors[id].address);
            i <= plan.hops && !Cancelled(s.tags, Address(plan, i)) && (s.actors[id].op.Limit? <==> i == plan.hops)
  {
    hide TasksFit, PastFits, TraceFits, MailFits, Cancelled, StageOf, Scoped;
    assert ActorFits(plan, s, {}, id);
    StageAddress(plan, s.actors[id].address);
    BoundIs(plan, s, s.actors[id].address);
  }

  lemma UnmovedStart(plan: Plan, s: Flow)
    requires PlanFits(plan)
    ensures Unmoved(plan, s, s)
  {
    hide Closes;
    ClosesSame(plan, s, s);
  }

  lemma UnmovedStep(plan: Plan, s: Flow, t: Flow, u: Flow)
    requires Unmoved(plan, s, t) && Unmoved(plan, t, u)
    ensures Unmoved(plan, s, u)
  {
    hide Meaning, Left, Closes;
    ClosesStep(plan, s, t, u);
  }

  /** Progress of an actor's run: work was used up, or a terminating actor is gone. */
  ghost predicate Progress(plan: Plan, s: Flow, s': Flow) {
    && PlanFits(plan) && Meaning(plan, s') == Meaning(plan, s) && Closes(plan, s, s')
    && (Left(plan, s') < Left(plan, s) || (Left(plan, s') == Left(plan, s) && s'.terminating < s.terminating))
  }

  lemma ProgressAfter(plan: Plan, s: Flow, t: Flow, u: Flow)
    requires (Unmoved(plan, s, t) || Progress(plan, s, t)) && Progress(plan, t, u)
    ensures Progress(plan, s, u)
  {
    hide Meaning, Left, Closes;
    ClosesStep(plan, s, t, u);
  }

  lemma TaskTaken(plan: Plan, s: Flow)
    requires Inv(plan, s, {}) && s.tasks != []
    ensures Unmoved(plan, s, s.(tasks := s.tasks[1..]))
  {
    hide Views, Printed, WorkLeft, Inv, Closes;
    assert PlanFits(plan) by { PlanOf(plan, s, {}); }
    TaskViews(plan, s, s.tasks[1..]);
    ClosesSame(plan, s, s.(tasks := s.tasks[1..]));
  }

  lemma PlanOf(plan: Plan, s: Flow, running: set<nat>)
    requires Inv(plan, s, running)
    ensures PlanFits(plan) && MailFits(plan, s.mailbox) && TreeFits(plan, s) && s.terminating >= 0 && Safe(s.trace)
  {
  }

  /** The end of a run, whichever way it ends. */
  lemma RunEnds(plan: Plan, s: Flow, id: nat)
    requires Inv(plan, s, {id}) && id in s.actors && (!s.actors[id].terminating ==> OpOf(plan, s.actors[id]))
    ensures var s' := if s.actors[id].terminating then Finish(s, id) else Rest(s, id);
            && Inv(plan, s', {}) && Meaning(plan, s') == Meaning(plan, s) && Left(plan, s') == Left(plan, s)
            && s'.terminating == s.terminating - (if s.actors[id].terminating then 1 else 0)
            && s'.mailbox == s.mailbox && Onward(s, s') && Closes(plan, s, s')
  {
    hide Views, Printed, WorkLeft, Inv, OpOf, Onward, Closes;
    OnwardSame(s, if s.actors[id].terminating then Finish(s, id) else Rest(s, id));
    PlanOf(plan, s, {id});
    if s.actors[id].terminating {
      FinishInv(plan, s, id);
      FinishViews(plan, s, id);
      ClosesSame(plan, s, Finish(s, id));
    } else {
      RestInv(plan, s, id);
      RestViews(plan, s, id);
      ClosesSame(plan, s, Rest(s, id));
    }
  }

  // ---------------------------------------------------------------- which cancellations take effect

  /** Among the first `n` messages is one for a child; what it creates or finds stays stored. */
  ghost predicate UserWithin(ms: seq<Message>, n: nat) {
    exists j :: 0 <= j < n && j < |ms| && ms[j].User?
  }

  /** The `k`-th message cancels the scope `p` inside the dataflow, and anything is stored when its turn comes. */
  ghost predicate Due(plan: Plan, started: bool, ms: seq<Message>, k: nat, p: Key) {
    && k < |ms| && ms[k] == CancelScope(p) && Inside(plan, p)
    && (started || UserWithin(ms, k))
  }

  /** Of the first `n` messages all cancellations that are due have been recorded. */
  ghost predicate Recorded(plan: Plan, started: bool, ms: seq<Message>, n: nat, trace: seq<Event>) {
    forall k: nat, p | k < n && Due(plan, started, ms, k, p) :: Cut(p) in trace
  }

  lemma RecordedNone(plan: Plan, started: bool, ms: seq<Message>, trace: seq<Event>)
    ensures Recorded(plan, started, ms, 0, trace) && !UserWithin(ms, 0)
  {
  }

  /** One message more. */
  lemma RecordedStep(plan: Plan, started: bool, ms: seq<Message>, n: nat, s: Flow, s': Flow)
    requires n < |ms| && s.mailbox == ms[n..] && Recorded(plan, started, ms, n, s.trace) && s.trace <= s'.trace
    requires Started(s) <==> started || UserWithin(ms, n)
    requires s.mailbox[0].User? ==> Started(s')
    requires !s.mailbox[0].User? ==> (Started(s') <==> Started(s))
    requires forall p | s.mailbox[0] == CancelScope(p) && Inside(plan, p) && Started(s) :: Cut(p) in s'.trace
    ensures Recorded(plan, started, ms, n + 1, s'.trace)
    ensures Started(s') <==> started || UserWithin(ms, n + 1)
  {
    hide Started, Inside;
    assert s.mailbox[0] == ms[n];
    forall k: nat, p | k < n + 1 && Due(plan, started, ms, k, p) ensures Cut(p) in s'.trace {
      if k < n { assert Cut(p) in s.trace; } else { assert k == n; }
    }
    if ms[n].User? { assert UserWithin(ms, n + 1); }
    if UserWithin(ms, n + 1) && !ms[n].User? {
      var j :| 0 <= j < n + 1 && j < |ms| && ms[j].User?;
      assert j < n;
    }
    if UserWithin(ms, n) {
      var j :| 0 <= j < n && j < |ms| && ms[j].User?;
    }
  }

  lemma RecordedOn(plan: Plan, started: bool, ms: seq<Message>, n: nat, trace: seq<Event>, trace': seq<Event>)
    requires Recorded(plan, started, ms, n, trace) && trace <= trace'
    ensures Recorded(plan, started, ms, n, trace')
  {
    hide Due;
    forall k: nat, p | k < n && Due(plan, started, ms, k, p) ensures Cut(p) in trace' { assert Cut(p) in trace; }
  }

  /** In an idle state the addresses under a recorded cancellation are covered, and no child under it is left. */
  lemma CutsHold(plan: Plan, s: Flow)
    requires Inv(plan, s, {}) && Idle(s)
    ensures forall p, a | Cut(p) in s.trace && p <= a :: Cancelled(s.tags, a)
    ensures forall p, id | Cut(p) in s.trace && id in s.actors :: !(p <= s.actors[id].address)
  {
    hide Inv, Cancelled;
    Quiescent(plan, s);
    forall p, a | Cut(p) in s.trace && p <= a ensures Cancelled(s.tags, a) {
      CutCovered(plan, s, p);
      CancelledBelow(s.tags, p, a);
    }
    forall p, id | Cut(p) in s.trace && id in s.actors && p <= s.actors[id].address ensures false {
      CutForGood(plan, s, {}, p, id);
    }
  }

  lemma CutCovered(plan: Plan, s: Flow, p: Key)
    requires Inv(plan, s, {}) && Cut(p) in s.trace
    ensures Cancelled(s.tags, p)
  {
    hide ActorsFit, TreeFits, TasksFit, PastFits, MailFits, Cancelled, Safe;
    assert Cut(p).Cut?;
  }
}

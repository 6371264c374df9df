/**
  A dataflow seen as a chain of stages. Delivering mail, queueing, resting and deleting actors are
  invisible in that view; `do_work` is the one step that changes it.
 */
module FlowViews {
  import opened Bytes
  import opened Operators
  import opened Pipelines
  import opened Scopes
  import opened Flows
  import opened FlowInvariants

  /** Payloads in the mail for one address, oldest first. */
  ghost function InFlight(ms: seq<Message>, a: Key): seq<Payload> {
    if ms == [] then [] else Bound(ms[0], a) + InFlight(ms[1..], a)
  }

  /** The payload of a message for the address. */
  function Bound(m: Message, a: Key): seq<Payload> {
    if m.User? && m.address == a then [m.payload] else []
  }

  lemma {:induction false} InFlightConcat(ms: seq<Message>, more: seq<Message>, a: Key)
    ensures InFlight(ms + more, a) == InFlight(ms, a) + InFlight(more, a)
    decreases |ms|
  {
    hide Bound;
    if ms == [] {
      assert ms + more == more;
    } else {
      InFlightConcat(ms[1..], more, a);
      Associative(Bound(ms[0], a), InFlight(ms[1..], a), InFlight(more, a));
      assert (ms + more)[0] == ms[0] && (ms + more)[1..] == ms[1..] + more;
    }
  }

  lemma {:induction false} InFlightPosted(to: Key, ps: seq<Payload>, a: Key)
    ensures InFlight(Posted(to, ps), a) == if a == to then ps else []
    decreases |ps|
  {
    if ps != [] {
      InFlightPosted(to, ps[1..], a);
      assert Posted(to, ps)[1..] == Posted(to, ps[1..]);
      assert ps == [ps[0]] + ps[1..];
    }
  }

  ghost function ViewOf(plan: Plan, s: Flow, i: nat): View
    requires i < 0x10000
  {
    var a := Address(plan, i);
    if Cancelled(s.tags, a) then Gone
    else if a in s.bound && s.bound[a] in s.actors then
      Here(s.actors[s.bound[a]].op, s.actors[s.bound[a]].mailbox + InFlight(s.mailbox, a))
    else Here(NewOp(i, plan.hops, plan.limit), InFlight(s.mailbox, a))
  }

  ghost function Views(plan: Plan, s: Flow): (vs: seq<View>)
    requires PlanFits(plan)
    ensures |vs| == plan.hops + 1 && forall i :: 0 <= i <= plan.hops ==> vs[i] == ViewOf(plan, s, i)
  {
    seq(plan.hops + 1, i requires 0 <= i <= plan.hops => ViewOf(plan, s, i))
  }

  lemma SameViews(plan: Plan, s: Flow, s': Flow)
    requires PlanFits(plan) && forall i | 0 <= i <= plan.hops :: ViewOf(plan, s', i) == ViewOf(plan, s, i)
    ensures Views(plan, s') == Views(plan, s)
  {
    hide ViewOf;
  }

  /** Only the parts named here matter to the view. */
  lemma ViewSame(plan: Plan, s: Flow, s': Flow, i: nat)
    requires i < 0x10000 && s'.tags == s.tags && s'.bound == s.bound
    requires InFlight(s'.mailbox, Address(plan, i)) == InFlight(s.mailbox, Address(plan, i))
    requires Address(plan, i) in s.bound ==>
               var id := s.bound[Address(plan, i)];
               && id in s.actors && id in s'.actors
               && s'.actors[id].op == s.actors[id].op && s'.actors[id].mailbox == s.actors[id].mailbox
    ensures ViewOf(plan, s', i) == ViewOf(plan, s, i)
  {
    hide Cancelled, Scoped;
  }

  /** A message that is no child's is dropped. */
  lemma DropViews(plan: Plan, s: Flow, running: set<nat>)
    requires Inv(plan, s, running) && s.mailbox != []
    requires s.mailbox[0].User? ==> Cancelled(s.tags, s.mailbox[0].address)
    ensures Views(plan, s.(mailbox := s.mailbox[1..])) == Views(plan, s)
  {
    hide ActorFits, MailFits, TasksFit, PastFits, TraceFits, Cancelled, Scoped;
    var s' := s.(mailbox := s.mailbox[1..]);
    forall i | 0 <= i <= plan.hops ensures ViewOf(plan, s', i) == ViewOf(plan, s, i) {
      if Address(plan, i) in s.bound { assert BoundFits(plan, s, Address(plan, i)); }
    }
    SameViews(plan, s, s');
  }

  /** A message moves from the dataflow's mailbox to the child's. */
  lemma EnqueueViews(plan: Plan, s: Flow)
    requires Inv(plan, s, {}) && s.mailbox != [] && s.mailbox[0].User? && s.mailbox[0].address in s.bound
    ensures s.bound[s.mailbox[0].address] in s.actors
    ensures var s0 := s.(mailbox := s.mailbox[1..]);
            Views(plan, Enqueue(s0, s.bound[s.mailbox[0].address], s.mailbox[0].payload)) == Views(plan, s)
  {
    hide ActorFits, MailFits, TasksFit, PastFits, TraceFits, BoundFits, ViewOf;
    var m := s.mailbox[0];
    assert BoundFits(plan, s, m.address);
    BoundIs(plan, s, m.address);
    var s' := Enqueue(s.(mailbox := s.mailbox[1..]), s.bound[m.address], m.payload);
    forall i | 0 <= i <= plan.hops ensures ViewOf(plan, s', i) == ViewOf(plan, s, i) {
      EnqueueView(plan, s, i);
    }
    SameViews(plan, s, s');
  }

  lemma BoundIs(plan: Plan, s: Flow, a: Key)
    requires a in s.bound && BoundFits(plan, s, a)
    ensures s.bound[a] in s.actors && s.actors[s.bound[a]].address == a && !s.actors[s.bound[a]].terminating
    ensures !Cancelled(s.tags, a) && IsStage(plan, a)
  {
  }

  lemma EnqueueView(plan: Plan, s: Flow, i: nat)
    requires TreeFits(plan, s) && s.mailbox != [] && s.mailbox[0].User? && s.mailbox[0].address in s.bound
    requires i < 0x10000 && s.bound[s.mailbox[0].address] in s.actors
    ensures var s0 := s.(mailbox := s.mailbox[1..]);
            ViewOf(plan, Enqueue(s0, s.bound[s.mailbox[0].address], s.mailbox[0].payload), i) == ViewOf(plan, s, i)
  {
    hide Cancelled, Scoped, IsStage;
    var m, b := s.mailbox[0], Address(plan, i);
    assert BoundFits(plan, s, m.address);
    if b in s.bound { assert BoundFits(plan, s, b); }
    if b == m.address {
      Associative(s.actors[s.bound[b]].mailbox, [m.payload], InFlight(s.mailbox[1..], b));
    }
  }

  /** A new child starts as the view already had it. */
  lemma CreateViews(plan: Plan, s: Flow, a: Key)
    requires Inv(plan, s, {}) && IsStage(plan, a) && a !in s.bound && !Cancelled(s.tags, a)
    ensures Views(plan, Create(plan, s, a)) == Views(plan, s)
  {
    hide ActorFits, MailFits, TasksFit, PastFits, TraceFits, ViewOf;
    var s' := Create(plan, s, a);
    if s.next in s.actors { KnownBefore(plan, s, {}, s.next); }
    forall i | 0 <= i <= plan.hops ensures ViewOf(plan, s', i) == ViewOf(plan, s, i) { CreateView(plan, s, a, i); }
    SameViews(plan, s, s');
  }

  lemma CreateView(plan: Plan, s: Flow, a: Key, i: nat)
    requires PlanFits(plan) && TreeFits(plan, s) && IsStage(plan, a) && a !in s.bound && i <= plan.hops
    requires s.next !in s.actors
    ensures ViewOf(plan, Create(plan, s, a), i) == ViewOf(plan, s, i)
  {
    hide Cancelled, Scoped, InFlight, NewOp, IsStage;
    var b := Address(plan, i);
    AddressStage(plan, i);
    if b in s.bound { assert BoundFits(plan, s, b); }
    if b == a { assert [] + InFlight(s.mailbox, b) == InFlight(s.mailbox, b); }
  }

  lemma FinishViews(plan: Plan, s: Flow, id: nat)
    requires Inv(plan, s, {id}) && id in s.actors && s.actors[id].terminating
    ensures Views(plan, Finish(s, id)) == Views(plan, s)
  {
    hide ActorFits, MailFits, TasksFit, PastFits, TraceFits, Cancelled, Scoped, InFlight, ViewOf;
    var s' := Finish(s, id);
    forall i | 0 <= i <= plan.hops ensures ViewOf(plan, s', i) == ViewOf(plan, s, i) {
      if Address(plan, i) in s.bound { assert BoundFits(plan, s, Address(plan, i)); }
      ViewSame(plan, s, s', i);
    }
    SameViews(plan, s, s');
  }

  lemma RestViews(plan: Plan, s: Flow, id: nat)
    requires Inv(plan, s, {id}) && id in s.actors
    ensures Views(plan, Rest(s, id)) == Views(plan, s)
  {
    hide ActorFits, MailFits, TasksFit, PastFits, TraceFits, Cancelled, Scoped, InFlight, ViewOf;
    var s' := Rest(s, id);
    forall i | 0 <= i <= plan.hops ensures ViewOf(plan, s', i) == ViewOf(plan, s, i) {
      if Address(plan, i) in s.bound { assert BoundFits(plan, s, Address(plan, i)); }
      ViewSame(plan, s, s', i);
    }
    SameViews(plan, s, s');
  }

  lemma TaskViews(plan: Plan, s: Flow, tasks: seq<nat>)
    requires PlanFits(plan)
    ensures Views(plan, s.(tasks := tasks)) == Views(plan, s)
  {
    hide Cancelled, Scoped, InFlight;
    SameViews(plan, s, s.(tasks := tasks));
  }

  // ---------------------------------------------------------------- work

  /** The running actor's stage, and that it can work on what heads its queue. */
  lemma RunningView(plan: Plan, s: Flow, id: nat, w: Outcome)
    requires Inv(plan, s, {id}) && id in s.actors && !s.actors[id].terminating && Works(plan, s.actors[id], w)
    ensures var a := s.actors[id];
            && StageOf(a.address) <= plan.hops && Address(plan, StageOf(a.address)) == a.address
            && ViewOf(plan, s, StageOf(a.address)) == Here(a.op, a.mailbox + InFlight(s.mailbox, a.address))
            && CanWork(plan.graph, Views(plan, s), StageOf(a.address), w)
  {
    hide ActorFits, BoundFits, MailFits, TasksFit, PastFits, TraceFits, Cancelled, Scoped, InFlight, Work, StageOf,
         Works, OpFits, ViewOf;
    UncoveredRunning(plan, s, id);
    var a := s.actors[id];
    StageAddress(plan, a.address);
    ViewHere(plan, s, StageOf(a.address), id);
    WorksHere(plan, a, w);
    ViewsShape(plan, s, id);
    TailOfConcat(a.mailbox, InFlight(s.mailbox, a.address));
  }

  lemma WorksHere(plan: Plan, a: Actor, w: Outcome)
    requires Works(plan, a, w)
    ensures a.mailbox != [] && w == Work(plan.graph, a.op, a.mailbox[0]) && OpOf(plan, a)
  {
    hide Work, OpOf;
  }

  lemma ViewHere(plan: Plan, s: Flow, i: nat, id: nat)
    requires i < 0x10000 && Address(plan, i) in s.bound && s.bound[Address(plan, i)] == id && id in s.actors
    requires !Cancelled(s.tags, Address(plan, i))
    ensures ViewOf(plan, s, i) == Here(s.actors[id].op, s.actors[id].mailbox + InFlight(s.mailbox, Address(plan, i)))
  {
    hide InFlight, Scoped;
  }

  lemma ViewsShape(plan: Plan, s: Flow, id: nat)
    requires Inv(plan, s, {id}) && id in s.actors && OpOf(plan, s.actors[id])
    ensures Shape(Views(plan, s))
  {
    hide ActorFits, BoundFits, MailFits, TasksFit, PastFits, TraceFits, Cancelled, Scoped, InFlight, StageOf, OpOf,
         OpFits, ViewOf;
    var vs := Views(plan, s);
    forall i | 0 <= i < |vs| ensures vs[i].Here? ==> OpFits(vs[i].op, i == |vs| - 1) { ViewFits(plan, s, {id}, i); }
  }

  lemma ViewFits(plan: Plan, s: Flow, running: set<nat>, i: nat)
    requires Inv(plan, s, running) && i <= plan.hops
    requires forall id | id in running && id in s.actors :: OpOf(plan, s.actors[id])
    ensures ViewOf(plan, s, i).Here? ==> OpFits(ViewOf(plan, s, i).op, i == plan.hops)
  {
    hide MailFits, TasksFit, PastFits, TraceFits, Cancelled, Scoped, InFlight, StageOf;
    AddressStage(plan, i);
    var a := Address(plan, i);
    if a in s.bound {
      assert BoundFits(plan, s, a);
      assert ActorFits(plan, s, running, s.bound[a]);
    }
  }

  /** The actor `id` runs stage `i`, and `w` is what its next `do_work` does. */
  ghost predicate Runs(plan: Plan, s: Flow, id: nat, i: nat, w: Outcome) {
    && PlanFits(plan) && id in s.actors && |s.actors[id].address| == ADDRESS_LENGTH && i < 0x8000
    && i == StageOf(s.actors[id].address) && s.actors[id].mailbox != []
    && CanWork(plan.graph, Views(plan, s), i, w)
  }

  lemma RunsNow(plan: Plan, s: Flow, id: nat, w: Outcome) returns (i: nat)
    requires Inv(plan, s, {id}) && id in s.actors && !s.actors[id].terminating && Works(plan, s.actors[id], w)
    ensures Runs(plan, s, id, i, w)
  {
    hide ActorFits, BoundFits, MailFits, TasksFit, PastFits, TraceFits, Cancelled, Scoped, InFlight, Work, Works,
         OpFits, ViewOf, Views;
    RunningView(plan, s, id, w);
    WorksStage(plan, s.actors[id], w);
    i := StageOf(s.actors[id].address);
  }

  /** `do_work` that goes on: its stage is one payload further, the next has what was sent. */
  lemma AbsorbViews(plan: Plan, s: Flow, id: nat, i: nat, w: Outcome)
    requires Inv(plan, s, {id}) && id in s.actors && !s.actors[id].terminating && Works(plan, s.actors[id], w)
    requires Runs(plan, s, id, i, w) && w.flag != CancelMe
    ensures Views(plan, Absorb(s, id, w)) == Pipelines.Worked(Views(plan, s), i, w)
  {
    hide ActorFits, BoundFits, MailFits, TasksFit, PastFits, TraceFits, Cancelled, Scoped, InFlight, Work, Works,
         OpFits, ViewOf;
    RunningView(plan, s, id, w);
    var vs, s' := Views(plan, s), Absorb(s, id, w);
    forall j | 0 <= j <= plan.hops ensures ViewOf(plan, s', j) == Pipelines.Worked(vs, i, w)[j] {
      AbsorbView(plan, s, id, w, j);
    }
    assert Views(plan, s') == Pipelines.Worked(vs, i, w);
  }

  lemma AbsorbFlight(plan: Plan, s: Flow, id: nat, w: Outcome, j: nat)
    requires PlanFits(plan) && id in s.actors && Works(plan, s.actors[id], w) && j <= plan.hops
    ensures |s.actors[id].address| == ADDRESS_LENGTH && StageOf(s.actors[id].address) < 0x8000
         && s.actors[id].mailbox != []
    ensures InFlight(Absorb(s, id, w).mailbox, Address(plan, j))
         == InFlight(s.mailbox, Address(plan, j)) + if j == StageOf(s.actors[id].address) + 1 then w.sent else []
  {
    hide Scoped, InFlight, StageOf, Works;
    WorksStage(plan, s.actors[id], w);
    PostedFits(plan, s.actors[id], w);
    var i := StageOf(s.actors[id].address);
    var to := Downstream(s.actors[id].address, i + 1);
    InFlightConcat(s.mailbox, Posted(to, w.sent), Address(plan, j));
    InFlightPosted(to, w.sent, Address(plan, j));
    StageKnown(plan, s.actors[id], w);
    AddressStage(plan, j);
    if i < plan.hops { AddressStage(plan, i + 1); }
  }

  lemma StageKnown(plan: Plan, a: Actor, w: Outcome)
    requires Works(plan, a, w)
    ensures IsStage(plan, a.address)
  {
  }

  lemma AbsorbView(plan: Plan, s: Flow, id: nat, w: Outcome, j: nat)
    requires Inv(plan, s, {id}) && id in s.actors && !s.actors[id].terminating && Works(plan, s.actors[id], w)
    requires w.flag != CancelMe && j <= plan.hops
    requires StageOf(s.actors[id].address) <= plan.hops
    requires var a := s.actors[id];
             && Address(plan, StageOf(a.address)) == a.address
             && ViewOf(plan, s, StageOf(a.address)) == Here(a.op, a.mailbox + InFlight(s.mailbox, a.address))
    ensures ViewOf(plan, Absorb(s, id, w), j) == Pipelines.Worked(Views(plan, s), StageOf(s.actors[id].address), w)[j]
  {
    hide ActorFits, MailFits, TasksFit, PastFits, TraceFits, Cancelled, Scoped, InFlight, StageOf, Works, IsStage, OpOf;
    AbsorbFlight(plan, s, id, w, j);
    UncoveredRunning(plan, s, id);
    AddressStage(plan, j);
    var a, i, b := s.actors[id], StageOf(s.actors[id].address), Address(plan, j);
    TailOfConcat(a.mailbox, InFlight(s.mailbox, a.address));
    if b in s.bound {
      assert BoundFits(plan, s, b);
      if j != i { Associative(s.actors[s.bound[b]].mailbox, InFlight(s.mailbox, b), w.sent); }
    }
  }

  /** The one child under a whole address. */
  lemma OnlyChild(plan: Plan, s: Flow, id: nat)
    requires Inv(plan, s, {id}) && id in s.actors && !s.actors[id].terminating
    ensures AllUnder(s, s.actors[id].address, [id])
  {
    hide ActorFits, MailFits, TasksFit, PastFits, TraceFits, Cancelled, StageOf;
    UncoveredRunning(plan, s, id);
    var a := s.actors[id].address;
    forall b | b in s.bound && a <= b ensures s.bound[b] in [id] {
      assert BoundFits(plan, s, b);
      assert a == b;
    }
    assert Under(s, a, id);
  }

  /** `do_work` that asks to be cancelled: its stage is gone for good. */
  lemma LastWorkViews(plan: Plan, s: Flow, id: nat, i: nat, w: Outcome)
    requires Inv(plan, s, {id}) && id in s.actors && !s.actors[id].terminating && Works(plan, s.actors[id], w)
    requires Runs(plan, s, id, i, w) && w.flag == CancelMe
    ensures Views(plan, CancelUnder(Absorb(s, id, w), s.actors[id].address, [id]))
         == Pipelines.Worked(Views(plan, s), i, w)
  {
    hide ActorFits, BoundFits, MailFits, TasksFit, PastFits, TraceFits, Cancelled, Scoped, InFlight, Work, Works,
         OpFits, ViewOf, Severed, CancelUnder, Absorb;
    RunningView(plan, s, id, w);
    AbsorbInv(plan, s, id, w);
    var t, a := Absorb(s, id, w), s.actors[id].address;
    AbsorbKeeps(s, id, w);
    OnlyChild(plan, t, id);
    CancelInv(plan, t, {id}, a, [id]);
    var vs, s' := Views(plan, s), CancelUnder(t, a, [id]);
    forall j | 0 <= j <= plan.hops ensures ViewOf(plan, s', j) == Pipelines.Worked(vs, i, w)[j] {
      LastWorkView(plan, s, id, i, w, t, StopAll(t, [id]), j, Pipelines.Worked(vs, i, w)[j]);
    }
    assert Views(plan, s') == Pipelines.Worked(vs, i, w);
  }

  lemma AbsorbKeeps(s: Flow, id: nat, w: Outcome)
    requires id in s.actors && s.actors[id].mailbox != [] && |s.actors[id].address| == ADDRESS_LENGTH
    requires StageOf(s.actors[id].address) < 0x8000
    ensures var t := Absorb(s, id, w);
            && t.bound == s.bound && t.tags == s.tags && t.actors.Keys == s.actors.Keys
            && t.actors[id].address == s.actors[id].address && t.actors[id].terminating == s.actors[id].terminating
            && forall j :: j in s.actors && j != id ==> t.actors[j] == s.actors[j]
  {
  }

  lemma LastWorkView(plan: Plan, s: Flow, id: nat, i: nat, w: Outcome, t: Flow, s1: Flow, j: nat, v: View)
    requires Runs(plan, s, id, i, w) && t == Absorb(s, id, w) && j <= plan.hops < 0x8000 && i <= plan.hops
    requires v == Pipelines.Worked(Views(plan, s), i, w)[j] && Address(plan, i) == s.actors[id].address
    requires w.flag == CancelMe && !s.actors[id].terminating && Works(plan, s.actors[id], w)
    requires Halts(t, [id], s1) && Inv(plan, s, {id})
    ensures ViewOf(plan, Severed(t, s1, s.actors[id].address), j) == v
  {
    hide ActorFits, MailFits, TasksFit, PastFits, TraceFits, Cancelled, Scoped, InFlight, StageOf, Works, IsStage, OpOf,
         CancelUnder, StopAll, Disable, Tagged;
    AbsorbFlight(plan, s, id, w, j);
    AbsorbKeeps(s, id, w);
    UncoveredRunning(plan, s, id);
    AddressStage(plan, j);
    var a, b := s.actors[id].address, Address(plan, j);
    TaggedCovers(s.tags, a, b);
    assert a <= b <==> a == b;
    if b in s.bound {
      assert BoundFits(plan, s, b);
      if a != b { Associative(s.actors[s.bound[b]].mailbox, InFlight(s.mailbox, b), w.sent); }
    }
  }

  // ---------------------------------------------------------------- cancelling a scope

  /** The stages under `p` are gone. */
  ghost function Sever(plan: Plan, vs: seq<View>, p: Key): (ws: seq<View>)
    requires |vs| < 0x10000
    ensures |ws| == |vs|
    ensures forall i :: 0 <= i < |vs| ==> ws[i] == if p <= Address(plan, i) then Gone else vs[i]
  {
    seq(|vs|, i requires 0 <= i < |vs| => if p <= Address(plan, i) then Gone else vs[i])
  }

  /** Cancelling a scope removes exactly the stages under it, if anything is stored at all. */
  lemma CancelViews(plan: Plan, s: Flow, p: Key, ids: seq<nat>)
    requires Inv(plan, s, {}) && AllUnder(s, p, ids) && !(s.bound == map[] && s.tags == {})
    ensures forall id | id in ids :: id in s.actors
    ensures Views(plan, CancelUnder(s, p, ids)) == Sever(plan, Views(plan, s), p)
  {
    hide ActorFits, BoundFits, MailFits, TasksFit, PastFits, TraceFits, Cancelled, Scoped, InFlight, ViewOf, Severed,
         Halts, AllUnder, Distinct, StopAll, Outside, Tagged;
    CancelInv(plan, s, {}, p, ids);
    var s1 := StopAll(s, ids);
    HaltsKeep(s, ids, s1);
    var s', ws := CancelUnder(s, p, ids), Sever(plan, Views(plan, s), p);
    forall i | 0 <= i <= plan.hops ensures ViewOf(plan, s', i) == ws[i] {
      if Above(s.tags, p) {
        AboveNone(plan, s, p, ids);
        if p <= Address(plan, i) { CoveredView(plan, s, p, i); }
      } else {
        SeverView(plan, s, p, ids, s1, i);
        assert s' == Severed(s, s1, p) by { NotAboveSevers(s, s1, p); }
      }
    }
    assert Views(plan, s') == ws;
  }

  /** Under a scope that is covered there is no child to stop. */
  lemma AboveNone(plan: Plan, s: Flow, p: Key, ids: seq<nat>)
    requires TreeFits(plan, s) && AllUnder(s, p, ids) && Above(s.tags, p)
    ensures ids == [] && CancelUnder(s, p, ids) == s
  {
    hide Cancelled, AllUnder, TreeFits;
    var t :| t in s.tags && t < p;
    if ids != [] {
      UnderIs(plan, s, p, ids, ids[0]);
      CoversBelow(s.tags, t, s.actors[ids[0]].address);
    }
  }

  lemma NotAboveSevers(s: Flow, s1: Flow, p: Key)
    requires s1.bound == s.bound && s1.tags == s.tags && !Above(s.tags, p) && !(s.bound == map[] && s.tags == {})
    ensures Disable(s1, p) == Severed(s, s1, p)
  {
    hide Above, Outside, Tagged;
  }

  /** A scope that is covered already holds no stage. */
  lemma CoveredView(plan: Plan, s: Flow, p: Key, i: nat)
    requires i < 0x10000 && Above(s.tags, p) && p <= Address(plan, i)
    ensures ViewOf(plan, s, i) == Gone
  {
    hide Scoped, InFlight;
    var t :| t in s.tags && t < p;
    CoversBelow(s.tags, t, Address(plan, i));
  }

  lemma SeverView(plan: Plan, s: Flow, p: Key, ids: seq<nat>, s1: Flow, i: nat)
    requires TreeFits(plan, s) && AllUnder(s, p, ids) && Halts(s, ids, s1) && i < 0x10000
    ensures ViewOf(plan, Severed(s, s1, p), i) == if p <= Address(plan, i) then Gone else ViewOf(plan, s, i)
  {
    hide Cancelled, Scoped, InFlight, IsStage, Tagged, AllUnder;
    var a := Address(plan, i);
    TaggedCovers(s.tags, p, a);
    if a in s.bound && !(p <= a) {
      assert BoundFits(plan, s, a);
      if s.bound[a] in ids { UnderIs(plan, s, p, ids, s.bound[a]); }
    }
  }
}

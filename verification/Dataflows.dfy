/**
  `dataflow`: the mailbox, the task queue, the children and the tree of their addresses, changed in
  place by the loops of the scheduler. The clock is not modelled: whenever it is asked, it may say
  either that the time slice is used up or that it is not.
 */
module Dataflows {
  import opened Bytes
  import opened RadixTrees
  import opened RadixIndexes
  import opened Operators
  import opened Pipelines
  import opened Scopes
  import opened Flows
  import opened FlowInvariants
  import opened FlowViews
  import opened FlowRuns

  /** `_default_execution_interval`: the clock is asked at every tenth check only. */
  const INTERVAL := 10

  /** `not_expired`: the new count, and whether the slice goes on. */
  method NotExpired(count: nat) returns (goesOn: bool, count': nat)
    requires count < INTERVAL
    ensures count' < INTERVAL
    ensures count < 9 ==> goesOn && count' == count + 1
    ensures count == 9 ==> count' == 0
  {
    count' := count + 1;
    if count' < INTERVAL { return true, count'; }
    count' := 0;
    goesOn := *;
  }

  /** `do_work`, which is virtual. */
  method Operate(g: Graph, op: Op, data: Payload, ghost last: bool) returns (w: Outcome)
    requires OpFits(op, last)
    ensures w == Work(g, op, data)
  {
    if op.Out? { w := DoOut(g, op, data); } else { w := DoLimit(op, data); }
  }

  class Dataflow {
    const plan: Plan
    const index: RadixIndex
    var mailbox: seq<Message>
    var tasks: seq<nat>
    var actors: map<nat, Actor>
    var numTerminating: int
    var output: seq<LightNode>
    /** The next pointer an allocation returns. */
    var next: nat
    var executionCount: nat
    ghost var trace: seq<Event>
    ghost var stopped: set<nat>
    ghost var deleted: seq<nat>

    ghost function State(): Flow
      reads this, index
    {
      Flow(mailbox, tasks, actors, index.bound, index.tags, numTerminating, output, next, trace, stopped, deleted)
    }

    ghost predicate Sound()
      reads this, index, index.tree, Obj(index.tree.root), Foot(index.tree.root)
    {
      && index.Valid() && index.addressLength == ADDRESS_LENGTH && this !in Foot(index.tree.root)
      && PlanFits(plan) && executionCount < INTERVAL
    }

    constructor (plan: Plan)
      requires PlanFits(plan)
      ensures Sound() && fresh(index) && fresh(index.tree) && fresh(Foot(index.tree.root)) && this.plan == plan
      ensures State() == Flow([], [], map[], map[], {}, 0, [], 0, [], {}, [])
    {
      hide RadixIndex.Valid;
      var i := new RadixIndex(ADDRESS_LENGTH);
      this.plan, index := plan, i;
      mailbox, tasks, actors, numTerminating, output, next, executionCount := [], [], map[], 0, [], 0, 0;
      trace, stopped, deleted := [], {}, [];
      new;
      assert this !in Foot(index.tree.root) && this !in Obj(index.tree.root);
    }

    /** `activate`, for the child `id`. */
    method Activate(id: nat)
      requires Sound() && id in actors
      modifies this
      ensures Sound() && State() == Flows.Activate(old(State()), id) && executionCount == old(executionCount)
      ensures tasks == old(tasks) + if old(actors)[id].active then [] else [id]
      ensures actors == old(actors)[id := old(actors)[id].(active := true)]
    {
      hide RadixIndex.Valid;
      assert this !in Obj(index.tree.root);
      if !actors[id].active {
        actors := actors[id := actors[id].(active := true)];
        tasks := tasks + [id];
      }
    }

    /** `enque_message` of a child. */
    method EnqueMessage(id: nat, p: Payload)
      requires Sound() && id in actors
      modifies this
      ensures Sound() && State() == Enqueue(old(State()), id, p) && executionCount == old(executionCount)
      ensures tasks == old(tasks) + if old(actors)[id].active then [] else [id]
      ensures id in actors && actors[id].active && actors[id].mailbox == old(actors)[id].mailbox + [p]
    {
      hide RadixIndex.Valid;
      assert this !in Obj(index.tree.root);
      actors := actors[id := actors[id].(mailbox := actors[id].mailbox + [p])];
      Activate(id);
    }

    /** `handle_stop_from_parent` of a child. */
    method HandleStopFromParent(id: nat)
      requires Sound() && id in actors
      modifies this
      ensures Sound() && State() == Stop(old(State()), id) && executionCount == old(executionCount)
      ensures mailbox == old(mailbox) && id in actors
      ensures tasks == old(tasks) + if old(actors)[id].terminating || old(actors)[id].active then [] else [id]
      ensures stopped == old(stopped) + (if old(actors)[id].terminating then {} else {id})
      ensures numTerminating == old(numTerminating)
      ensures actors[id].terminating && (!old(actors)[id].terminating ==> actors[id].active && actors[id].mailbox == [])
    {
      hide RadixIndex.Valid;
      assert this !in Obj(index.tree.root);
      if actors[id].terminating { return; }
      actors := actors[id := actors[id].(terminating := true)];
      actors := actors[id := actors[id].(mailbox := [])];
      stopped := stopped + {id};
      Activate(id);
    }

    /** `handle_child_terminated`, and the child deletes itself. */
    method HandleChildTerminated(id: nat)
      requires Sound() && id in actors
      modifies this
      ensures Sound() && State() == Finish(old(State()), id) && executionCount == old(executionCount)
      ensures actors == old(actors) - {id} && numTerminating == old(numTerminating) - 1
      ensures deleted == old(deleted) + [id]
    {
      hide RadixIndex.Valid;
      assert this !in Obj(index.tree.root);
      numTerminating := numTerminating - 1;
      actors := actors - {id};
      deleted := deleted + [id];
    }

    /** The search -> 0 branch of `process_mailbox`: the operator code at the address decides the actor. */
    method CreateChild(a: Key) returns (id: nat)
      requires Sound() && IsStage(plan, a) && !Cancelled(index.tags, a)
      modifies this, index, index.tree, Foot(index.tree.root)
      ensures Sound() && fresh(Foot(index.tree.root) - old(Foot(index.tree.root)))
      ensures id == old(next) && State() == Create(plan, old(State()), a) && executionCount == old(executionCount)
      ensures id in actors && actors[id].op == if StageOf(a) < plan.hops then Out([], 0)
                                               else Limit(plan.limit, 0, 0, true)
      ensures index.bound == old(index.bound)[a := id] && trace == old(trace) + [Born(a)]
    {
      hide RadixIndex.Valid, Cancelled, StageOf;
      id := next;
      index.Insert(a, id);
      assert this !in Foot(index.tree.root) && this !in Obj(index.tree.root);
      next := next + 1;
      actors := actors[id := Actor(a, NewOp(StageOf(a), plan.hops, plan.limit), [], false, false)];
      trace := trace + [Born(a)];
    }

    /** `handle_child_termination`: only a child the tree knows calls it. */
    method HandleChildTermination(a: Key)
      requires Sound() && |a| == ADDRESS_LENGTH
      requires a in index.bound ==> index.bound[a] in actors
      requires Cancelled(index.tags, a) || a in index.bound
      modifies this, index, index.tree, Foot(index.tree.root)
      ensures Sound() && fresh(Foot(index.tree.root) - old(Foot(index.tree.root)))
      ensures State() == if Cancelled(old(index.tags), a) then old(State())
                         else CancelUnder(old(State()), a, [old(index.bound)[a]])
      ensures numTerminating == old(numTerminating) + if Cancelled(old(index.tags), a) then 0 else 1
      ensures executionCount == old(executionCount) && mailbox == old(mailbox)
    {
      hide RadixIndex.Valid, Cancelled, Stop, Outside, Tagged;
      var code, child := index.Lookup(a);
      if code == -1 { return; }
      assert code == 1;
      StopOnly(State(), index.bound[a], a);
      numTerminating := numTerminating + 1;
      assert this !in Obj(index.tree.root);
      assert !(index.bound == map[]);
      var _ := index.Disable(a);
      assert this !in Foot(index.tree.root);
      HandleStopFromParent(child.value);
    }

    /** What the tree's iteration calls for each child it visits. */
    method StopTargets(targets: seq<nat>)
      requires Sound() && forall id | id in targets :: id in actors
      modifies this
      ensures Sound() && State() == StopAll(old(State()), targets) && executionCount == old(executionCount)
      ensures old(tasks) <= tasks && numTerminating == old(numTerminating) + |targets|
    {
      hide RadixIndex.Valid, Stop, StopAll;
      ghost var s := State();
      assert this !in Obj(index.tree.root);
      StopNone(s, targets);
      var i := 0;
      while i < |targets|
        invariant 0 <= i <= |targets|
        invariant Sound() && executionCount == old(executionCount)
        invariant forall id | id in targets[..i] :: id in s.actors
        invariant State() == StopAll(s, targets[..i]) && old(tasks) <= tasks
        invariant numTerminating == old(numTerminating) + i
      {
        StopNext(s, targets, i);
        numTerminating := numTerminating + 1;
        HandleStopFromParent(targets[i]);
        i := i + 1;
      }
      assert targets[..|targets|] == targets;
    }

    /** `handle_scope_cancellation`: every child under `p` is stopped, by address, then `p` is disabled. */
    method HandleScopeCancellation(p: Key) returns (ghost ids: seq<nat>, ghost at: seq<Key>)
      requires Sound() && TreeFits(plan, State()) && 1 <= |p| <= ADDRESS_LENGTH
      modifies this, index, index.tree, Foot(index.tree.root)
      ensures Sound() && fresh(Foot(index.tree.root) - old(Foot(index.tree.root)))
      ensures AllUnder(old(State()), p, ids) && State() == CancelUnder(old(State()), p, ids)
      ensures Visits(old(index.bound), p, at, ids) && Ascends(at)
      ensures executionCount == old(executionCount) && old(tasks) <= tasks
    {
      hide RadixIndex.Valid, StopAll, Outside, Tagged, TreeFits, AllUnder, Visits, Above, Ascends;
      ghost var s := State();
      var targets;
      targets, at := index.Visit(p);
      ids := targets;
      VisitedUnder(plan, s, p, at, ids);
      UnderLive(plan, s, p, ids);
      StopTargets(targets);
      StopAllIndex(s, ids);
      assert this !in Obj(index.tree.root);
      var _ := index.Disable(p);
      assert this !in Foot(index.tree.root) && this !in Obj(index.tree.root);
    }

    /** The USER branch of `process_mailbox`. */
    method DeliverMessage(a: Key, p: Payload)
      requires Sound() && TreeFits(plan, State()) && IsStage(plan, a)
      modifies this, index, index.tree, Foot(index.tree.root)
      ensures Sound() && fresh(Foot(index.tree.root) - old(Foot(index.tree.root)))
      ensures State() == Deliver(plan, old(State()), a, p)
      ensures Cancelled(old(index.tags), a) ==> State() == old(State())
      ensures !Cancelled(old(index.tags), a) ==>
                && a in index.bound && index.bound[a] in actors && actors[index.bound[a]].active
                && actors[index.bound[a]].mailbox
                == (if a in old(index.bound) && old(index.bound)[a] in old(actors)
                    then old(actors)[old(index.bound)[a]].mailbox else []) + [p]
      ensures executionCount == old(executionCount) && old(tasks) <= tasks
    {
      hide RadixIndex.Valid, Cancelled, Enqueue, StageOf, TreeFits;
      TreeKnows(plan, State(), a);
      var code, child := index.Lookup(a);
      var id;
      match code {
        case 1 => id := child.value;
        case 0 => id := CreateChild(a);
        case _ => return;
      }
      EnqueMessage(id, p);
    }

    /**
      One turn of the loop of `process_mailbox`. A cancelled scope is covered from then on exactly when
      anything is stored when its turn comes; otherwise the message has no effect.
     */
    method ProcessMessage()
      requires Sound() && Inv(plan, State(), {}) && mailbox != []
      modifies this, index, index.tree, Foot(index.tree.root)
      ensures Sound() && fresh(Foot(index.tree.root) - old(Foot(index.tree.root)))
      ensures Inv(plan, State(), {}) && mailbox == old(mailbox)[1..] && Onward(old(State()), State())
      ensures Foretold(plan, State()) == Foretold(plan, old(State()))
      ensures !old(mailbox)[0].CancelScope? ==> Unmoved(plan, old(State()), State())
      ensures old(mailbox)[0].User? ==> Started(State()) && ActsAsDelivery(plan, old(State()), State())
      ensures !old(mailbox)[0].User? ==> (Started(State()) <==> Started(old(State())))
      ensures old(mailbox)[0].CancelScope? && Inside(plan, old(mailbox)[0].prefix) ==>
                && (Cancelled(index.tags, old(mailbox)[0].prefix) <==> Started(old(State())))
                && trace == (if Started(old(State())) then old(trace) + [Cut(old(mailbox)[0].prefix)] else old(trace))
                && (!Started(old(State())) ==> State() == old(State()).(mailbox := old(mailbox)[1..]))
      ensures old(mailbox)[0].Other? || (old(mailbox)[0].CancelScope? && |old(mailbox)[0].prefix| <= 2) ==>
                State() == old(State()).(mailbox := old(mailbox)[1..])
      ensures old(mailbox)[0].CancelScope? && |old(mailbox)[0].prefix| > 2 ==>
                (Cancelled(index.tags, old(mailbox)[0].prefix) <==> Started(old(State())))
      ensures executionCount == old(executionCount) && old(tasks) <= tasks
    {
      hide RadixIndex.Valid, Inv, Cancelled, AllUnder, Deliver, CutScope, CancelUnder, Unmoved, Foretold, Onward,
           Started, IsStage, TreeFits;
      ghost var s := State();
      var m := mailbox[0];
      if m.User? { UserProcessed(plan, s); }
      assert this !in Obj(index.tree.root);
      mailbox := mailbox[1..];
      match m {
        case User(a, p) =>
          DeliverMessage(a, p);
        case CancelScope(p) =>
          if |p| > ADDRESS_LENGTH - ID_LENGTH {
            var _, _ := CancelNow(s, p);
          } else {
            SkipProcessed(plan, s);
          }
        case Other =>
          SkipProcessed(plan, s);
      }
    }

    /**
      The CANCEL_SCOPE branch, for a scope inside the dataflow. The children under it that are not waiting to
      run already are queued behind all others, in the order of their addresses.
     */
    method CancelNow(ghost s: Flow, p: Key) returns (ghost ids: seq<nat>, ghost at: seq<Key>)
      requires Sound() && Inv(plan, s, {}) && s.mailbox != [] && s.mailbox[0] == CancelScope(p)
      requires |p| > ADDRESS_LENGTH - ID_LENGTH && State() == s.(mailbox := s.mailbox[1..])
      modifies this, index, index.tree, Foot(index.tree.root)
      ensures Sound() && fresh(Foot(index.tree.root) - old(Foot(index.tree.root)))
      ensures Inv(plan, State(), {}) && mailbox == old(mailbox) && Onward(s, State())
      ensures Foretold(plan, State()) == Foretold(plan, s)
      ensures (Started(State()) <==> Started(s)) && (Cancelled(index.tags, p) <==> Started(s))
      ensures trace == if Started(s) then s.trace + [Cut(p)] else s.trace
      ensures !Started(s) ==> State() == s.(mailbox := s.mailbox[1..])
      ensures Visits(s.bound, p, at, ids) && Ascends(at) && AllUnder(s, p, ids)
      ensures (forall id | id in ids :: id in s.actors) && tasks == s.tasks + Asleep(s, ids)
      ensures executionCount == old(executionCount) && old(tasks) <= tasks
    {
      hide RadixIndex.Valid, Inv, Cancelled, AllUnder, CancelUnder, TreeFits, Foretold, Onward, Visits, Ascends, Asleep;
      ScopeStarts(plan, s);
      ids, at := HandleScopeCancellation(p);
      assert this !in Obj(index.tree.root);
      ScopeOrder(plan, s, p, ids);
      UnderKnown(s.(mailbox := s.mailbox[1..]), p, ids);
      TraceOf(plan, s.(mailbox := s.mailbox[1..]), p, ids);
      if Started(s) { trace := trace + [Cut(p)]; }
      ScopeProcessed(plan, s, p, ids);
    }

    /** Another turn, when `n` messages of the mail that `s` had are processed. */
    method ProcessNext(ghost s: Flow, ghost n: nat)
      requires Sound() && Inv(plan, State(), {}) && n < |s.mailbox| && mailbox == s.mailbox[n..]
      requires Onward(s, State()) && Foretold(plan, State()) == Foretold(plan, s)
      requires NoCancels(s.mailbox) ==> NoCancels(mailbox) && Unmoved(plan, s, State())
      requires Started(State()) <==> Started(s) || UserWithin(s.mailbox, n)
      requires Recorded(plan, Started(s), s.mailbox, n, trace)
      modifies this, index, index.tree, Foot(index.tree.root)
      ensures Sound() && fresh(Foot(index.tree.root) - old(Foot(index.tree.root)))
      ensures Inv(plan, State(), {}) && mailbox == s.mailbox[n + 1..]
      ensures Onward(s, State()) && Foretold(plan, State()) == Foretold(plan, s)
      ensures NoCancels(s.mailbox) ==> NoCancels(mailbox) && Unmoved(plan, s, State())
      ensures Started(State()) <==> Started(s) || UserWithin(s.mailbox, n + 1)
      ensures Recorded(plan, Started(s), s.mailbox, n + 1, trace)
      ensures executionCount == old(executionCount) && old(tasks) <= tasks
    {
      hide RadixIndex.Valid, Inv, Unmoved, NoCancels, Foretold, Onward, Started, Recorded, UserWithin, Inside,
           Cancelled, ActsAsDelivery;
      ghost var t := State();
      ProcessMessage();
      MessageStep(plan, s, t, State(), n);
      MessageUnmoved(plan, s, t, State());
    }

    /** `process_mailbox`. */
    method ProcessMailbox()
      requires Sound() && Inv(plan, State(), {})
      modifies this, index, index.tree, Foot(index.tree.root)
      ensures Sound() && fresh(Foot(index.tree.root) - old(Foot(index.tree.root)))
      ensures Inv(plan, State(), {}) && mailbox == [] && Onward(old(State()), State())
      ensures Foretold(plan, State()) == Foretold(plan, old(State()))
      ensures NoCancels(old(mailbox)) ==> Unmoved(plan, old(State()), State())
      ensures Recorded(plan, Started(old(State())), old(mailbox), |old(mailbox)|, trace)
      ensures executionCount == old(executionCount) && old(tasks) <= tasks
    {
      hide RadixIndex.Valid, Inv, Unmoved, NoCancels, Foretold, Onward, Started, Recorded, UserWithin, Inside,
           Cancelled;
      ghost var s, n: nat := State(), 0;
      PlanOf(plan, s, {});
      UnmovedStart(plan, s);
      OnwardStart(s);
      RecordedNone(plan, Started(s), s.mailbox, s.trace);
      while mailbox != []
        invariant Sound() && fresh(Foot(index.tree.root) - old(Foot(index.tree.root)))
        invariant Inv(plan, State(), {}) && Onward(s, State()) && Foretold(plan, State()) == Foretold(plan, s)
        invariant NoCancels(s.mailbox) ==> NoCancels(mailbox) && Unmoved(plan, s, State())
        invariant n <= |s.mailbox| && mailbox == s.mailbox[n..]
        invariant Started(State()) <==> Started(s) || UserWithin(s.mailbox, n)
        invariant Recorded(plan, Started(s), s.mailbox, n, trace)
        invariant executionCount == old(executionCount) && old(tasks) <= tasks
        decreases |mailbox|
      {
        ProcessNext(s, n);
        n := n + 1;
      }
    }

    /** `do_work`, and sending what it sends. */
    method DoWork(id: nat) returns (w: Outcome)
      requires Sound() && id in actors && OpOf(plan, actors[id]) && actors[id].mailbox != []
      modifies this
      ensures Sound() && executionCount == old(executionCount)
      ensures Works(plan, old(actors)[id], w)
      ensures |old(actors)[id].address| == ADDRESS_LENGTH && StageOf(old(actors)[id].address) < 0x8000
      ensures State() == Absorb(old(State()), id, w) && trace == old(trace) + [Acted(old(actors)[id].address)]
    {
      hide RadixIndex.Valid, Work, OpFits, Scoped, StageOf, PlanFits;
      var a := actors[id];
      StageInRange(plan, a);
      var data := a.mailbox[0];
      actors := actors[id := a.(mailbox := a.mailbox[1..])];
      w := Operate(plan.graph, a.op, data, StageOf(a.address) == plan.hops);
      assert this !in Obj(index.tree.root);
      UpdatedTwice(actors, id, actors[id], actors[id].(op := w.op), old(actors));
      actors := actors[id := actors[id].(op := w.op)];
      mailbox := mailbox + Posted(Downstream(a.address, StageOf(a.address) + 1), w.sent);
      output := output + w.printed;
      trace := trace + [Acted(a.address)];
    }

    /** `do_work`, and the termination it may ask for. */
    method WorkOnce(id: nat)
      requires Sound() && Inv(plan, State(), {id}) && id in actors && !actors[id].terminating
      requires OpOf(plan, actors[id]) && actors[id].mailbox != []
      modifies this, index, index.tree, Foot(index.tree.root)
      ensures Sound() && fresh(Foot(index.tree.root) - old(Foot(index.tree.root)))
      ensures Inv(plan, State(), {id}) && id in actors && tasks == old(tasks)
      ensures actors[id].mailbox == if actors[id].terminating then [] else old(actors)[id].mailbox[1..]
      ensures !actors[id].terminating ==> OpOf(plan, actors[id])
      ensures Meaning(plan, State()) == Meaning(plan, old(State())) && Left(plan, State()) < Left(plan, old(State()))
      ensures Closes(plan, old(State()), State())
      ensures NoCancels(old(mailbox)) ==> NoCancels(mailbox)
      ensures Onward(old(State()), State())
      ensures executionCount == old(executionCount)
    {
      hide RadixIndex.Valid, Inv, Cancelled, OpOf, Works, Meaning, Left, CancelUnder, StageOf, Absorb, NoCancels,
           Onward, Closes;
      ghost var s, a := State(), actors[id].address;
      KnownHere(plan, s, id);
      var w := DoWork(id);
      WorkKeeps(plan, s, id, w);
      OnwardWork(plan, s, id, w);
      SentOnly(s, id, w);
      AbsorbKeeps(s, id, w);
      if w.flag == CancelMe {
        HandleChildTermination(actors[id].address);
      }
    }

    /**
      `stateless_actor::run_and_dispose`: one slice of one actor. It works on its oldest messages one after
      another; if it leaves any behind, it has worked on nine at least, and is queued behind all others.
     */
    method RunActor(id: nat) returns (ghost worked: nat)
      requires Sound() && Inv(plan, State(), {id}) && id in actors
      requires !actors[id].terminating ==> OpOf(plan, actors[id]) && actors[id].mailbox != []
      modifies this, index, index.tree, Foot(index.tree.root)
      ensures Sound() && fresh(Foot(index.tree.root) - old(Foot(index.tree.root)))
      ensures Inv(plan, State(), {}) && Progress(plan, old(State()), State())
      ensures NoCancels(old(mailbox)) ==> NoCancels(mailbox)
      ensures Onward(old(State()), State())
      ensures executionCount == old(executionCount)
      ensures worked <= |old(actors)[id].mailbox|
      ensures id in actors ==> actors[id].mailbox == old(actors)[id].mailbox[worked..]
      ensures id in actors && actors[id].mailbox != [] ==> worked >= 9
      ensures tasks == old(tasks) + if id in actors && actors[id].mailbox != [] then [id] else []
    {
      hide RadixIndex.Valid, Inv, OpOf, Meaning, Left, NoCancels, Cancelled, Onward, Closes;
      ghost var s := State();
      PlanOf(plan, s, {id});
      OnwardStart(s);
      ClosesSame(plan, s, s);
      StoppedHasNoMail(plan, s, id);
      worked := 0;
      var count: nat := 0;
      while actors[id].mailbox != []
        invariant Sound() && fresh(Foot(index.tree.root) - old(Foot(index.tree.root)))
        invariant Inv(plan, State(), {id}) && id in actors && (!actors[id].terminating ==> OpOf(plan, actors[id]))
        invariant count < INTERVAL && executionCount == old(executionCount)
        invariant Meaning(plan, State()) == Meaning(plan, s) && Closes(plan, s, State()) && tasks == s.tasks
        invariant worked <= |s.actors[id].mailbox| && count <= worked && (worked <= 9 ==> count == worked)
        invariant !actors[id].terminating ==> actors[id].mailbox == s.actors[id].mailbox[worked..]
        invariant Left(plan, State()) < Left(plan, s) || (State() == s && count == 0)
        invariant actors[id].terminating ==> actors[id].mailbox == []
        invariant Onward(s, State())
        invariant NoCancels(old(mailbox)) ==> NoCancels(mailbox)
        decreases |actors[id].mailbox|
      {
        var goesOn;
        goesOn, count := NotExpired(count);
        assert this !in Obj(index.tree.root);
        if !goesOn { break; }
        ghost var t := State();
        WorkOnce(id);
        worked := worked + 1;
        OnwardStep(s, t, State());
        ClosesStep(plan, s, t, State());
        StoppedHasNoMail(plan, State(), id);
      }
      ghost var u := State();
      EndSlice(id);
      OnwardStep(s, u, State());
      ClosesStep(plan, s, u, State());
    }

    /** What follows the loop over the messages: the child reports and deletes itself, or rests. */
    method EndSlice(id: nat)
      requires Sound() && Inv(plan, State(), {id}) && id in actors
      requires !actors[id].terminating ==> OpOf(plan, actors[id])
      modifies this
      ensures Sound() && Inv(plan, State(), {}) && executionCount == old(executionCount)
      ensures Meaning(plan, State()) == Meaning(plan, old(State())) && Left(plan, State()) == Left(plan, old(State()))
      ensures numTerminating == old(numTerminating) - if old(actors)[id].terminating then 1 else 0
      ensures mailbox == old(mailbox) && Onward(old(State()), State()) && Closes(plan, old(State()), State())
      ensures id in actors <==> !old(actors)[id].terminating
      ensures id in actors ==> actors[id].mailbox == old(actors)[id].mailbox
      ensures tasks == old(tasks) + if id in actors && actors[id].mailbox != [] then [id] else []
    {
      hide RadixIndex.Valid, Inv, OpOf, Meaning, Left, Onward, Closes;
      RunEnds(plan, State(), id);
      if actors[id].terminating {
        HandleChildTerminated(id);
      } else {
        Deactivate(id);
      }
    }

    /** The end of a slice: active again only if there is mail left. */
    method Deactivate(id: nat)
      requires Sound() && id in actors
      modifies this
      ensures Sound() && State() == Rest(old(State()), id) && executionCount == old(executionCount)
      ensures id in actors && actors[id].mailbox == old(actors)[id].mailbox
      ensures tasks == old(tasks) + if actors[id].mailbox != [] then [id] else []
    {
      hide RadixIndex.Valid;
      assert this !in Obj(index.tree.root);
      actors := actors[id := actors[id].(active := false)];
      if actors[id].mailbox != [] { Activate(id); }
    }

    /** The inner loop of `run_and_dispose`: tasks, until the queue is empty or the slice used up. */
    method RunTasks()
      requires Sound() && Inv(plan, State(), {}) && NoCancels(mailbox)
      modifies this, index, index.tree, Foot(index.tree.root)
      ensures Sound() && fresh(Foot(index.tree.root) - old(Foot(index.tree.root)))
      ensures Inv(plan, State(), {}) && NoCancels(mailbox)
      ensures || Progress(plan, old(State()), State())
              || (State() == old(State()) && (tasks == [] || executionCount < old(executionCount)))
      ensures Onward(old(State()), State())
      ensures tasks != [] ==> executionCount == 0
    {
      hide RadixIndex.Valid, Inv, Meaning, Left, NoCancels, Onward, Closes;
      ghost var s := State();
      PlanOf(plan, s, {});
      OnwardStart(s);
      while tasks != []
        invariant Sound() && fresh(Foot(index.tree.root) - old(Foot(index.tree.root)))
        invariant Inv(plan, State(), {}) && NoCancels(mailbox) && State().terminating >= 0
        invariant Progress(plan, s, State()) || (State() == s && executionCount == old(executionCount))
        invariant Onward(s, State())
        decreases Left(plan, State()), State().terminating
      {
        ghost var t := State();
        var goesOn;
        goesOn, executionCount := NotExpired(executionCount);
        assert this !in Obj(index.tree.root);
        if !goesOn { break; }
        var _ := RunFirst();
        OnwardStep(s, t, State());
        PlanOf(plan, State(), {});
        if Progress(plan, s, t) { ProgressAfter(plan, s, t, State()); }
      }
    }

    /** The task at the head of the queue is taken and run; it comes back, if at all, behind all others. */
    method RunFirst() returns (ghost worked: nat)
      requires Sound() && Inv(plan, State(), {}) && NoCancels(mailbox) && tasks != []
      modifies this, index, index.tree, Foot(index.tree.root)
      ensures Sound() && fresh(Foot(index.tree.root) - old(Foot(index.tree.root)))
      ensures Inv(plan, State(), {}) && NoCancels(mailbox) && Progress(plan, old(State()), State())
      ensures Onward(old(State()), State())
      ensures executionCount == old(executionCount)
      ensures old(tasks)[0] in old(actors) && worked <= |old(actors)[old(tasks)[0]].mailbox|
      ensures var id := old(tasks)[0];
              && (id in actors ==> actors[id].mailbox == old(actors)[id].mailbox[worked..])
              && (id in actors && actors[id].mailbox != [] ==> worked >= 9)
              && tasks == old(tasks)[1..] + if id in actors && actors[id].mailbox != [] then [id] else []
    {
      hide RadixIndex.Valid, Inv, Meaning, Left, NoCancels, OpOf, Onward, Closes;
      ghost var s := State();
      StartInv(plan, s);
      TaskTaken(plan, s);
      var id := tasks[0];
      assert this !in Obj(index.tree.root);
      tasks := tasks[1..];
      ghost var t := State();
      OnwardSame(s, t);
      worked := RunActor(id);
      OnwardStep(s, t, State());
      ProgressAfter(plan, s, t, State());
    }

    /**
      `run_and_dispose`. It ends, whatever the clock says and whatever is in the mail; then nothing is queued
      anywhere, no actor is on its way out, and exactly what was foretold at the start has been printed. Each
      cancellation that was due has been recorded: no child under it is left, all addresses under it are
      covered, and nothing under it was created or did work after it.
     */
    method RunAndDispose()
      requires Sound() && Inv(plan, State(), {})
      modifies this, index, index.tree, Foot(index.tree.root)
      ensures Sound() && fresh(Foot(index.tree.root) - old(Foot(index.tree.root)))
      ensures Inv(plan, State(), {}) && Idle(State()) && Onward(old(State()), State())
      ensures forall id :: id in actors ==> actors[id].mailbox == [] && !actors[id].terminating && !actors[id].active
      ensures numTerminating == 0 && stopped == Members(deleted) && Distinct(deleted)
      ensures output == Foretold(plan, old(State()))
      ensures NoCancels(old(mailbox)) ==> output == Meaning(plan, old(State()))
      ensures NoCancels(old(mailbox)) ==> Closes(plan, old(State()), State())
      ensures NoCancels(old(mailbox)) ==> forall i: nat | Ending(plan.graph, Views(plan, old(State())), i) ::
                Cancelled(index.tags, Address(plan, i)) && Address(plan, i) !in index.bound
      ensures Recorded(plan, Started(old(State())), old(mailbox), |old(mailbox)|, trace) && Safe(trace)
      ensures forall p, a | Cut(p) in trace && p <= a :: Cancelled(index.tags, a)
      ensures forall p, id | Cut(p) in trace && id in actors :: !(p <= actors[id].address)
    {
      hide RadixIndex.Valid, Inv, Meaning, Left, NoCancels, Foretold, Onward, Recorded, Started, Cancelled, Closes,
           Ending, Views;
      ghost var s := State();
      PlanOf(plan, s, {});
      RunBegins(plan, s);
      ClosesSame(plan, s, s);
      ghost var first := true;
      while true
        invariant Sound() && fresh(Foot(index.tree.root) - old(Foot(index.tree.root)))
        invariant Inv(plan, State(), {}) && State().terminating >= 0
        invariant Onward(s, State()) && Foretold(plan, State()) == Foretold(plan, s)
        invariant if first then State() == s
                  else NoCancels(mailbox) && Recorded(plan, Started(s), s.mailbox, |s.mailbox|, trace)
        invariant NoCancels(s.mailbox) ==> Closes(plan, s, State())
        decreases if NoCancels(mailbox) then 0 else 1, Left(plan, State()), State().terminating, executionCount
      {
        ghost var t := State();
        ProcessMailbox();
        ghost var u := State();
        EmptyMail(mailbox);
        RunTasks();
        PlanOf(plan, State(), {});
        TurnEnds(plan, s, t, u, State(), first);
        TurnCloses(plan, s, t, u, State(), first);
        first := false;
        if tasks == [] && mailbox == [] { break; }
      }
      ForetoldMeans(plan, State());
      Quiescent(plan, State());
      CutsHold(plan, State());
      AllEnded(plan, s, State());
    }

    /** `enque_message` of the dataflow itself. */
    method Enque(m: Message)
      requires Sound()
      modifies this
      ensures Sound() && State() == old(State()).(mailbox := old(mailbox) + [m])
      ensures Inv(plan, old(State()), {}) && MessageFits(plan, m) ==> Inv(plan, State(), {})
    {
      hide RadixIndex.Valid, Inv, MessageFits;
      assert this !in Obj(index.tree.root);
      MoreMail(plan, State(), m);
      mailbox := mailbox + [m];
    }

    /** `enque_urgent_message`. */
    method EnqueUrgent(m: Message)
      requires Sound()
      modifies this
      ensures Sound() && State() == old(State()).(mailbox := [m] + old(mailbox))
      ensures Inv(plan, old(State()), {}) && MessageFits(plan, m) ==> Inv(plan, State(), {})
    {
      hide RadixIndex.Valid, Inv, MessageFits;
      assert this !in Obj(index.tree.root);
      MoreMail(plan, State(), m);
      mailbox := [m] + mailbox;
    }
  }

  /** Mail from outside may come at any time between runs. */
  lemma MoreMail(plan: Plan, s: Flow, m: Message)
    ensures Inv(plan, s, {}) && MessageFits(plan, m) ==>
              Inv(plan, s.(mailbox := s.mailbox + [m]), {}) && Inv(plan, s.(mailbox := [m] + s.mailbox), {})
  {
    hide Inv, MessageFits;
    if Inv(plan, s, {}) && MessageFits(plan, m) {
      PlanOf(plan, s, {});
      MailInv(plan, s, {}, s.mailbox + [m]);
      MailInv(plan, s, {}, [m] + s.mailbox);
    }
  }

  /** Disabling first and stopping then comes to the same. */
  lemma StopOnly(s: Flow, id: nat, p: Key)
    requires id in s.actors
    ensures Disable(s.(terminating := s.terminating + 1), p).actors == s.actors
    ensures CancelUnder(s, p, [id]) == Stop(Disable(s.(terminating := s.terminating + 1), p), id)
  {
    hide Above, Outside, Tagged;
    assert [id][..0] == [];
    var t := s.(terminating := s.terminating + 1);
    assert StopAll(s, []) == s;
    assert StopAll(s, [id]) == Stop(t, id);
    assert Stop(t, id).bound == s.bound && Stop(t, id).tags == s.tags;
  }

  lemma TreeKnows(plan: Plan, s: Flow, a: Key)
    requires TreeFits(plan, s)
    ensures a in s.bound ==> s.bound[a] in s.actors && !Cancelled(s.tags, a)
  {
    if a in s.bound { assert BoundFits(plan, s, a); }
  }

  /** A visit of the tree finds each child under the prefix once. */
  lemma VisitedUnder(plan: Plan, s: Flow, p: Key, at: seq<Key>, ids: seq<nat>)
    requires TreeFits(plan, s) && Visits(s.bound, p, at, ids)
    ensures AllUnder(s, p, ids)
  {
    hide Cancelled, IsStage;
    forall i, j | 0 <= i < j < |ids| ensures ids[i] != ids[j] {
      assert BoundFits(plan, s, at[i]) && BoundFits(plan, s, at[j]);
      assert at[i] != at[j];
    }
    forall id | id in ids ensures id in s.actors && Under(s, p, id) {
      var i :| 0 <= i < |ids| && ids[i] == id;
      assert BoundFits(plan, s, at[i]);
    }
    forall a | a in s.bound && p <= a ensures s.bound[a] in ids {
      var i :| 0 <= i < |at| && at[i] == a;
      assert ids[i] == s.bound[a];
    }
  }

  lemma StopNone(s: Flow, ids: seq<nat>)
    ensures ids[..0] == [] && StopAll(s, []) == s
  {
  }

  lemma StopNext(s: Flow, ids: seq<nat>, i: nat)
    requires i < |ids| && forall id | id in ids :: id in s.actors
    ensures forall id | id in ids[..i + 1] :: id in s.actors
    ensures forall id | id in ids[..i] :: id in s.actors
    ensures ids[i] in StopAll(s, ids[..i]).actors
    ensures var t := StopAll(s, ids[..i]);
            StopAll(s, ids[..i + 1]) == Stop(t.(terminating := t.terminating + 1), ids[i])
  {
    assert ids[..i + 1][..i] == ids[..i];
  }

  lemma {:induction false} StopAllIndex(s: Flow, ids: seq<nat>)
    requires forall id | id in ids :: id in s.actors
    ensures StopAll(s, ids).bound == s.bound && StopAll(s, ids).tags == s.tags
    decreases |ids|
  {
    if ids != [] { StopAllIndex(s, ids[..|ids| - 1]); }
  }

  lemma UnderKnown(s: Flow, p: Key, ids: seq<nat>)
    requires AllUnder(s, p, ids)
    ensures forall id | id in ids :: id in s.actors
  {
  }

  lemma ScopeOrder(plan: Plan, s: Flow, p: Key, ids: seq<nat>)
    requires Inv(plan, s, {}) && s.mailbox != [] && AllUnder(s.(mailbox := s.mailbox[1..]), p, ids)
    ensures AllUnder(s, p, ids) && forall id | id in ids :: id in s.actors
    ensures CancelUnder(s.(mailbox := s.mailbox[1..]), p, ids).tasks == s.tasks + Asleep(s, ids)
  {
    hide Cancelled, StopAll, Asleep, Above, Outside, Tagged, ActorsFit, TreeFits, TasksFit, PastFits, TraceFits,
         MailFits, Distinct;
    var s0 := s.(mailbox := s.mailbox[1..]);
    UnderLive(plan, s, p, ids);
    UnderKnown(s0, p, ids);
    QueuedActive(plan, s, {});
    StopAllOrder(s0, ids);
    AsleepSame(s, s0, ids);
  }

  lemma {:induction false} AsleepSame(s: Flow, s': Flow, ids: seq<nat>)
    requires s'.actors == s.actors && forall id | id in ids :: id in s.actors
    ensures Asleep(s', ids) == Asleep(s, ids)
    decreases |ids|
  {
    if ids != [] { AsleepSame(s, s', ids[..|ids| - 1]); }
  }

  lemma NoCancelsRest(ms: seq<Message>)
    requires NoCancels(ms) && ms != []
    ensures NoCancels(ms[1..]) && !ms[0].CancelScope?
  {
    assert ms[0] in ms;
  }

  /** The running child is the one the tree knows at its address. */
  lemma KnownHere(plan: Plan, s: Flow, id: nat)
    requires Inv(plan, s, {id}) && id in s.actors && !s.actors[id].terminating
    ensures s.actors[id].address in s.bound && s.bound[s.actors[id].address] == id
    ensures !Cancelled(s.tags, s.actors[id].address)
  {
    UncoveredRunning(plan, s, id);
  }

  /** Operators send user messages only. */
  lemma SentOnly(s: Flow, id: nat, w: Outcome)
    requires id in s.actors && s.actors[id].mailbox != [] && |s.actors[id].address| == ADDRESS_LENGTH
    requires StageOf(s.actors[id].address) < 0x8000
    ensures NoCancels(s.mailbox) ==> NoCancels(Absorb(s, id, w).mailbox)
  {
    hide Scoped;
  }

  lemma StageInRange(plan: Plan, a: Actor)
    requires PlanFits(plan) && OpOf(plan, a)
    ensures |a.address| == ADDRESS_LENGTH && StageOf(a.address) < 0x8000
    ensures OpFits(a.op, StageOf(a.address) == plan.hops)
  {
  }

  lemma UpdatedTwice(m: map<nat, Actor>, id: nat, x: Actor, y: Actor, before: map<nat, Actor>)
    requires id in before && m == before[id := x]
    ensures m[id := y] == before[id := y]
  {
  }

  lemma StoppedHasNoMail(plan: Plan, s: Flow, id: nat)
    requires Inv(plan, s, {id}) && id in s.actors
    ensures s.actors[id].terminating ==> s.actors[id].mailbox == []
  {
    assert ActorFits(plan, s, {id}, id);
  }

  lemma EmptyMail(ms: seq<Message>)
    ensures ms == [] ==> NoCancels(ms)
  {
  }

  /**
    A whole query: a new dataflow, any number of batches of input and the end of the stream, one run.
    However the run is sliced, it prints the first `limit` results of all hops, in order. Every OUT stage has
    ended then: its address is covered and its actor gone. So has the LIMIT, and nobody is left, exactly if
    the limit is not zero.
   */
  method Query(plan: Plan, inputs: seq<seq<LightNode>>) returns (printed: seq<LightNode>, d: Dataflow)
    requires PlanFits(plan)
    ensures var all := Hops(plan.graph, plan.hops, Concat(inputs)); printed == all[..Min(|all|, plan.limit)]
    ensures plan.hops == 1 && |inputs| == 1 && |inputs[0]| == 1 ==>
              var next := plan.graph(inputs[0][0]); printed == next[..Min(|next|, plan.limit)]
    ensures fresh(d) && d.plan == plan && d.output == printed
    ensures forall i: nat | i < plan.hops ::
              Cancelled(d.index.tags, Address(plan, i)) && Address(plan, i) !in d.index.bound
    ensures Cancelled(d.index.tags, Address(plan, plan.hops)) <==> plan.limit > 0
    ensures forall id | id in d.actors :: d.actors[id].op.Limit? && plan.limit == 0
    ensures plan.limit > 0 ==> d.actors == map[] && d.index.bound == map[]
  {
    hide RadixIndex.Valid, PlanFits, Hops, Concat, Meaning, Foretold, Recorded, Started, Onward, Inv, NoCancels,
         Address, Stream, Closes, Ending, Views, Cancelled;
    d := new Dataflow(plan);
    var i := 0;
    StartAddress(plan, inputs);
    while i < |inputs|
      invariant 0 <= i <= |inputs| && d.plan == plan && d.Sound()
      invariant fresh(d) && fresh(d.index) && fresh(d.index.tree) && fresh(Foot(d.index.tree.root))
      invariant d.State()
             == Flow(Posted(Address(plan, 0), Datas(inputs[..i])), [], map[], map[], {}, 0, [], 0, [], {}, [])
    {
      PostedNext(plan, inputs, i);
      d.Enque(User(Address(plan, 0), Data(inputs[i])));
      i := i + 1;
    }
    d.Enque(User(Address(plan, 0), Eos));
    PostedAll(plan, inputs);
    QueryStarts(plan, inputs, d.State());
    ghost var s := d.State();
    d.RunAndDispose();
    printed := d.output;
    QueryEnds(plan, s, inputs, d.State());
    if plan.hops == 1 && |inputs| == 1 && |inputs[0]| == 1 { OneVertex(plan.graph, inputs); }
  }

  lemma StartAddress(plan: Plan, inputs: seq<seq<LightNode>>)
    requires PlanFits(plan)
    ensures Posted(Address(plan, 0), Datas(inputs[..0])) == []
  {
  }

  lemma PostedNext(plan: Plan, inputs: seq<seq<LightNode>>, i: nat)
    requires i < |inputs|
    ensures Posted(Address(plan, 0), Datas(inputs[..i + 1]))
         == Posted(Address(plan, 0), Datas(inputs[..i])) + [User(Address(plan, 0), Data(inputs[i]))]
  {
    hide Address;
  }

  lemma PostedAll(plan: Plan, inputs: seq<seq<LightNode>>)
    ensures Posted(Address(plan, 0), Stream(inputs))
         == Posted(Address(plan, 0), Datas(inputs[..|inputs|])) + [User(Address(plan, 0), Eos)]
  {
    hide Address;
    assert inputs[..|inputs|] == inputs;
  }

  lemma QueryStarts(plan: Plan, inputs: seq<seq<LightNode>>, s: Flow)
    requires PlanFits(plan)
    requires s == Flow(Posted(Address(plan, 0), Stream(inputs)), [], map[], map[], {}, 0, [], 0, [], {}, [])
    ensures Inv(plan, s, {}) && NoCancels(s.mailbox) && Queried(plan, s, inputs)
    ensures var all := Hops(plan.graph, plan.hops, Concat(inputs));
            Meaning(plan, s) == all[..Min(|all|, plan.limit)]
  {
    hide Hops, Concat, Meaning, Inv, PlanFits, Scoped, StageOf, Stream;
    AddressStage(plan, 0);
    forall m | m in s.mailbox ensures MessageFits(plan, m) && !m.CancelScope? {}
    StartsFit(plan, s.mailbox);
    QueryMeans(plan, s, inputs);
  }

  /** What `DeliverMessage` does with the message at the head of the mail. */
  ghost predicate ActsAsDelivery(plan: Plan, s: Flow, s': Flow) {
    && s.mailbox != [] && s.mailbox[0].User? && |s.mailbox[0].address| == ADDRESS_LENGTH
    && TreeFits(plan, s.(mailbox := s.mailbox[1..]))
    && s' == Deliver(plan, s.(mailbox := s.mailbox[1..]), s.mailbox[0].address, s.mailbox[0].payload)
  }

  lemma TraceOf(plan: Plan, s: Flow, p: Key, ids: seq<nat>)
    requires Inv(plan, s, {}) && AllUnder(s, p, ids)
    ensures forall id | id in ids :: id in s.actors
    ensures CancelUnder(s, p, ids).trace == s.trace
  {
    hide Inv, AllUnder, CancelUnder;
    OnwardCancel(plan, s, {}, p, ids);
  }

  /** One message of the mail `s` had is processed. */
  lemma MessageStep(plan: Plan, s: Flow, t: Flow, u: Flow, n: nat)
    requires n < |s.mailbox| && t.mailbox == s.mailbox[n..] && Recorded(plan, Started(s), s.mailbox, n, t.trace)
    requires Onward(s, t) && Onward(t, u)
    requires Started(t) <==> Started(s) || UserWithin(s.mailbox, n)
    requires t.mailbox[0].User? ==> Started(u)
    requires !t.mailbox[0].User? ==> (Started(u) <==> Started(t))
    requires t.mailbox[0].CancelScope? && Inside(plan, t.mailbox[0].prefix) && Started(t) ==>
               u.trace == t.trace + [Cut(t.mailbox[0].prefix)]
    ensures Onward(s, u) && Recorded(plan, Started(s), s.mailbox, n + 1, u.trace)
    ensures Started(u) <==> Started(s) || UserWithin(s.mailbox, n + 1)
    ensures t.mailbox[1..] == s.mailbox[n + 1..]
  {
    hide Started, UserWithin, Inside, Recorded, Cancelled;
    OnwardStep(s, t, u);
    RecordedStep(plan, Started(s), s.mailbox, n, t, u);
  }

  lemma MessageUnmoved(plan: Plan, s: Flow, t: Flow, u: Flow)
    requires t.mailbox != [] && u.mailbox == t.mailbox[1..]
    requires NoCancels(s.mailbox) ==> NoCancels(t.mailbox) && Unmoved(plan, s, t)
    requires !t.mailbox[0].CancelScope? ==> Unmoved(plan, t, u)
    ensures NoCancels(s.mailbox) ==> NoCancels(u.mailbox) && Unmoved(plan, s, u)
  {
    hide NoCancels, Unmoved;
    if NoCancels(s.mailbox) {
      NoCancelsRest(t.mailbox);
      UnmovedStep(plan, s, t, u);
    }
  }

  lemma RunBegins(plan: Plan, s: Flow)
    requires PlanFits(plan)
    ensures Onward(s, s) && (NoCancels(s.mailbox) ==> Foretold(plan, s) == Meaning(plan, s))
  {
    hide Foretold, Meaning, NoCancels;
    OnwardStart(s);
    if NoCancels(s.mailbox) { ForetoldMeans(plan, s); }
  }

  /** One turn of the outer loop, from `t` by way of `u`, in a run that began at `s`. */
  lemma TurnEnds(plan: Plan, s: Flow, t: Flow, u: Flow, v: Flow, first: bool)
    requires PlanFits(plan) && Onward(s, t) && Onward(t, u) && Onward(u, v)
    requires Foretold(plan, t) == Foretold(plan, s) && Foretold(plan, u) == Foretold(plan, t)
    requires NoCancels(u.mailbox) && NoCancels(v.mailbox) && (Progress(plan, u, v) || v == u)
    requires if first then t == s else Recorded(plan, Started(s), s.mailbox, |s.mailbox|, t.trace)
    requires Recorded(plan, Started(t), t.mailbox, |t.mailbox|, u.trace)
    ensures Onward(s, v) && Foretold(plan, v) == Foretold(plan, s)
    ensures Recorded(plan, Started(s), s.mailbox, |s.mailbox|, v.trace)
  {
    hide Meaning, Left, NoCancels, Foretold, Recorded, Started, Cancelled;
    OnwardStep(s, t, u);
    OnwardStep(s, u, v);
    ForetoldMeans(plan, u);
    ForetoldMeans(plan, v);
    if first {
      RecordedOn(plan, Started(s), s.mailbox, |s.mailbox|, u.trace, v.trace);
    } else {
      RecordedOn(plan, Started(s), s.mailbox, |s.mailbox|, t.trace, v.trace);
    }
  }

  lemma TurnCloses(plan: Plan, s: Flow, t: Flow, u: Flow, v: Flow, first: bool)
    requires NoCancels(s.mailbox) ==> Closes(plan, s, t)
    requires NoCancels(t.mailbox) ==> Unmoved(plan, t, u)
    requires PlanFits(plan) && (Progress(plan, u, v) || v == u)
    requires if first then t == s else NoCancels(t.mailbox)
    ensures NoCancels(s.mailbox) ==> Closes(plan, s, v)
  {
    hide Meaning, Left, NoCancels, Closes;
    if NoCancels(s.mailbox) {
      ClosesStep(plan, s, t, u);
      if v != u { ClosesStep(plan, s, u, v); }
    }
  }

  lemma AllEnded(plan: Plan, s: Flow, s': Flow)
    requires Inv(plan, s', {}) && Idle(s') && PlanFits(plan) && (NoCancels(s.mailbox) ==> Closes(plan, s, s'))
    ensures NoCancels(s.mailbox) ==> forall i: nat | Ending(plan.graph, Views(plan, s), i) ::
              Cancelled(s'.tags, Address(plan, i)) && Address(plan, i) !in s'.bound
  {
    hide Inv, Idle, NoCancels, Closes, Cancelled, Pending, Scoped;
    if NoCancels(s.mailbox) {
      forall i: nat | Ending(plan.graph, Views(plan, s), i)
        ensures Cancelled(s'.tags, Address(plan, i)) && Address(plan, i) !in s'.bound
      {
        StagesEnded(plan, s, s', i);
      }
    }
  }

  /**
    A cancellation that comes before anything is stored is forgotten: the message after it creates the
    very child that was to be cancelled.
   */
  method ForgottenCancel(plan: Plan, p: Payload) returns (d: Dataflow)
    requires PlanFits(plan)
    ensures d.Sound() && d.mailbox == []
    ensures Address(plan, 0) in d.index.bound && !Cancelled(d.index.tags, Address(plan, 0))
  {
    hide RadixIndex.Valid, PlanFits, Inv, Cancelled, Address, Started, Foretold, Unmoved, Onward, ActsAsDelivery,
         Inside;
    d := new Dataflow(plan);
    d.Enque(CancelScope(Address(plan, 0)));
    d.Enque(User(Address(plan, 0), p));
    ghost var s := d.State();
    ForgottenStart(plan, s, p);
    d.ProcessMessage();
    ghost var t := d.State();
    d.ProcessMessage();
    ForgottenEnd(plan, s, t, d.State(), p);
  }

  lemma ForgottenStart(plan: Plan, s: Flow, p: Payload)
    requires PlanFits(plan)
    requires s == Flow([CancelScope(Address(plan, 0)), User(Address(plan, 0), p)],
                       [], map[], map[], {}, 0, [], 0, [], {}, [])
    ensures Inv(plan, s, {}) && !Started(s) && Inside(plan, Address(plan, 0))
  {
    hide Inv, PlanFits, Scoped;
    AddressStage(plan, 0);
    InsideAddress(plan);
    StartsFit(plan, s.mailbox);
  }

  lemma InsideAddress(plan: Plan)
    requires PlanFits(plan)
    ensures Inside(plan, Address(plan, 0)) && |Address(plan, 0)| == ADDRESS_LENGTH
  {
  }

  lemma ForgottenEnd(plan: Plan, s: Flow, t: Flow, u: Flow, p: Payload)
    requires PlanFits(plan) && s.mailbox == [CancelScope(Address(plan, 0)), User(Address(plan, 0), p)]
    requires s.bound == map[] && s.tags == {} && t == s.(mailbox := s.mailbox[1..]) && ActsAsDelivery(plan, t, u)
    ensures Address(plan, 0) in u.bound && !Cancelled(u.tags, Address(plan, 0))
  {
    hide Address, StageOf, NewOp, Enqueue;
    var t0 := t.(mailbox := t.mailbox[1..]);
    var c := Create(plan, t0, Address(plan, 0));
    EnqueueSame(c, t0.next, p);
  }
}

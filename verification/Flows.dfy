/**
  The dataflow's state and what each of its operations does to it: mail, tasks, actors, the tree of
  addresses, the counter. Actors are records under the pointers that the task queue and the tree
  hold, so a deleted actor is a missing key.
 */
module Flows {
  import opened Bytes
  import opened Operators
  import opened Pipelines
  import opened Scopes

  datatype Message = User(address: Key, payload: Payload) | CancelScope(prefix: Key) | Other

  datatype Actor = Actor(address: Key, op: Op, mailbox: seq<Payload>, active: bool, terminating: bool)

  /** What a run does that matters later: an actor is created, does work, or a scope is cancelled. */
  datatype Event = Born(address: Key) | Acted(address: Key) | Cut(prefix: Key)

  /**
    The dataflow's own two-byte address and the operator codes: OUT with downstream `i + 1` at
    operator ids below `hops`, LIMIT without downstream at `hops`. The built-in plan has one hop.
   */
  datatype Plan = Plan(base: Key, hops: nat, limit: nat, graph: Graph)

  /** Bytes of an operator id in an address, and of a whole one. */
  const ID_LENGTH := 2
  const ADDRESS_LENGTH := 4

  datatype Flow = Flow(
    mailbox: seq<Message>,
    tasks: seq<nat>,
    actors: map<nat, Actor>,
    bound: map<Key, nat>,
    tags: set<Key>,
    terminating: int,
    output: seq<LightNode>,
    next: nat,
    trace: seq<Event>,
    stopped: set<nat>,
    deleted: seq<nat>)

  // ---------------------------------------------------------------- addresses

  ghost predicate PlanFits(plan: Plan) {
    |plan.base| == ADDRESS_LENGTH - ID_LENGTH && plan.hops < 0x8000
  }

  /** The operator id at the end of an address, least byte first. */
  function StageOf(a: Key): nat
    requires |a| == ADDRESS_LENGTH
  {
    a[2] as int + 256 * a[3] as int
  }

  function Scoped(base: Key, i: nat): Key
    requires i < 0x10000
  {
    base + [i % 256, i / 256]
  }

  predicate IsStage(plan: Plan, a: Key) {
    |a| == ADDRESS_LENGTH && a[..2] == plan.base && StageOf(a) <= plan.hops
  }

  function Address(plan: Plan, i: nat): Key
    requires i < 0x10000
  {
    Scoped(plan.base, i)
  }

  lemma AddressStage(plan: Plan, i: nat)
    requires PlanFits(plan) && i <= plan.hops
    ensures IsStage(plan, Address(plan, i)) && StageOf(Address(plan, i)) == i
  {
    assert Address(plan, i)[..2] == plan.base;
  }

  /** Four bytes: the dataflow's own two, then the operator id, least byte first. */
  lemma AddressBytes(plan: Plan, i: nat)
    requires PlanFits(plan) && i <= plan.hops
    ensures |Address(plan, i)| == 4 && Address(plan, i)[..2] == plan.base
    ensures Address(plan, i)[2] as int == i % 256 && Address(plan, i)[3] as int == i / 256
  {
  }

  lemma StageAddress(plan: Plan, a: Key)
    requires PlanFits(plan) && IsStage(plan, a)
    ensures a == Address(plan, StageOf(a))
  {
    var i := StageOf(a);
    assert i % 256 == a[2] && i / 256 == a[3];
    assert a == a[..2] + [a[2], a[3]];
  }

  /** `_ds_addr`: the same scope, the last operator id replaced. */
  function Downstream(a: Key, id: nat): Key
    requires |a| == ADDRESS_LENGTH && id < 0x10000
  {
    Scoped(a[..|a| - ID_LENGTH], id)
  }

  // ---------------------------------------------------------------- operations

  function Activate(s: Flow, id: nat): Flow
    requires id in s.actors
  {
    if s.actors[id].active then s
    else s.(actors := s.actors[id := s.actors[id].(active := true)], tasks := s.tasks + [id])
  }

  function Enqueue(s: Flow, id: nat, p: Payload): Flow
    requires id in s.actors
  {
    var a := s.actors[id];
    Activate(s.(actors := s.actors[id := a.(mailbox := a.mailbox + [p])]), id)
  }

  function Create(plan: Plan, s: Flow, a: Key): Flow
    requires |a| == ADDRESS_LENGTH
  {
    s.(actors := s.actors[s.next := Actor(a, NewOp(StageOf(a), plan.hops, plan.limit), [], false, false)],
       bound := s.bound[a := s.next], next := s.next + 1, trace := s.trace + [Born(a)])
  }

  /** `handle_stop_from_parent`. */
  function Stop(s: Flow, id: nat): Flow
    requires id in s.actors
  {
    if s.actors[id].terminating then s
    else
      Activate(s.(actors := s.actors[id := s.actors[id].(terminating := true, mailbox := [])],
                  stopped := s.stopped + {id}), id)
  }

  /** The callback of a scope cancellation, applied to one child after another. */
  function StopAll(s: Flow, ids: seq<nat>): (s': Flow)
    requires forall id | id in ids :: id in s.actors
    ensures s'.actors.Keys == s.actors.Keys
  {
    if ids == [] then s
    else
      var t := StopAll(s, ids[..|ids| - 1]);
      Stop(t.(terminating := t.terminating + 1), ids[|ids| - 1])
  }

  /** `disable` on the tree of addresses. */
  ghost function Disable(s: Flow, p: Key): Flow {
    if Above(s.tags, p) || (s.bound == map[] && s.tags == {}) then s
    else s.(bound := Outside(s.bound, p), tags := Tagged(s.tags, p))
  }

  ghost function CancelUnder(s: Flow, p: Key, ids: seq<nat>): Flow
    requires forall id | id in ids :: id in s.actors
  {
    Disable(StopAll(s, ids), p)
  }

  /** The end of a run of a terminating actor: reported, and deleted. */
  function Finish(s: Flow, id: nat): Flow {
    s.(actors := s.actors - {id}, terminating := s.terminating - 1, deleted := s.deleted + [id])
  }

  /** The end of a run of any other. */
  function Rest(s: Flow, id: nat): Flow
    requires id in s.actors
  {
    var t := s.(actors := s.actors[id := s.actors[id].(active := false)]);
    if s.actors[id].mailbox != [] then Activate(t, id) else t
  }

  function Posted(a: Key, ps: seq<Payload>): (ms: seq<Message>)
    ensures |ms| == |ps| && forall i :: 0 <= i < |ps| ==> ms[i] == User(a, ps[i])
  {
    seq(|ps|, i requires 0 <= i < |ps| => User(a, ps[i]))
  }

  /** One `do_work`: the payload is taken, the operator changed, its messages sent. */
  function Absorb(s: Flow, id: nat, w: Outcome): Flow
    requires id in s.actors && s.actors[id].mailbox != [] && |s.actors[id].address| == ADDRESS_LENGTH
    requires StageOf(s.actors[id].address) < 0x8000
  {
    var a := s.actors[id];
    s.(actors := s.actors[id := a.(op := w.op, mailbox := a.mailbox[1..])],
       mailbox := s.mailbox + Posted(Downstream(a.address, StageOf(a.address) + 1), w.sent),
       output := s.output + w.printed, trace := s.trace + [Acted(a.address)])
  }
}

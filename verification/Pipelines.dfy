/**
  A chain of operators, OUT after OUT and a LIMIT at the end, seen as what each stage still has to
  work on. The printed output plus what would still be printed is the same after every step, in
  whatever order the stages get to work; that is why time slicing does not matter.
 */
module Pipelines {
  import opened Bytes
  import opened Operators

  /** A stage: stopped for good, or its operator and the payloads on their way to it, oldest first. */
  datatype View = Gone | Here(op: Op, queue: seq<Payload>)

  function Work(g: Graph, op: Op, data: Payload): Outcome {
    if op.Out? then OutWork(g, op, data) else LimitWork(op, data)
  }

  /** OUT everywhere but at the end, all of them before their end of stream. */
  ghost predicate OpFits(op: Op, last: bool) {
    if last then op.Limit? && op.ends == 0 && op.last else op.Out? && op.eos == 0 && |op.buffer| < CAPACITY
  }

  ghost predicate Shape(vs: seq<View>) {
    |vs| > 0 && forall i :: 0 <= i < |vs| ==> vs[i].Here? ==> OpFits(vs[i].op, i == |vs| - 1)
  }

  /** All payloads the `i`-th stage will ever be given, if nothing is cancelled from outside. */
  ghost function Pending(g: Graph, vs: seq<View>, i: nat): seq<Payload>
    requires i < |vs|
    decreases i, 0
  {
    if vs[i].Gone? then [] else vs[i].queue + if i == 0 then [] else Sent(g, vs, i - 1)
  }

  /** All it will send. */
  ghost function Sent(g: Graph, vs: seq<View>, i: nat): seq<Payload>
    requires i < |vs|
    decreases i, 1
  {
    if vs[i].Here? && vs[i].op.Out? then Emits(g, vs[i].op.buffer, Pending(g, vs, i)) else []
  }

  /** All that will still be printed. */
  ghost function Printed(g: Graph, vs: seq<View>): seq<LightNode>
    requires |vs| > 0
  {
    var v := vs[|vs| - 1];
    if v.Here? && v.op.Limit? then Prints(v.op.limit, v.op.count, Pending(g, vs, |vs| - 1)) else []
  }

  /** How often the first `n` stages will still work. */
  ghost function WorkLeft(g: Graph, vs: seq<View>, n: nat): nat
    requires n <= |vs|
  {
    if n == 0 then 0 else WorkLeft(g, vs, n - 1) + |Pending(g, vs, n - 1)|
  }

  ghost function Given(vs: seq<View>, j: nat, ps: seq<Payload>): seq<View> {
    if j < |vs| && vs[j].Here? then vs[j := vs[j].(queue := vs[j].queue + ps)] else vs
  }

  /** Stage `i` has worked on the payload at the head of its queue. */
  ghost function Worked(vs: seq<View>, i: nat, w: Outcome): seq<View>
    requires i < |vs| && vs[i].Here? && vs[i].queue != []
  {
    Given(vs[i := if w.flag == CancelMe then Gone else Here(w.op, vs[i].queue[1..])], i + 1, w.sent)
  }

  lemma {:induction false} PendingLocal(g: Graph, vs: seq<View>, vs': seq<View>, j: nat)
    requires |vs| == |vs'| && j < |vs| && forall k :: 0 <= k <= j ==> vs[k] == vs'[k]
    ensures Pending(g, vs, j) == Pending(g, vs', j) && Sent(g, vs, j) == Sent(g, vs', j)
    decreases j
  {
    hide Emits;
    assert vs[j] == vs'[j];
    if j > 0 { PendingLocal(g, vs, vs', j - 1); }
  }

  ghost predicate CanWork(g: Graph, vs: seq<View>, i: nat, w: Outcome) {
    && Shape(vs) && i < |vs| && vs[i].Here? && vs[i].queue != []
    && w == Work(g, vs[i].op, vs[i].queue[0])
  }

  lemma WorkKeepsFit(g: Graph, op: Op, data: Payload, last: bool)
    requires OpFits(op, last)
    ensures var w := Work(g, op, data);
            && (w.flag != CancelMe ==> OpFits(w.op, last))
            && (last ==> w.sent == [] && w.op.Limit? && w.op.limit == op.limit)
            && (!last ==> w.printed == [])
  {
    hide Fill, FlatMap;
    if op.Out? && data.Data? { FillExact(op.buffer, FlatMap(g, data.nodes)); }
  }

  lemma EmitsFirst(g: Graph, op: Op, ps: seq<Payload>)
    requires OpFits(op, false) && ps != []
    ensures var w := Work(g, op, ps[0]);
            Emits(g, op.buffer, ps) ==
            w.sent + if w.flag == CancelMe then [] else Emits(g, w.op.buffer, ps[1..])
  {
    assert op == Out(op.buffer, 0);
  }

  lemma PrintsFirst(g: Graph, op: Op, ps: seq<Payload>)
    requires OpFits(op, true) && ps != []
    ensures var w := Work(g, op, ps[0]);
            Prints(op.limit, op.count, ps) ==
            w.printed + if w.flag == CancelMe then [] else Prints(w.op.limit, w.op.count, ps[1..])
  {
    assert op == Limit(op.limit, op.count, 0, true);
  }

  /** Behind a stage that has worked nothing changes: what it will not send any more is already on its way. */
  lemma {:induction false} PendingWorked(g: Graph, vs: seq<View>, i: nat, w: Outcome, j: nat)
    requires CanWork(g, vs, i, w) && j < |vs|
    ensures var vs' := Worked(vs, i, w);
            Pending(g, vs', j) == if j != i then Pending(g, vs, j)
                                  else if w.flag == CancelMe then [] else Pending(g, vs, i)[1..]
    decreases j
  {
    hide Work, Emits, OpFits;
    var vs' := Worked(vs, i, w);
    if j < i {
      PendingLocal(g, vs, vs', j);
    } else if j == i {
      if i > 0 { PendingLocal(g, vs, vs', i - 1); }
      TailOfConcat(vs[i].queue, if i == 0 then [] else Sent(g, vs, i - 1));
    } else {
      PendingWorked(g, vs, i, w, j - 1);
      if j == i + 1 { SentWorked(g, vs, i, w); }
    }
  }

  lemma TailOfConcat<T>(a: seq<T>, b: seq<T>)
    requires a != []
    ensures (a + b)[1..] == a[1..] + b && (a + b)[0] == a[0]
  {
  }

  lemma SentWorked(g: Graph, vs: seq<View>, i: nat, w: Outcome)
    requires CanWork(g, vs, i, w) && i + 1 < |vs|
    requires var vs' := Worked(vs, i, w);
             Pending(g, vs', i) == if w.flag == CancelMe then [] else Pending(g, vs, i)[1..]
    ensures Sent(g, vs, i) == w.sent + Sent(g, Worked(vs, i, w), i)
    ensures vs[i + 1].Here? ==>
              vs[i + 1].queue + Sent(g, vs, i) == (vs[i + 1].queue + w.sent) + Sent(g, Worked(vs, i, w), i)
  {
    hide Work, Emits;
    var ps := Pending(g, vs, i);
    TailOfConcat(vs[i].queue, if i == 0 then [] else Sent(g, vs, i - 1));
    EmitsFirst(g, vs[i].op, ps);
    WorkKeepsFit(g, vs[i].op, ps[0], false);
    if vs[i + 1].Here? { Associative(vs[i + 1].queue, w.sent, Sent(g, Worked(vs, i, w), i)); }
  }

  /** The denotation is kept: printed before, plus still to be printed. */
  lemma PrintedWorked(g: Graph, vs: seq<View>, i: nat, w: Outcome)
    requires CanWork(g, vs, i, w)
    ensures Printed(g, vs) == w.printed + Printed(g, Worked(vs, i, w))
  {
    hide Work, Prints, Pending;
    var h := |vs| - 1;
    PendingWorked(g, vs, i, w, h);
    WorkKeepsFit(g, vs[i].op, vs[i].queue[0], i == h);
    if i == h {
      HeadPending(g, vs, i);
      PrintsFirst(g, vs[h].op, Pending(g, vs, h));
    }
  }

  lemma HeadPending(g: Graph, vs: seq<View>, i: nat)
    requires i < |vs| && vs[i].Here? && vs[i].queue != []
    ensures Pending(g, vs, i) != [] && Pending(g, vs, i)[0] == vs[i].queue[0]
  {
  }

  /** Every `do_work` uses up work. */
  lemma WorkLeftWorked(g: Graph, vs: seq<View>, i: nat, w: Outcome)
    requires CanWork(g, vs, i, w)
    ensures WorkLeft(g, Worked(vs, i, w), |vs|) < WorkLeft(g, vs, |vs|)
  {
    WorkLeftUpTo(g, vs, i, w, |vs|);
  }

  lemma {:induction false} WorkLeftUpTo(g: Graph, vs: seq<View>, i: nat, w: Outcome, n: nat)
    requires CanWork(g, vs, i, w) && n <= |vs|
    ensures |Worked(vs, i, w)| == |vs|
    ensures if n <= i then WorkLeft(g, Worked(vs, i, w), n) == WorkLeft(g, vs, n)
            else WorkLeft(g, Worked(vs, i, w), n) < WorkLeft(g, vs, n)
    decreases n
  {
    hide Work, Pending, Shape;
    if n > 0 {
      WorkLeftUpTo(g, vs, i, w, n - 1);
      PendingWorked(g, vs, i, w, n - 1);
      HeadPending(g, vs, i);
    }
  }

  // ---------------------------------------------------------------- how stages end

  /** Stage `i` is stopped for good, or will be: its end of stream is on the way, and a LIMIT is below its limit. */
  ghost predicate Ending(g: Graph, vs: seq<View>, i: nat) {
    && i < |vs|
    && (vs[i].Here? ==>
          Eos in Pending(g, vs, i) && (vs[i].op.Limit? ==> vs[i].op.count < vs[i].op.limit))
  }

  /** A LIMIT of zero is at its limit from the start, and never asks to be cancelled. */
  ghost predicate Endless(v: View) {
    v.Here? && v.op.Limit? && v.op.limit == 0
  }

  /** Stages that will end still will, and those that never do are still there. */
  ghost predicate Closing(g: Graph, vs: seq<View>, vs': seq<View>) {
    && |vs'| == |vs|
    && (forall i: nat | Ending(g, vs, i) :: Ending(g, vs', i))
    && (forall i | 0 <= i < |vs| && Endless(vs[i]) :: Endless(vs'[i]))
  }

  /** An operator that goes on has not met the end of its stream, nor its limit. */
  lemma GoesOn(g: Graph, op: Op, data: Payload, last: bool)
    requires OpFits(op, last) && Work(g, op, data).flag != CancelMe && (op.Limit? ==> op.count < op.limit)
    ensures data != Eos
    ensures var w := Work(g, op, data); w.op.Limit? ==> w.op.count < w.op.limit
  {
    hide Fill, FlatMap;
  }

  /** At zero it goes on, whatever it is given. */
  lemma NeverEnds(g: Graph, op: Op, data: Payload)
    requires op.Limit? && op.limit == 0
    ensures Work(g, op, data).flag != CancelMe && Work(g, op, data).op == op
  {
  }

  lemma EndingWorked(g: Graph, vs: seq<View>, i: nat, w: Outcome, j: nat)
    requires CanWork(g, vs, i, w) && Ending(g, vs, j)
    ensures Ending(g, Worked(vs, i, w), j)
  {
    hide Work, Pending, OpFits;
    PendingWorked(g, vs, i, w, j);
    if j == i {
      HeadPending(g, vs, i);
      if w.flag != CancelMe { GoesOn(g, vs[i].op, vs[i].queue[0], i == |vs| - 1); }
    }
  }

  /** No work takes the end of its stream from a stage that will end, and none ends a LIMIT of zero. */
  lemma ClosingWorked(g: Graph, vs: seq<View>, i: nat, w: Outcome)
    requires CanWork(g, vs, i, w)
    ensures Closing(g, vs, Worked(vs, i, w))
  {
    hide Work, Pending, OpFits, Ending;
    var vs' := Worked(vs, i, w);
    forall j: nat | Ending(g, vs, j) ensures Ending(g, vs', j) { EndingWorked(g, vs, i, w, j); }
    forall j | 0 <= j < |vs| && Endless(vs[j]) ensures Endless(vs'[j]) {
      if j == i { NeverEnds(g, vs[i].op, vs[i].queue[0]); }
    }
  }

  lemma ClosingSame(g: Graph, vs: seq<View>)
    ensures Closing(g, vs, vs)
  {
  }

  lemma ClosingStep(g: Graph, vs: seq<View>, ws: seq<View>, us: seq<View>)
    requires Closing(g, vs, ws) && Closing(g, ws, us)
    ensures Closing(g, vs, us)
  {
    hide Ending, Endless;
  }

  /** Nothing queued anywhere: what was to end is gone. */
  lemma IdleGone(g: Graph, vs: seq<View>, i: nat)
    requires Ending(g, vs, i) && forall j :: 0 <= j < |vs| ==> vs[j].Here? ==> vs[j].queue == []
    ensures vs[i].Gone?
  {
    IdlePending(g, vs, i);
  }

  // ---------------------------------------------------------------- the whole pipeline

  /** All results of `k` hops. */
  function Hops(g: Graph, k: nat, xs: seq<LightNode>): seq<LightNode> {
    if k == 0 then xs else FlatMap(g, Hops(g, k - 1, xs))
  }

  /** One hop from one vertex: its neighbours. */
  lemma OneVertex(g: Graph, inputs: seq<seq<LightNode>>)
    requires |inputs| == 1 && |inputs[0]| == 1
    ensures Hops(g, 1, Concat(inputs)) == g(inputs[0][0])
  {
    var x := inputs[0][0];
    assert inputs[0] == [x] && inputs == [inputs[0]];
    ConcatCons([x], []);
    assert [[x]] == [[x]] + [] && [x] + Concat([]) == [x];
    FlatMapOne(g, x);
    assert Hops(g, 0, [x]) == [x];
  }

  function NewOp(i: nat, hops: nat, limit: nat): Op {
    if i < hops then Out([], 0) else Limit(limit, 0, 0, true)
  }

  /** A pipeline of `hops` OUT stages and a LIMIT, before any work, with a stream of inputs on its way. */
  ghost predicate Initial(vs: seq<View>, hops: nat, limit: nat, ds: seq<seq<LightNode>>) {
    && |vs| == hops + 1
    && forall i :: 0 <= i <= hops ==>
         vs[i] == Here(NewOp(i, hops, limit), if i == 0 then Stream(ds) else [])
  }

  lemma {:induction false} InitialPending(g: Graph, vs: seq<View>, hops: nat, limit: nat, ds: seq<seq<LightNode>>,
                                          i: nat)
    returns (bs: seq<seq<LightNode>>)
    requires Initial(vs, hops, limit, ds) && i <= hops
    ensures Pending(g, vs, i) == Stream(bs) && Concat(bs) == Hops(g, i, Concat(ds))
    decreases i
  {
    hide Emits, Stream, Concat, FlatMap;
    if i == 0 {
      bs := ds;
      assert Stream(ds) + [] == Stream(ds);
    } else {
      var before := InitialPending(g, vs, hops, limit, ds, i - 1);
      bs := Batching(g, before);
      assert [] + Stream(bs) == Stream(bs);
    }
  }

  /** Before any work every stage will end, but a LIMIT of zero never does. */
  lemma InitialEnding(g: Graph, vs: seq<View>, hops: nat, limit: nat, ds: seq<seq<LightNode>>, i: nat)
    requires Initial(vs, hops, limit, ds) && i <= hops
    ensures if i == hops && limit == 0 then Endless(vs[i]) else Ending(g, vs, i)
  {
    hide Pending, Concat, Hops;
    var bs := InitialPending(g, vs, hops, limit, ds, i);
    assert Stream(bs)[|bs|] == Eos;
  }

  /** Any number of inputs, then the end: exactly the first `limit` results of all hops, in order. */
  lemma PipelineResult(g: Graph, vs: seq<View>, hops: nat, limit: nat, ds: seq<seq<LightNode>>)
    requires Initial(vs, hops, limit, ds)
    ensures Printed(g, vs)
         == Hops(g, hops, Concat(ds))[..Min(|Hops(g, hops, Concat(ds))|, limit)]
  {
    hide Pending, Prints, Stream, Concat, Hops;
    var bs := InitialPending(g, vs, hops, limit, ds, hops);
    PrintsStream(limit, 0, bs);
  }

  /** Nothing queued anywhere: nothing more will be printed. */
  lemma {:induction false} IdlePending(g: Graph, vs: seq<View>, j: nat)
    requires j < |vs| && forall i :: 0 <= i < |vs| ==> vs[i].Here? ==> vs[i].queue == []
    ensures Pending(g, vs, j) == [] && Sent(g, vs, j) == []
    decreases j
  {
    if j > 0 { IdlePending(g, vs, j - 1); }
  }

  lemma IdlePrinted(g: Graph, vs: seq<View>)
    requires |vs| > 0 && forall i :: 0 <= i < |vs| ==> vs[i].Here? ==> vs[i].queue == []
    ensures Printed(g, vs) == []
  {
    IdlePending(g, vs, |vs| - 1);
  }
}

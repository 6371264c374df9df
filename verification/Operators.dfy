/** The operators of the plan: what `do_work` of OUT and LIMIT does to their fields, sends and prints. */
module Operators {
  import opened Bytes

  datatype LightNode = LightNode(vertex: int, time: int)

  datatype Payload = Data(nodes: seq<LightNode>) | Eos | Nothing

  /** `GetOutV` for the label, time weight and latest arrival of the plan. */
  type Graph = LightNode -> seq<LightNode>

  datatype Flag = Available | CancelMe | Error

  /** `max_payload_capacity`. */
  const CAPACITY := 100

  /** `_num_upstreams`: one shard. */
  const UPSTREAMS := 1

  /** The mutable fields of an operator. */
  datatype Op =
    | Out(buffer: seq<LightNode>, eos: nat)
    | Limit(limit: nat, count: nat, ends: nat, last: bool)

  /** What one `do_work` leaves behind: new fields, payloads sent downstream, nodes printed. */
  datatype Outcome = Outcome(op: Op, sent: seq<Payload>, printed: seq<LightNode>, flag: Flag)

  // ---------------------------------------------------------------- OUT

  /** The buffer after some nodes were added, and the full batches sent meanwhile. */
  datatype Filled = Filled(rest: seq<LightNode>, full: seq<seq<LightNode>>)

  function Fill(buffer: seq<LightNode>, xs: seq<LightNode>): Filled {
    if xs == [] then Filled(buffer, [])
    else
      var f := Fill(buffer, xs[..|xs| - 1]);
      var b := f.rest + [xs[|xs| - 1]];
      if |b| >= CAPACITY then Filled([], f.full + [b]) else Filled(b, f.full)
  }

  function FlatMap(g: Graph, xs: seq<LightNode>): seq<LightNode> {
    if xs == [] then [] else FlatMap(g, xs[..|xs| - 1]) + g(xs[|xs| - 1])
  }

  /** For one node it is that node's neighbours; `FlatMapConcat` extends this to every input. */
  lemma FlatMapOne(g: Graph, x: LightNode)
    ensures FlatMap(g, [x]) == g(x) && FlatMap(g, []) == []
  {
    assert [x][..0] == [];
    assert FlatMap(g, []) + g(x) == g(x);
  }

  function Concat(bs: seq<seq<LightNode>>): seq<LightNode> {
    if bs == [] then [] else Concat(bs[..|bs| - 1]) + bs[|bs| - 1]
  }

  function Datas(bs: seq<seq<LightNode>>): (ps: seq<Payload>)
    ensures |ps| == |bs| && forall i :: 0 <= i < |bs| ==> ps[i] == Data(bs[i])
  {
    seq(|bs|, i requires 0 <= i < |bs| => Data(bs[i]))
  }

  lemma SnocOf<T>(a: seq<T>, b: seq<T>)
    requires b != []
    ensures (a + b)[..|a + b| - 1] == a + b[..|b| - 1] && (a + b)[|a + b| - 1] == b[|b| - 1]
  {
  }

  /** Every batch sent is exactly full, the buffer is not, and nothing is lost or reordered. */
  ghost predicate Exact(buffer: seq<LightNode>, xs: seq<LightNode>, f: Filled) {
    && (forall i :: 0 <= i < |f.full| ==> |f.full[i]| == CAPACITY)
    && |f.rest| < CAPACITY
    && Concat(f.full) + f.rest == buffer + xs
  }

  lemma {:induction false} FillExact(buffer: seq<LightNode>, xs: seq<LightNode>)
    requires |buffer| < CAPACITY
    ensures Exact(buffer, xs, Fill(buffer, xs))
    decreases |xs|
  {
    if xs != [] {
      var ys, x := xs[..|xs| - 1], xs[|xs| - 1];
      FillExact(buffer, ys);
      var f := Fill(buffer, ys);
      var b := f.rest + [x];
      assert xs == ys + [x];
      Associative(Concat(f.full), f.rest, [x]);
      Associative(buffer, ys, [x]);
      assert Concat(f.full) + b == buffer + xs;
      assert (f.full + [b])[..|f.full|] == f.full;
    } else {
      assert Concat([]) + buffer == buffer + xs;
    }
  }

  /** Those three facts leave no choice. */
  lemma {:induction false} ExactUnique(buffer: seq<LightNode>, xs: seq<LightNode>, f: Filled, h: Filled)
    requires Exact(buffer, xs, f) && Exact(buffer, xs, h)
    ensures f == h
  {
    ConcatLength(f.full);
    ConcatLength(h.full);
    assert |f.full| == |h.full|;
    SamePieces(f.full, f.rest, h.full, h.rest);
  }

  lemma {:induction false} ConcatLength(bs: seq<seq<LightNode>>)
    requires forall i :: 0 <= i < |bs| ==> |bs[i]| == CAPACITY
    ensures |Concat(bs)| == CAPACITY * |bs|
    decreases |bs|
  {
    if bs != [] { ConcatLength(bs[..|bs| - 1]); }
  }

  lemma {:induction false} SamePieces(a: seq<seq<LightNode>>, r: seq<LightNode>,
                                      b: seq<seq<LightNode>>, s: seq<LightNode>)
    requires |a| == |b| && |r| == |s| && Concat(a) + r == Concat(b) + s
    requires forall i :: 0 <= i < |a| ==> |a[i]| == |b[i]| == CAPACITY
    ensures a == b && r == s
    decreases |a|
  {
    ConcatLength(a);
    ConcatLength(b);
    assert Concat(a) == (Concat(a) + r)[..|Concat(a)|];
    assert r == (Concat(a) + r)[|Concat(a)|..];
    if a != [] {
      SamePieces(a[..|a| - 1], a[|a| - 1], b[..|b| - 1], b[|b| - 1]);
      assert a == a[..|a| - 1] + [a[|a| - 1]] && b == b[..|b| - 1] + [b[|b| - 1]];
    }
  }

  lemma {:induction false} FillConcat(buffer: seq<LightNode>, xs: seq<LightNode>, ys: seq<LightNode>)
    ensures var f := Fill(buffer, xs); var h := Fill(f.rest, ys);
            Fill(buffer, xs + ys) == Filled(h.rest, f.full + h.full)
    decreases |ys|
  {
    var f := Fill(buffer, xs);
    if ys == [] {
      assert xs + ys == xs && f.full + [] == f.full;
    } else {
      FillConcat(buffer, xs, ys[..|ys| - 1]);
      SnocOf(xs, ys);
      var h := Fill(f.rest, ys[..|ys| - 1]);
      Associative(f.full, h.full, [h.rest + [ys[|ys| - 1]]]);
    }
  }

  /** `out_op` on user data: the two nested loops over nodes and their neighbours. */
  method OutData(g: Graph, nodes: seq<LightNode>, buffer: seq<LightNode>)
    returns (rest: seq<LightNode>, sent: seq<Payload>)
    requires |buffer| < CAPACITY
    ensures Filled(rest, Batches(sent)) == Fill(buffer, FlatMap(g, nodes))
    ensures sent == Datas(Batches(sent)) && |rest| < CAPACITY
    ensures Concat(Batches(sent)) + rest == buffer + FlatMap(g, nodes)
    ensures |rest| < 100 && forall b | b in Batches(sent) :: |b| == 100
    ensures |nodes| == 1 ==> Concat(Batches(sent)) + rest == buffer + g(nodes[0])
  {
    rest, sent := buffer, [];
    var full: seq<seq<LightNode>> := [];
    var i := 0;
    while i < |nodes|
      invariant 0 <= i <= |nodes| && |rest| < CAPACITY
      invariant Filled(rest, full) == Fill(buffer, FlatMap(g, nodes[..i])) && sent == Datas(full)
    {
      var next := g(nodes[i]);
      assert nodes[..i + 1][..i] == nodes[..i];
      ghost var before := FlatMap(g, nodes[..i]);
      assert before + next[..0] == before;
      var j := 0;
      while j < |next|
        invariant 0 <= j <= |next| && |rest| < CAPACITY
        invariant Filled(rest, full) == Fill(buffer, before + next[..j]) && sent == Datas(full)
      {
        SnocOf(before, next[..j + 1]);
        assert next[..j + 1][..j] == next[..j];
        rest := rest + [next[j]];
        if |rest| >= CAPACITY {
          sent, full, rest := sent + [Data(rest)], full + [rest], [];
        }
        j := j + 1;
      }
      assert next[..|next|] == next;
      i := i + 1;
    }
    assert nodes[..|nodes|] == nodes;
    BatchesOf(full);
    FillExact(buffer, FlatMap(g, nodes));
    if |nodes| == 1 { FlatMapOfOne(g, nodes); }
  }

  lemma FlatMapOfOne(g: Graph, xs: seq<LightNode>)
    requires |xs| == 1
    ensures FlatMap(g, xs) == g(xs[0])
  {
    FlatMapOne(g, xs[0]);
    assert xs == [xs[0]];
  }

  /** The batches among payloads. */
  function Batches(ps: seq<Payload>): (bs: seq<seq<LightNode>>)
  {
    if ps == [] then []
    else (if ps[0].Data? then [ps[0].nodes] else []) + Batches(ps[1..])
  }

  lemma {:induction false} BatchesOf(bs: seq<seq<LightNode>>)
    ensures Batches(Datas(bs)) == bs
    decreases |bs|
  {
    if bs != [] {
      BatchesOf(bs[1..]);
      assert Datas(bs)[1..] == Datas(bs[1..]);
      assert bs == [bs[0]] + bs[1..];
    }
  }

  function OutWork(g: Graph, op: Op, data: Payload): Outcome
    requires op.Out?
  {
    match data
    case Data(nodes) =>
      var f := Fill(op.buffer, FlatMap(g, nodes));
      Outcome(op.(buffer := f.rest), Datas(f.full), [], Available)
    case Eos =>
      if op.eos + 1 == UPSTREAMS then Outcome(Out([], op.eos + 1), [Data(op.buffer), Eos], [], CancelMe)
      else Outcome(op.(eos := op.eos + 1), [], [], Available)
    case Nothing => Outcome(op, [], [], Error)
  }

  /** `out_op::do_work`. There is one upstream, so the first end of stream is the last. */
  method DoOut(g: Graph, op: Op, data: Payload) returns (w: Outcome)
    requires op.Out? && |op.buffer| < CAPACITY
    ensures w == OutWork(g, op, data)
    ensures w.op.Out? && |w.op.buffer| < 100 && w.printed == []
    ensures data.Data? ==> w.flag == Available && w.op.eos == op.eos
    ensures data.Data? ==> Concat(Batches(w.sent)) + w.op.buffer == op.buffer + FlatMap(g, data.nodes)
    ensures data.Data? ==> w.sent == Datas(Batches(w.sent)) && forall b | b in Batches(w.sent) :: |b| == 100
    ensures data.Data? && |data.nodes| == 1 ==>
              Concat(Batches(w.sent)) + w.op.buffer == op.buffer + g(data.nodes[0])
    ensures data.Eos? ==> w.op.eos == op.eos + 1 && (w.flag == CancelMe <==> op.eos == 0)
    ensures data.Eos? ==> if w.flag == CancelMe then w.sent == [Data(op.buffer), Eos] && w.op.buffer == []
                          else w.sent == [] && w.op.buffer == op.buffer && w.flag == Available
    ensures data.Nothing? ==> w == Outcome(op, [], [], Error)
  {
    match data
    case Data(nodes) =>
      var rest, sent := OutData(g, nodes, op.buffer);
      w := Outcome(op.(buffer := rest), sent, [], Available);
    case Eos =>
      var op' := op.(eos := op.eos + 1);
      if op'.eos == UPSTREAMS {
        w := Outcome(op'.(buffer := []), [Data(op.buffer)] + [Eos], [], CancelMe);
      } else {
        w := Outcome(op', [], [], Available);
      }
    case Nothing => w := Outcome(op, [], [], Error);
  }

  /** All that an OUT operator sends for these payloads, one upstream; it stops at the end of stream. */
  function Emits(g: Graph, buffer: seq<LightNode>, ps: seq<Payload>): seq<Payload>
    decreases |ps|
  {
    if ps == [] then []
    else
      var w := OutWork(g, Out(buffer, 0), ps[0]);
      w.sent + if w.flag == CancelMe then [] else Emits(g, w.op.buffer, ps[1..])
  }

  lemma {:induction false} FlatMapConcat(g: Graph, xs: seq<LightNode>, ys: seq<LightNode>)
    ensures FlatMap(g, xs + ys) == FlatMap(g, xs) + FlatMap(g, ys)
    decreases |ys|
  {
    if ys == [] {
      assert xs + ys == xs;
    } else {
      FlatMapConcat(g, xs, ys[..|ys| - 1]);
      SnocOf(xs, ys);
      Associative(FlatMap(g, xs), FlatMap(g, ys[..|ys| - 1]), g(ys[|ys| - 1]));
    }
  }

  lemma {:induction false} ConcatConcat(a: seq<seq<LightNode>>, b: seq<seq<LightNode>>)
    ensures Concat(a + b) == Concat(a) + Concat(b)
    decreases |b|
  {
    if b == [] {
      assert a + b == a;
    } else {
      ConcatConcat(a, b[..|b| - 1]);
      SnocOf(a, b);
      Associative(Concat(a), Concat(b[..|b| - 1]), b[|b| - 1]);
    }
  }

  lemma ConcatCons(d: seq<LightNode>, ds: seq<seq<LightNode>>)
    ensures Concat([d] + ds) == d + Concat(ds)
  {
    ConcatConcat([d], ds);
    assert [d][..0] == [];
  }

  /** The payloads of a stream: its batches, then the end. */
  function Stream(bs: seq<seq<LightNode>>): (ps: seq<Payload>)
    ensures |ps| == |bs| + 1
  {
    Datas(bs) + [Eos]
  }

  lemma StreamCons(d: seq<LightNode>, ds: seq<seq<LightNode>>)
    ensures Stream([d] + ds)[0] == Data(d) && Stream([d] + ds)[1..] == Stream(ds)
    ensures Stream([d] + ds) == [Data(d)] + Stream(ds)
  {
  }

  /** Batching: what OUT sends is again a stream, cut from the buffer and all neighbours in order. */
  lemma {:induction false} EmitsStream(g: Graph, buffer: seq<LightNode>, ds: seq<seq<LightNode>>)
    ensures var f := Fill(buffer, FlatMap(g, Concat(ds))); Emits(g, buffer, Stream(ds)) == Stream(f.full + [f.rest])
    decreases |ds|
  {
    hide Fill;
    if ds == [] {
      NoFill(buffer);
      assert Stream(ds) == [Eos];
      assert Stream([buffer]) == [Data(buffer), Eos];
      assert Emits(g, buffer, [Eos]) == [Data(buffer), Eos] + [];
      assert [] + [buffer] == [buffer];
    } else {
      var d, rest := ds[0], ds[1..];
      assert ds == [d] + rest;
      StreamCons(d, rest);
      ConcatCons(d, rest);
      FlatMapConcat(g, d, Concat(rest));
      FillConcat(buffer, FlatMap(g, d), FlatMap(g, Concat(rest)));
      var f := Fill(buffer, FlatMap(g, d));
      EmitsStream(g, f.rest, rest);
      var h := Fill(f.rest, FlatMap(g, Concat(rest)));
      StreamAppend(f.full, h.full + [h.rest]);
      Associative(f.full, h.full, [h.rest]);
    }
  }

  lemma NoFill(buffer: seq<LightNode>)
    ensures Fill(buffer, []) == Filled(buffer, [])
  {
  }

  lemma StreamAppend(a: seq<seq<LightNode>>, b: seq<seq<LightNode>>)
    ensures Datas(a) + Stream(b) == Stream(a + b)
  {
  }

  /**
    For any inputs ended by EOS, OUT sends batches that are full but for the last, which is not,
    and which together are all neighbours of all inputs in order; then EOS.
   */
  lemma Batching(g: Graph, ds: seq<seq<LightNode>>) returns (bs: seq<seq<LightNode>>)
    ensures Emits(g, [], Stream(ds)) == Stream(bs)
    ensures Concat(bs) == FlatMap(g, Concat(ds))
    ensures |bs| == |FlatMap(g, Concat(ds))| / 100 + 1
    ensures forall i :: 0 <= i < |bs| - 1 ==> |bs[i]| == 100
    ensures |bs[|bs| - 1]| < 100
  {
    hide Fill, Emits;
    var all := FlatMap(g, Concat(ds));
    var f := Fill([], all);
    bs := f.full + [f.rest];
    EmitsStream(g, [], ds);
    FillExact([], all);
    ConcatConcat(f.full, [f.rest]);
    assert Concat([f.rest]) == f.rest by { assert [f.rest][..0] == []; assert Concat([]) + f.rest == f.rest; }
    ConcatLength(f.full);
    assert [] + all == all;
    assert |all| == CAPACITY * |f.full| + |f.rest|;
  }

  // ---------------------------------------------------------------- LIMIT

  function LimitWork(op: Op, data: Payload): Outcome
    requires op.Limit?
  {
    if op.count >= op.limit then Outcome(op, [], [], Available)
    else match data
      case Data(nodes) =>
        var k := Min(|nodes|, op.limit - op.count);
        Outcome(op.(count := op.count + k), [], nodes[..k], if op.count + k >= op.limit then CancelMe else Available)
      case Eos =>
        Outcome(op.(ends := op.ends + 1), [], [],
                if op.ends + 1 == UPSTREAMS && op.last then CancelMe else Available)
      case Nothing => Outcome(op, [], [], Error)
  }

  /** `limit_op::do_work`: it asks to be cancelled when the limit is reached, or at the end of its only upstream. */
  method DoLimit(op: Op, data: Payload) returns (w: Outcome)
    requires op.Limit?
    ensures w == LimitWork(op, data) && w.op.Limit? && w.sent == []
    ensures op.count >= op.limit ==> w == Outcome(op, [], [], Available)
    ensures op.count < op.limit && data.Data? ==>
              && w.printed == data.nodes[..|w.printed|]
              && (|w.printed| == |data.nodes| || op.count + |w.printed| == op.limit)
              && w.op == op.(count := op.count + |w.printed|) && w.op.count <= op.limit
              && w.flag == if op.count + |data.nodes| >= op.limit then CancelMe else Available
    ensures op.count < op.limit && data.Eos? ==>
              && w.printed == [] && w.op == op.(ends := op.ends + 1)
              && w.flag == if op.ends == 0 && op.last then CancelMe else Available
    ensures op.count < op.limit && data.Nothing? ==> w == Outcome(op, [], [], Error)
  {
    var op', printed, flag := op, [], Available;
    if op.count >= op.limit { return Outcome(op, [], [], flag); }
    match data {
      case Data(nodes) =>
        var i := 0;
        while i < |nodes|
          invariant 0 <= i <= |nodes| && printed == nodes[..i]
          invariant op' == op.(count := op.count + i) && op'.count < op.limit && flag == Available
        {
          assert nodes[..i + 1] == nodes[..i] + [nodes[i]];
          printed := printed + [nodes[i]];
          op' := op'.(count := op'.count + 1);
          if op'.count >= op'.limit {
            flag := CancelMe;
            return Outcome(op', [], printed, flag);
          }
          i := i + 1;
        }
      case Eos =>
        op' := op'.(ends := op'.ends + 1);
        if op'.ends == UPSTREAMS && op'.last { flag := CancelMe; }
      case Nothing =>
        flag := Error;
    }
    w := Outcome(op', [], printed, flag);
  }

  /** All that a LIMIT operator prints for these payloads; it stops when its limit or the end is reached. */
  function Prints(limit: nat, count: nat, ps: seq<Payload>): seq<LightNode>
    decreases |ps|
  {
    if ps == [] then []
    else
      var w := LimitWork(Limit(limit, count, 0, true), ps[0]);
      w.printed + if w.flag == CancelMe then [] else Prints(limit, w.op.count, ps[1..])
  }

  lemma {:induction false} PrintsStream(limit: nat, count: nat, bs: seq<seq<LightNode>>)
    requires count <= limit
    ensures Prints(limit, count, Stream(bs)) == Concat(bs)[..Min(|Concat(bs)|, limit - count)]
    decreases |bs|
  {
    hide Concat, Stream;
    if bs == [] {
      NoStream();
      assert Prints(limit, count, [Eos]) == [] + [];
    } else {
      var b, rest := bs[0], bs[1..];
      assert bs == [b] + rest;
      StreamCons(b, rest);
      ConcatCons(b, rest);
      TakeAcross(b, Concat(rest), limit - count);
      PrintsStream(limit, count + Min(|b|, limit - count), rest);
      PrintsData(limit, count, b, Stream(rest));
    }
  }

  lemma NoStream()
    ensures Stream([]) == [Eos] && Concat([]) == []
  {
  }

  /** A limit that is used up prints nothing more. */
  lemma {:induction false} PrintsFull(limit: nat, count: nat, ps: seq<Payload>)
    requires count >= limit
    ensures Prints(limit, count, ps) == []
    decreases |ps|
  {
    if ps != [] { PrintsFull(limit, count, ps[1..]); }
  }

  lemma PrintsData(limit: nat, count: nat, b: seq<LightNode>, ps: seq<Payload>)
    requires count <= limit
    ensures var k := Min(|b|, limit - count);
            Prints(limit, count, [Data(b)] + ps) == b[..k] + Prints(limit, count + k, ps)
  {
    assert ([Data(b)] + ps)[0] == Data(b) && ([Data(b)] + ps)[1..] == ps;
    var k := Min(|b|, limit - count);
    if count + k >= limit { PrintsFull(limit, count + k, ps); }
    if count >= limit { PrintsFull(limit, count, [Data(b)] + ps); }
  }

  lemma TakeAcross<T>(b: seq<T>, c: seq<T>, n: nat)
    ensures (b + c)[..Min(|b + c|, n)] == b[..Min(|b|, n)] + c[..Min(|c|, n - Min(|b|, n))]
  {
  }
}

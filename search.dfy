/**
 * The planner object: per-request endpoints and appendices, the node
 * arena, the running minimum and the best path, and the operations that
 * set up the arena, run the search and assemble candidates.
 */
module Planner {
  import opened Wrappers
  import opened Geometry
  import opened CourseGraph
  import opened CostModel
  import opened PathAssembly
  import opened NodeChains
  import opened SearchState
  import opened SearchRounds
  import opened Utilities

  /** What connecting both request poses to the course yields: the appendices, the segments and projected points. */
  datatype Connection = Connection(
    startAppendix: seq<Pose>, startSegment: nat, startPt: Vec2,
    endAppendix: seq<Pose>, endSegment: nat, endPt: Vec2)

  /** The direction symbol of the candidate signature. */
  function Sym(forward: bool): char {
    if forward then '>' else '<'
  }

  /** One direction symbol per node of a chain, for the segment each node leads to. */
  ghost function DirectionSymbols(st: Setting, nodes: map<nat, Node>, chain: seq<nat>): (r: string)
    requires WellFormed(st, nodes) && InArena(chain, nodes)
  {
    seq(|chain|, k requires 0 <= k < |chain| => Sym(IsNextSegmentForward(st, nodes, chain[k])))
  }

  /** The signature spells the direction each node's input gives its next segment: `>` exactly where that is forward. */
  lemma DirectionSymbolsMatchInputs(st: Setting, nodes: map<nat, Node>, chain: seq<nat>)
    requires WellFormed(st, nodes) && InArena(chain, nodes)
    ensures var s := DirectionSymbols(st, nodes, chain);
            var ins := Inputs(st, nodes, chain);
            && |s| == |ins|
            && forall k :: 0 <= k < |s| ==> (s[k] == '>' <==> ins[k].nextForward)
  {
  }

  /**
   * Appends the poses of one node, entered in direction `segmentForward`,
   * from what the node's transition and segments give (`h`): only the
   * curve when the next segment is negligible, otherwise as
   * `AppendKeepingDirection` or `AppendReversing` decide.
   */
  method AppendHop(h: HopInput, segmentForward: bool, res: seq<Pose>)
    returns (out: seq<Pose>, nextForward: bool)
    requires ValidInput(h) && res != []
    ensures (out, nextForward) == HopStep(h, segmentForward, res)
  {
    if h.negligible {
      out := AppendCurveOnly(h, segmentForward, res);
      nextForward := segmentForward;
    } else if h.nextForward == segmentForward {
      out := AppendKeepingDirection(h, segmentForward, res);
      nextForward := segmentForward;
    } else {
      out := AppendReversing(h, segmentForward, res);
      nextForward := !segmentForward;
    }
  }

  /** The next segment is too short to count: the curve alone, and the direction is kept. */
  method AppendCurveOnly(h: HopInput, segmentForward: bool, res: seq<Pose>)
    returns (out: seq<Pose>)
    requires ValidInput(h) && res != [] && h.negligible
    ensures (out, segmentForward) == HopStep(h, segmentForward, res)
  {
    out := InsertCurveSegment(res, h.t.path, h.curveForward);
    ghost var o := Hop(h, segmentForward, res[|res| - 1]);
    assert o == HopOut([], [], segmentForward);
    assert [] + CurvePoses(h.t.path, h.curveForward) + [] == CurvePoses(h.t.path, h.curveForward);
    assert HopPoses(h, o) == CurvePoses(h.t.path, h.curveForward);
  }

  /**
   * The next segment keeps the direction: the curve alone when it is
   * driven the same way, otherwise a turning stub ahead of its entry, the
   * curve, and a stub along the segment ahead of its exit.
   */
  method AppendKeepingDirection(h: HopInput, segmentForward: bool, res: seq<Pose>)
    returns (out: seq<Pose>)
    requires ValidInput(h) && res != [] && !h.negligible && h.nextForward == segmentForward
    ensures (out, segmentForward) == HopStep(h, segmentForward, res)
  {
    var t := h.t;
    var curveForward := h.curveForward;
    var before: seq<Pose>, after: seq<Pose>;
    if curveForward == segmentForward {
      before, after := [], [];
      out := InsertCurveSegment(res, t.path, curveForward);
      assert out == res + before + CurvePoses(t.path, curveForward) + after;
    } else if curveForward {
      before, after := [TurningStubPose(Front(t), res[|res| - 1])], [h.alongTarget];
      out := res + before;
      out := InsertCurveSegment(out, t.path, curveForward);
      out := out + after;
    } else {
      before, after := [TurningStubPose(Back(t), res[|res| - 1])], [h.alongSource];
      out := res + before;
      out := InsertCurveSegment(out, t.path, curveForward);
      out := out + after;
    }
    var o := HopOut(before, after, segmentForward);
    assert Hop(h, segmentForward, res[|res| - 1]) == o;
    HopPosesSplice(h, o, res);
  }

  /**
   * The next segment reverses the direction: one extension along the
   * segment the curve is driven onto, after the curve when the curve keeps
   * the previous direction and before it when it already takes the new one.
   */
  method AppendReversing(h: HopInput, segmentForward: bool, res: seq<Pose>)
    returns (out: seq<Pose>)
    requires ValidInput(h) && res != [] && !h.negligible && h.nextForward != segmentForward
    ensures (out, !segmentForward) == HopStep(h, segmentForward, res)
  {
    var t := h.t;
    var curveForward := h.curveForward;
    var before: seq<Pose>, after: seq<Pose>;
    if segmentForward {
      if curveForward {
        before, after := [], [h.alongTarget];
        out := InsertCurveSegment(res, t.path, curveForward);
        out := out + after;
        assert out == res + before + CurvePoses(t.path, curveForward) + after;
      } else {
        before, after := [h.alongTarget], [];
        out := res + before;
        out := InsertCurveSegment(out, t.path, curveForward);
        assert out == res + before + CurvePoses(t.path, curveForward) + after;
      }
    } else {
      if curveForward {
        before, after := [h.alongSource], [];
        out := res + before;
        out := InsertCurveSegment(out, t.path, curveForward);
        assert out == res + before + CurvePoses(t.path, curveForward) + after;
      } else {
        before, after := [], [h.alongSource];
        out := InsertCurveSegment(res, t.path, curveForward);
        out := out + after;
        assert out == res + before + CurvePoses(t.path, curveForward) + after;
      }
    }
    var o := HopOut(before, after, !segmentForward);
    assert Hop(h, segmentForward, res[|res| - 1]) == o;
    HopPosesSplice(h, o, res);
  }

  /**
   * The inner loop of `EnqueueStartingNodes` on the arena's value: each
   * transition of `transitions` gets its start cost and joins the frontier.
   */
  method SeedList(st: Setting, base: map<nat, Node>, transitions: seq<nat>, frontier: set<nat>, arena: map<nat, Node>)
    returns (frontier': set<nat>, arena': map<nat, Node>)
    requires WellFormed(st, base) && frontier <= base.Keys && arena == Seeded(st, base, frontier)
    requires forall k :: 0 <= k < |transitions| ==> transitions[k] in base
    ensures forall t :: t in frontier' <==> t in frontier || t in transitions
    ensures frontier' <= base.Keys && arena' == Seeded(st, base, frontier')
  {
    frontier', arena' := frontier, arena;
    for k := 0 to |transitions|
      invariant forall t :: t in frontier' <==> t in frontier || t in transitions[..k]
      invariant frontier' <= base.Keys
      invariant arena' == Seeded(st, base, frontier')
    {
      var t := transitions[k];
      SeededSameLinks(st, base, frontier');
      var node := arena'[t];
      var entry := EntryPoint(st.course.transitions[t], node.curveForward);
      CostsAreNotRead(st, base, arena', t, st.ends.startPt, entry);
      var cost := StraightCost(st, arena', t, st.ends.startPt, entry);
      SeededAdd(st, base, frontier', t);
      arena' := arena'[t := node.(cost := Finite(cost))];
      frontier' := frontier' + {t};
      assert transitions[..k + 1] == transitions[..k] + [t];
    }
    assert transitions[..|transitions|] == transitions;
  }

  /**
   * The walk of `RebuildChain` on the arena's value: collects the chain of
   * `n` by prepending each node met along the `prev` links, and points each
   * predecessor's `next` at the node it was reached from.
   */
  method RelinkChain(base: map<nat, Node>, ghost rank: map<nat, nat>, n: nat) returns (chain: seq<nat>, arena: map<nat, Node>)
    requires n in base && Ranked(base, rank)
    ensures chain == Chain(base, rank, n)
    ensures arena == LinkFrom(base, chain, 0)
  {
    arena := base;
    ghost var full := Chain(base, rank, n);
    ghost var j: int := |full| - 1;
    chain := [];
    var tmp: Option<nat> := Some(n);
    while tmp.Some?
      invariant -1 <= j < |full| && (tmp.Some? <==> j >= 0)
      invariant tmp.Some? ==> full[j] == tmp.value
      invariant chain == full[j + 1..]
      invariant arena == LinkFrom(base, full, if j < 0 then 0 else j)
      decreases j + 1
    {
      var x := tmp.value;
      assert full[j..] == [x] + full[j + 1..];
      chain := [x] + chain;
      var p := base[x].prev;
      ChainPrevAt(base, rank, n, j);
      if p.Some? {
        arena := arena[p.value := arena[p.value].(next := Some(x))];
        assert arena == LinkFrom(base, full, j - 1);
      }
      tmp := p;
      j := j - 1;
    }
  }

  /**
   * The walk of `Signature` on the arena's value: one direction symbol per
   * node, collected back from `head` along the `prev` links, and the node
   * the walk ends at.
   */
  method ChainSymbols(st: Setting, arena: map<nat, Node>, ghost rank: map<nat, nat>, head: nat)
    returns (res: string, first: nat)
    requires WellFormed(st, arena) && head in arena && Ranked(arena, rank)
    ensures first == Chain(arena, rank, head)[0]
    ensures res == DirectionSymbols(st, arena, Chain(arena, rank, head))
  {
    ghost var full := Chain(arena, rank, head);
    ghost var j: int := |full| - 1;
    res := "";
    first := head;
    var tmp: Option<nat> := Some(head);
    while tmp.Some?
      invariant -1 <= j < |full| && (tmp.Some? <==> j >= 0)
      invariant tmp.Some? ==> full[j] == tmp.value && first == tmp.value
      invariant tmp.None? ==> first == full[0]
      invariant |res| == |full| - 1 - j
      invariant forall k :: 0 <= k < |res| ==> res[k] == Sym(IsNextSegmentForward(st, arena, full[j + 1 + k]))
      decreases j + 1
    {
      var x := tmp.value;
      ghost var rest := res;
      res := [Sym(IsNextSegmentForward(st, arena, x))] + res;
      ChainPrevAt(arena, rank, head, j);
      tmp := arena[x].prev;
      if tmp.Some? {
        first := tmp.value;
      }
      j := j - 1;
      forall k | 0 <= k < |res|
        ensures res[k] == Sym(IsNextSegmentForward(st, arena, full[j + 1 + k]))
      {
        if k > 0 {
          assert res[k] == rest[k - 1];
        }
      }
    }
    assert res == DirectionSymbols(st, arena, full);
  }

  /**
   * The loop of `GeneratePath` over what each node of the chain gives:
   * starting from `first`, every node's poses in turn, each entered in the
   * direction the previous one left.
   */
  method AppendHops(ins: seq<HopInput>, first: Pose, startForward: bool) returns (res: seq<Pose>)
    requires ValidInputs(ins)
    ensures res == RunPrefix(ins, first, startForward, |ins|).0
  {
    res := [first];
    var segmentForward := startForward;
    for i := 0 to |ins|
      invariant (res, segmentForward) == RunPrefix(ins, first, startForward, i)
    {
      res, segmentForward := AppendHop(ins[i], segmentForward, res);
      RunPrefixStep(ins, first, startForward, i + 1);
    }
  }

  /**
   * The poses of a node chain: the first pose, each node's curve with the
   * stubs its direction changes call for, the last pose.
   */
  method GeneratePath(st: Setting, nodes: map<nat, Node>, chain: seq<nat>) returns (res: seq<Pose>)
    requires WellFormed(st, nodes) && InArena(chain, nodes) && chain != []
    ensures res == AssembledPath(st, nodes, chain)
  {
    var ins := Inputs(st, nodes, chain);
    var startForward := IsStartSegmentForward(st, nodes, chain[0]);
    res := AppendHops(ins, FirstPose(st), startForward);
    res := res + [LastPose(st)];
  }



  class Search {
    const course: Course
    const params: Params
    var ends: Endpoints
    var startAppendix: seq<Pose>
    var endAppendix: seq<Pose>
    var nodes: map<nat, Node>
    var minCost: Cost
    var bestPath: seq<Pose>

    function Setting(): Setting
      reads this`ends
    {
      CostModel.Setting(course, params, ends)
    }

    ghost predicate Valid()
    {
      CourseGraph.Valid(course) && ValidParams(params)
    }

    /** A request's endpoints are set and lie on the course. */
    ghost predicate Ready()
      reads this`ends
    {
      ValidSetting(Setting())
    }

    constructor (course: Course, params: Params)
      requires CourseGraph.Valid(course) && ValidParams(params)
      ensures Valid()
      ensures this.course == course && this.params == params
      ensures nodes == map[] && minCost == Infinite && bestPath == []
      ensures startAppendix == [] && endAppendix == []
    {
      this.course := course;
      this.params := params;
      ends := Endpoints(0, 0, Vec2(0.0, 0.0), Vec2(0.0, 0.0));
      startAppendix, endAppendix := [], [];
      nodes := map[];
      minCost := Infinite;
      bestPath := [];
    }

    /** One node per listed transition: forward-listed ones driven forward onto their target, the others backward onto their source. */
    method InitNodes()
      requires Valid()
      modifies this`nodes
      ensures nodes == InitialArena(course)
    {
      var c := course;
      ValidIds(c);
      nodes := map[];
      for s := 0 to |c.segments|
        invariant nodes.Keys <= ListedIds(c)
        invariant forall t :: t in nodes ==> t < |c.transitions| && nodes[t] == InitialNode(c, t)
        invariant forall s', t :: 0 <= s' < s && t in c.segments[s'].forward ==> t in nodes
        invariant forall s', t :: 0 <= s' < s && t in c.segments[s'].backward ==> t in nodes
      {
        var seg := c.segments[s];
        for k := 0 to |seg.forward|
          invariant nodes.Keys <= ListedIds(c)
          invariant forall t :: t in nodes ==> t < |c.transitions| && nodes[t] == InitialNode(c, t)
          invariant forall s', t :: 0 <= s' < s && t in c.segments[s'].forward ==> t in nodes
          invariant forall s', t :: 0 <= s' < s && t in c.segments[s'].backward ==> t in nodes
          invariant forall j :: 0 <= j < k ==> seg.forward[j] in nodes
        {
          var t := seg.forward[k];
          assert t in c.segments[s].forward;
          assert t in ForwardIds(c);
          nodes := nodes[t := Node(true, c.transitions[t].target, Infinite, None, None)];
        }
        for k := 0 to |seg.backward|
          invariant nodes.Keys <= ListedIds(c)
          invariant forall t :: t in nodes ==> t < |c.transitions| && nodes[t] == InitialNode(c, t)
          invariant forall s', t :: 0 <= s' < s && t in c.segments[s'].forward ==> t in nodes
          invariant forall s', t :: 0 <= s' < s && t in c.segments[s'].backward ==> t in nodes
          invariant forall t :: t in seg.forward ==> t in nodes
          invariant forall j :: 0 <= j < k ==> seg.backward[j] in nodes
        {
          var t := seg.backward[k];
          assert t in c.segments[s].backward;
          assert t in BackwardIds(c);
          nodes := nodes[t := Node(false, c.transitions[t].source, Infinite, None, None)];
        }
      }
      forall t | t in ListedIds(c)
        ensures t in nodes
      {
        if t in ForwardIds(c) {
          var s :| 0 <= s < |c.segments| && t in c.segments[s].forward;
        } else {
          var s :| 0 <= s < |c.segments| && t in c.segments[s].backward;
        }
      }
      assert nodes.Keys == ListedIds(c);
    }

    /** Seeds the frontier with every transition of the start segment, each costed from the start point. */
    method EnqueueStartingNodes() returns (frontier: set<nat>)
      requires Ready() && WellFormed(Setting(), nodes)
      modifies this`nodes
      ensures var seg := course.segments[ends.startSegment];
              forall t :: t in frontier <==> t in seg.forward || t in seg.backward
      ensures frontier <= old(nodes).Keys
      ensures nodes == Seeded(Setting(), old(nodes), frontier)
    {
      var st := Setting();
      var base := nodes;
      var seg := st.course.segments[st.ends.startSegment];
      var arena := nodes;
      frontier := {};
      for i := 0 to 2
        invariant forall t :: t in frontier <==> (i >= 1 && t in seg.forward) || (i >= 2 && t in seg.backward)
        invariant frontier <= base.Keys
        invariant arena == Seeded(st, base, frontier)
      {
        var transitions := if i == 0 then seg.forward else seg.backward;
        frontier, arena := SeedList(st, base, transitions, frontier, arena);
      }
      nodes := arena;
    }

    /** A frontier node of least cost. */
    method ExtractMin(frontier: set<nat>) returns (m: nat)
      requires frontier != {} && frontier <= nodes.Keys
      requires forall i :: i in frontier ==> nodes[i].cost.Finite?
      ensures m in frontier
      ensures forall i :: i in frontier ==> nodes[m].cost.value <= nodes[i].cost.value
    {
      m :| m in frontier;
      var rest := frontier - {m};
      while rest != {}
        invariant rest <= frontier && m in frontier
        invariant forall i :: i in frontier - rest ==> nodes[m].cost.value <= nodes[i].cost.value
        decreases rest
      {
        var x :| x in rest;
        if nodes[x].cost.value < nodes[m].cost.value {
          m := x;
        }
        rest := rest - {x};
      }
    }

    /**
     * Relaxation of transition `t` from node `cur`: when the new cost is
     * strictly below the recorded one, `t` gets `cur` as predecessor and the
     * new cost, `cur` gets `t` as successor, and `t` is (re)queued; otherwise
     * nothing changes.
     */
    method Relax(cur: nat, t: nat, frontier: set<nat>) returns (frontier': set<nat>)
      requires Ready() && WellFormed(Setting(), nodes)
      requires cur in nodes && t in nodes && nodes[cur].cost.Finite?
      modifies this`nodes
      ensures var c := RelaxCost(Setting(), old(nodes), cur, t);
              if Below(c, old(nodes)[t].cost) then
                nodes == Relaxed(old(nodes), cur, t, c) && frontier' == frontier + {t}
              else
                nodes == old(nodes) && frontier' == frontier
      ensures nodes.Keys == old(nodes).Keys
      ensures forall i :: i in nodes ==> CostLe(nodes[i].cost, old(nodes)[i].cost)
    {
      var curNode := nodes[cur];
      var curveCost := CurveCost(Setting(), nodes, cur);
      var straightCost := StraightCost(Setting(), nodes, cur, StartPointOnNextSegment(Setting(), nodes, cur),
                                       EntryPoint(course.transitions[t], curNode.curveForward));
      var newCost := curNode.cost.value + curveCost + straightCost;
      frontier' := frontier;
      if Below(newCost, nodes[t].cost) {
        nodes := nodes[t := nodes[t].(prev := Some(cur))];
        nodes := nodes[cur := nodes[cur].(next := Some(t))];
        nodes := nodes[t := nodes[t].(cost := Finite(newCost))];
        frontier' := frontier' + {t};
      }
    }

    /** Relaxes, in order, each transition of `transitions` from node `cur`. */
    method RelaxAll(cur: nat, transitions: seq<nat>, frontier: set<nat>) returns (frontier': set<nat>)
      requires Ready() && WellFormed(Setting(), nodes) && cur in nodes && nodes[cur].cost.Finite?
      requires forall k :: 0 <= k < |transitions| ==> transitions[k] in nodes
      modifies this`nodes
      ensures (nodes, frontier') == RelaxFold(Setting(), old(nodes), frontier, cur, transitions)
    {
      ghost var st := Setting();
      ghost var start := nodes;
      frontier' := frontier;
      for k := 0 to |transitions|
        invariant (nodes, frontier') == RelaxFold(st, start, frontier, cur, transitions[..k])
      {
        var t := transitions[k];
        assert transitions[..k + 1][..k] == transitions[..k];
        frontier' := Relax(cur, t, frontier');
      }
      assert transitions[..|transitions|] == transitions;
    }

    /** Relaxes every transition of the segment that node `cur` leads to, forward list first. */
    method RelaxNeighbours(cur: nat, frontier: set<nat>) returns (frontier': set<nat>)
      requires Ready() && WellFormed(Setting(), nodes) && cur in nodes && nodes[cur].cost.Finite?
      modifies this`nodes
      ensures (nodes, frontier') == Expansion(Setting(), old(nodes), frontier, cur)
    {
      ghost var st := Setting();
      ghost var start := nodes;
      var seg := course.segments[nodes[cur].nextSegment];
      ghost var half := RelaxFold(st, start, frontier, cur, seg.forward);
      frontier' := frontier;
      for d := 0 to 2
        invariant d == 0 ==> nodes == start && frontier' == frontier
        invariant d == 1 ==> (nodes, frontier') == half
        invariant d == 2 ==> (nodes, frontier') == Expansion(st, start, frontier, cur)
      {
        var transitions := if d == 0 then seg.forward else seg.backward;
        frontier' := RelaxAll(cur, transitions, frontier');
      }
    }

    /**
     * Walks the `prev` links back from `n`, collecting the chain oldest
     * first and pointing each predecessor's `next` at its successor.
     */
    method RebuildChain(n: nat, ghost rank: map<nat, nat>) returns (chain: seq<nat>)
      requires WellFormed(Setting(), nodes) && n in nodes && Ranked(nodes, rank)
      modifies this`nodes
      ensures chain == Chain(old(nodes), rank, n)
      ensures nodes == LinkFrom(old(nodes), chain, 0)
      ensures SameShape(old(nodes), nodes) && WellFormed(Setting(), nodes)
      ensures forall i :: i in nodes ==> nodes[i].cost == old(nodes)[i].cost
      ensures forall k :: 0 <= k < |chain| - 1 ==> nodes[chain[k]].next == Some(chain[k + 1])
      ensures forall i :: i in nodes && i !in chain[..|chain| - 1] ==> nodes[i].next == old(nodes)[i].next
    {
      ChainRelinked(Setting(), nodes, rank, n);
      chain, nodes := RelinkChain(nodes, rank, n);
    }

    /**
     * A node on the end segment was dequeued: its cost grows by the
     * straight cost to the end point, and if that beats the best cost so
     * far it becomes the best cost and its chain is relinked and rendered as
     * the best path. Returns the candidate's total cost.
     */
    method GeneratePathCandidate(n: nat, ghost rank: map<nat, nat>) returns (ghost total: real)
      requires Ready() && WellFormed(Setting(), nodes) && n in nodes && nodes[n].cost.Finite? && Ranked(nodes, rank)
      modifies this`nodes, this`minCost, this`bestPath
      ensures total == CandidateTotal(Setting(), old(nodes), n)
      ensures var costed := old(nodes)[n := old(nodes)[n].(cost := Finite(total))];
              if Below(total, old(minCost)) then
                && minCost == Finite(total)
                && Ranked(costed, rank)
                && Rendered(Setting(), costed, Chain(costed, rank, n), nodes, bestPath)
              else
                minCost == old(minCost) && nodes == costed && bestPath == old(bestPath)
      ensures SameShape(old(nodes), nodes) && WellFormed(Setting(), nodes)
      ensures nodes[n].cost == Finite(total)
      ensures forall i :: i in nodes && i != n ==> nodes[i].cost == old(nodes)[i].cost
    {
      var additional := StraightCost(Setting(), nodes, n, StartPointOnNextSegment(Setting(), nodes, n), ends.endPt);
      var node := nodes[n];
      var cost := node.cost.value + additional;
      nodes := nodes[n := node.(cost := Finite(cost))];
      total := cost;
      assert SameLinks(old(nodes), nodes);
      CostsAreNotRead(Setting(), old(nodes), nodes, n, ends.startPt, ends.endPt);
      ChainSamePrev(old(nodes), nodes, rank, n);
      if Below(cost, minCost) {
        minCost := Finite(cost);
        var chain := RebuildChain(n, rank);
        bestPath := GeneratePath(Setting(), nodes, chain);
      }
    }

    /**
     * A dequeued node on the end segment yields a candidate; it is not
     * expanded, and the frontier stays as it is.
     */
    method CandidateStep(cur: nat, frontier: set<nat>, ghost order: map<nat, nat>, ghost clock: nat, ghost floor: real)
      requires Ready() && SearchInv(Setting(), nodes, frontier, order, clock, floor)
      requires cur in nodes && cur !in frontier && cur !in order && nodes[cur].cost.Finite?
      modifies this`nodes, this`minCost, this`bestPath
      ensures Candidate(Setting(), old(nodes), old(minCost), old(bestPath), cur, nodes, minCost, bestPath)
      ensures nodes.Keys == old(nodes).Keys
      ensures SearchInv(Setting(), nodes, frontier, order, clock, floor)
    {
      ghost var before, cost, best := nodes, minCost, bestPath;
      ghost var rank := RankMap(nodes.Keys, order, clock);
      ghost var total := GeneratePathCandidate(cur, rank);
      CandidatePreserves(Setting(), before, nodes, frontier, order, clock, floor, cur);
      CandidateWitness(Setting(), before, cost, best, cur, rank, nodes, minCost, bestPath);
    }

    /**
     * A dequeued node off the end segment is expanded: it is stamped with
     * the current time and its neighbours are relaxed.
     */
    method ExpandStep(cur: nat, frontier: set<nat>, ghost order: map<nat, nat>, ghost clock: nat, ghost floor: real)
      returns (frontier': set<nat>, ghost order': map<nat, nat>, ghost clock': nat)
      requires Valid() && SearchInv(Setting(), nodes, frontier, order, clock, floor)
      requires cur in nodes && cur !in frontier && cur !in order
      requires nodes[cur].cost == Finite(floor) && nodes[cur].nextSegment != ends.endSegment
      modifies this`nodes
      ensures (nodes, frontier') == Expansion(Setting(), old(nodes), frontier, cur)
      ensures order' == order[cur := clock] && clock' == clock + 1
      ensures SearchInv(Setting(), nodes, frontier', order', clock', floor)
      ensures |nodes.Keys - order'.Keys| < |nodes.Keys - order.Keys|
    {
      ghost var start := nodes;
      order', clock' := order[cur := clock], clock + 1;
      frontier' := RelaxNeighbours(cur, frontier);
      ExpandKeeps(Setting(), start, frontier, order, clock, floor, cur, nodes, frontier');
    }

    /**
     * One round of the search: dequeue a least cost node; on the end
     * segment it yields a candidate, elsewhere it is expanded. Either an
     * unexpanded node becomes expanded, or the frontier shrinks. The rounds
     * so far, `trace`, end in the current state; the round made here, from
     * dequeuing `cur`, extends them.
     */
    method SearchStep(ghost st: Setting, ghost best: seq<Pose>, frontier: set<nat>,
                      ghost order: map<nat, nat>, ghost clock: nat, ghost floor: real,
                      ghost trace: seq<Round>, ghost cands: seq<nat>)
      returns (frontier': set<nat>, ghost order': map<nat, nat>, ghost clock': nat, ghost floor': real, ghost cur: nat)
      requires st == Setting() && frontier != {}
      requires SearchInv(st, nodes, frontier, order, clock, floor)
      requires RunFrom(st, best, trace, cands) && trace[|trace| - 1] == Round(nodes, frontier, minCost, bestPath)
      modifies this`nodes, this`minCost, this`bestPath
      ensures RunFrom(st, best, trace + [Round(nodes, frontier', minCost, bestPath)], cands + [cur])
      ensures nodes.Keys == old(nodes).Keys
      ensures SearchInv(st, nodes, frontier', order', clock', floor')
      ensures || |old(nodes).Keys - order'.Keys| < |old(nodes).Keys - order.Keys|
              || (order' == order && |frontier'| < |frontier|)
    {
      var m := ExtractMin(frontier);
      cur := m;
      assert Least(nodes, frontier, m);
      DequeuePreserves(st, nodes, frontier, order, clock, floor, m);
      floor' := nodes[m].cost.value;
      if nodes[m].nextSegment == ends.endSegment {
        CandidateStep(m, frontier - {m}, order, clock, floor');
        frontier', order', clock' := frontier - {m}, order, clock;
        RemoveShrinks(frontier, m);
        CandidateRoundStep(st, best, trace, cands, m, Round(nodes, frontier', minCost, bestPath));
      } else {
        frontier', order', clock' := ExpandStep(m, frontier - {m}, order, clock, floor');
        ExpandRoundStep(st, best, trace, cands, m, Round(nodes, frontier', minCost, bestPath));
      }
    }

    /**
     * Set-up of the search: the initial arena, the start segment's
     * transitions seeded with their start costs, no best cost yet.
     */
    method StartSearch() returns (frontier: set<nat>)
      requires Valid() && Ready()
      modifies this`nodes, this`minCost
      ensures Round(nodes, frontier, minCost, bestPath) == InitialRound(Setting(), bestPath)
      ensures nodes.Keys == ListedIds(course)
      ensures SearchInv(Setting(), nodes, frontier, map[], 0, 0.0)
    {
      InitNodes();
      FreshArenaWellFormed(Setting());
      ghost var arena := nodes;
      frontier := EnqueueStartingNodes();
      SeededInv(Setting(), arena, frontier);
      minCost := Infinite;
      assert frontier == StartFrontier(Setting());
    }

    /**
     * The rounds of `PerformDijkstraSearch` until the frontier is empty,
     * each appended to the trace of the rounds before.
     */
    method SearchLoop(ghost st: Setting, ghost best: seq<Pose>, frontier: set<nat>,
                      ghost order: map<nat, nat>, ghost clock: nat, ghost floor: real,
                      ghost trace: seq<Round>, ghost cands: seq<nat>)
      returns (ghost trace': seq<Round>, ghost cands': seq<nat>)
      requires st == Setting()
      requires SearchInv(st, nodes, frontier, order, clock, floor)
      requires RunFrom(st, best, trace, cands) && trace[|trace| - 1] == Round(nodes, frontier, minCost, bestPath)
      modifies this`nodes, this`minCost, this`bestPath
      ensures RunFrom(st, best, trace', cands') && trace'[|trace'| - 1] == Round(nodes, {}, minCost, bestPath)
      ensures nodes.Keys == old(nodes).Keys
    {
      ghost var keys := nodes.Keys;
      var f := frontier;
      ghost var o, c, fl := order, clock, floor;
      trace', cands' := trace, cands;
      while f != {}
        invariant nodes.Keys == keys
        invariant SearchInv(st, nodes, f, o, c, fl)
        invariant RunFrom(st, best, trace', cands')
        invariant trace'[|trace'| - 1] == Round(nodes, f, minCost, bestPath)
        decreases |keys - o.Keys|, |f|
      {
        ghost var cur;
        f, o, c, fl, cur := SearchStep(st, best, f, o, c, fl, trace', cands');
        trace', cands' := trace' + [Round(nodes, f, minCost, bestPath)], cands' + [cur];
      }
    }

    /**
     * The search: set up the arena, seed the frontier, then dequeue least
     * cost nodes until the frontier is empty. A node on the end segment
     * yields a candidate and is not expanded; the search goes on, so the
     * best cost is the least over all candidates, and the best path is the
     * one rendered for the candidate that reached it. The result wraps the
     * best path in the appendices. The rounds of the run are returned as
     * `trace`, the dequeued nodes as `cands`.
     */
    method PerformDijkstraSearch() returns (res: seq<Pose>, ghost trace: seq<Round>, ghost cands: seq<nat>)
      requires Valid() && Ready()
      modifies this`nodes, this`minCost, this`bestPath
      ensures SearchRun(Setting(), old(bestPath), trace, cands)
      ensures trace[|trace| - 1] == Round(nodes, {}, minCost, bestPath)
      ensures minCost == MinOf(Totals(Setting(), trace, cands, |cands|))
      ensures || (minCost == Infinite && bestPath == old(bestPath))
              || exists j :: Winner(Setting(), trace, cands, j, |cands|)
      ensures res == Combine(startAppendix, bestPath, endAppendix)
      ensures nodes.Keys == ListedIds(course)
    {
      var frontier := StartSearch();
      ghost var st := Setting();
      trace, cands := SearchLoop(st, old(bestPath), frontier, map[], 0, 0.0, [Round(nodes, frontier, minCost, bestPath)], []);
      RunMinCost(st, old(bestPath), trace, cands);
      RunBestPath(st, old(bestPath), trace, cands);
      res := Combine(startAppendix, bestPath, endAppendix);
    }

    /**
     * Plans between two poses. A failed map request or a failed connection
     * of either pose yields the empty path; when both poses land on the
     * same segment the path is just the two boundary poses between the
     * appendices; otherwise the search decides.
     */
    method FindPath(mapAvailable: bool, connection: Option<Connection>)
      returns (res: seq<Pose>, ghost trace: seq<Round>, ghost cands: seq<nat>)
      requires Valid()
      requires connection.Some? ==>
        connection.value.startSegment < |course.segments| && connection.value.endSegment < |course.segments|
      modifies this
      ensures !mapAvailable || connection.None? ==>
        res == [] && nodes == old(nodes) && bestPath == old(bestPath) && minCost == old(minCost)
      ensures mapAvailable && connection.Some? ==>
        var cn := connection.value;
        && ends == Endpoints(cn.startSegment, cn.endSegment, cn.startPt, cn.endPt)
        && startAppendix == cn.startAppendix && endAppendix == cn.endAppendix
        && Ready()
        && (cn.startSegment == cn.endSegment ==>
              && res == Combine(cn.startAppendix, [FirstPose(Setting()), LastPose(Setting())], cn.endAppendix)
              && nodes == old(nodes) && bestPath == old(bestPath) && minCost == old(minCost))
        && (cn.startSegment != cn.endSegment ==>
              && SearchRun(Setting(), old(bestPath), trace, cands)
              && trace[|trace| - 1] == Round(nodes, {}, minCost, bestPath)
              && res == Combine(cn.startAppendix, bestPath, cn.endAppendix))
    {
      trace, cands := [], [];
      if !mapAvailable {
        return [], trace, cands;
      }
      if connection.None? {
        return [], trace, cands;
      }
      var cn := connection.value;
      startAppendix, endAppendix := cn.startAppendix, cn.endAppendix;
      ends := Endpoints(cn.startSegment, cn.endSegment, cn.startPt, cn.endPt);
      if cn.startSegment == cn.endSegment {
        var centre := [FirstPose(Setting())];
        centre := centre + [LastPose(Setting())];
        return Combine(startAppendix, centre, endAppendix), trace, cands;
      }
      res, trace, cands := PerformDijkstraSearch();
    }

    /**
     * The direction signature of the candidate ending at `head`: the start
     * segment's direction symbol, then one symbol per node of its chain.
     */
    method Signature(head: nat, ghost rank: map<nat, nat>) returns (s: string)
      requires Ready() && WellFormed(Setting(), nodes) && head in nodes && Ranked(nodes, rank)
      ensures var chain := Chain(nodes, rank, head);
              s == [Sym(IsStartSegmentForward(Setting(), nodes, chain[0]))] + DirectionSymbols(Setting(), nodes, chain)
    {
      var st := Setting();
      var arena := nodes;
      var res, first := ChainSymbols(st, arena, rank, head);
      var startSym := Sym(IsSegmentForward(course.segments[ends.startSegment], ends.startPt,
                                           EntryPoint(course.transitions[first], arena[first].curveForward)));
      s := [startSym] + res;
    }
  }
}

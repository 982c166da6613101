/**
 * Per-search node state, endpoint selection on segments, the direction
 * tests and the curve/straight cost functions of the planner. Everything
 * here is a pure function of the course, the parameters, the endpoints of
 * the current request and the node arena.
 */
module CostModel {
  import opened Wrappers
  import opened Geometry
  import opened CourseGraph

  /**
   * Planner parameters. `norm` stands for the Euclidean vector norm, left
   * uninterpreted apart from being non-negative.
   */
  datatype Params = Params(
    backwardPenaltyFactor: real,
    turningPenalty: real,
    turningStraightSegment: real,
    norm: Vec2 -> real)

  ghost predicate ValidParams(p: Params) {
    && p.backwardPenaltyFactor >= 0.0
    && p.turningPenalty >= 0.0
    && p.turningStraightSegment >= 0.0
    && forall v :: p.norm(v) >= 0.0
  }

  /** The defaults the planner loads when nothing else is configured. */
  function DefaultParams(norm: Vec2 -> real): (p: Params)
    ensures (forall v :: norm(v) >= 0.0) ==> ValidParams(p)
  {
    Params(2.5, 5.0, 0.7, norm)
  }

  /** A node cost: +infinity until the node is reached. */
  datatype Cost = Finite(value: real) | Infinite

  /** `x < c` with `c` possibly infinite. */
  predicate Below(x: real, c: Cost) {
    c.Infinite? || x < c.value
  }

  predicate CostLe(a: Cost, b: Cost) {
    b.Infinite? || (a.Finite? && a.value <= b.value)
  }

  /**
   * Search state of one transition: the direction it is driven in, the
   * segment reached after it, the cost so far and the two links.
   */
  datatype Node = Node(curveForward: bool, nextSegment: nat, cost: Cost, prev: Option<nat>, next: Option<nat>)

  /** Start and end segment of a request and the projections of the appendix ends onto them. */
  datatype Endpoints = Endpoints(startSegment: nat, endSegment: nat, startPt: Vec2, endPt: Vec2)

  /** What the cost model reads besides the arena. */
  datatype Setting = Setting(course: Course, params: Params, ends: Endpoints)

  ghost predicate ValidSetting(st: Setting) {
    && Valid(st.course)
    && ValidParams(st.params)
    && st.ends.startSegment < |st.course.segments|
    && st.ends.endSegment < |st.course.segments|
  }

  predicate LinkIn(l: Option<nat>, nodes: map<nat, Node>) {
    l.Some? ==> l.value in nodes
  }

  /** Every transition listed by a segment has a node. */
  ghost predicate Covers(c: Course, nodes: map<nat, Node>) {
    && (forall s, k :: 0 <= s < |c.segments| && 0 <= k < |c.segments[s].forward| ==> c.segments[s].forward[k] in nodes)
    && (forall s, k :: 0 <= s < |c.segments| && 0 <= k < |c.segments[s].backward| ==> c.segments[s].backward[k] in nodes)
  }

  /** The arena is consistent with the course: ids, segments and links are in range. */
  ghost predicate WellFormed(st: Setting, nodes: map<nat, Node>) {
    && ValidSetting(st)
    && (forall i {:trigger nodes[i]} :: i in nodes ==>
          && i < |st.course.transitions|
          && nodes[i].nextSegment < |st.course.segments|
          && LinkIn(nodes[i].prev, nodes)
          && LinkIn(nodes[i].next, nodes))
    && Covers(st.course, nodes)
  }

  /** Where a transition leaves its start segment, given the direction it is driven in. */
  function EntryPoint(t: Transition, forward: bool): Vec2
    requires |t.path| >= 2
  {
    if forward then Front(t) else Back(t)
  }

  /** Where a transition joins the segment it leads to, given the direction it is driven in. */
  function ExitPoint(t: Transition, forward: bool): Vec2
    requires |t.path| >= 2
  {
    if forward then Back(t) else Front(t)
  }

  /** The two ends of a transition swap roles when the driving direction is reversed. */
  lemma EntryExitSwap(t: Transition, forward: bool)
    requires |t.path| >= 2
    ensures EntryPoint(t, forward) == ExitPoint(t, !forward)
    ensures {EntryPoint(t, forward), ExitPoint(t, forward)} == {Front(t), Back(t)}
  {
  }

  function TransitionOf(st: Setting, nodes: map<nat, Node>, n: nat): (t: Transition)
    requires WellFormed(st, nodes) && n in nodes
    ensures |t.path| >= 2
  {
    st.course.transitions[n]
  }

  /** The point where driving on the node's next segment begins. */
  function StartPointOnNextSegment(st: Setting, nodes: map<nat, Node>, n: nat): Vec2
    requires WellFormed(st, nodes) && n in nodes
  {
    if nodes[n].nextSegment == st.ends.startSegment then st.ends.startPt
    else ExitPoint(TransitionOf(st, nodes, n), nodes[n].curveForward)
  }

  /** The point where driving on the node's next segment ends. */
  function EndPointOnNextSegment(st: Setting, nodes: map<nat, Node>, n: nat): Vec2
    requires WellFormed(st, nodes) && n in nodes
  {
    var node := nodes[n];
    var seg := st.course.segments[node.nextSegment];
    if node.nextSegment == st.ends.endSegment then st.ends.endPt
    else if node.next.None? then (if node.curveForward then seg.endPoint else seg.startPoint)
    else
      var m := node.next.value;
      EntryPoint(TransitionOf(st, nodes, m), nodes[m].curveForward)
  }

  /**
   * Driving from `pos` to `target` is forward on `seg` when it does not
   * oppose the segment's direction; so standing still, or a segment of no
   * length, counts as forward.
   */
  predicate IsSegmentForward(seg: Segment, pos: Vec2, target: Vec2)
    ensures pos == target ==> IsSegmentForward(seg, pos, target)
    ensures seg.startPoint == seg.endPoint ==> IsSegmentForward(seg, pos, target)
  {
    Dot(Sub(seg.endPoint, seg.startPoint), Sub(target, pos)) >= 0.0
  }

  /** Reversing the movement over a non-perpendicular stretch reverses the direction. */
  lemma IsSegmentForwardReversal(seg: Segment, a: Vec2, b: Vec2)
    requires Dot(Sub(seg.endPoint, seg.startPoint), Sub(b, a)) != 0.0
    ensures IsSegmentForward(seg, a, b) == !IsSegmentForward(seg, b, a)
  {
    DotAntisymmetric(Sub(seg.endPoint, seg.startPoint), a, b);
  }

  /** The direction on the start segment towards the node's curve; starting at the curve's entry counts as forward. */
  predicate IsStartSegmentForward(st: Setting, nodes: map<nat, Node>, n: nat)
    requires WellFormed(st, nodes) && n in nodes
    ensures st.ends.startPt == EntryPoint(TransitionOf(st, nodes, n), nodes[n].curveForward) ==>
              IsStartSegmentForward(st, nodes, n)
  {
    IsSegmentForward(st.course.segments[st.ends.startSegment], st.ends.startPt,
                     EntryPoint(TransitionOf(st, nodes, n), nodes[n].curveForward))
  }

  /** The direction on the node's next segment; a stretch of no length counts as forward. */
  predicate IsNextSegmentForward(st: Setting, nodes: map<nat, Node>, n: nat)
    requires WellFormed(st, nodes) && n in nodes
    ensures StartPointOnNextSegment(st, nodes, n) == EndPointOnNextSegment(st, nodes, n) ==>
              IsNextSegmentForward(st, nodes, n)
  {
    IsSegmentForward(st.course.segments[nodes[n].nextSegment],
                     StartPointOnNextSegment(st, nodes, n), EndPointOnNextSegment(st, nodes, n))
  }

  /** The direction on the segment before the node's curve: one `prev` step back, or the start segment. */
  predicate IsPreviousSegmentForward(st: Setting, nodes: map<nat, Node>, n: nat)
    requires WellFormed(st, nodes) && n in nodes
  {
    match nodes[n].prev
    case Some(p) => IsNextSegmentForward(st, nodes, p)
    case None => IsStartSegmentForward(st, nodes, n)
  }

  function EffectiveLengthOfNextSegment(st: Setting, nodes: map<nat, Node>, n: nat): (r: real)
    requires WellFormed(st, nodes) && n in nodes
    ensures r >= 0.0
  {
    st.params.norm(Sub(StartPointOnNextSegment(st, nodes, n), EndPointOnNextSegment(st, nodes, n)))
  }

  /** Number of direction changes along the three directions `a`, `b`, `c` driven in turn. */
  function Reversals(a: bool, b: bool, c: bool): (r: nat)
    ensures r <= 2
    ensures r == 0 <==> a == b == c
  {
    (if a != b then 1 else 0) + (if b != c then 1 else 0)
  }

  /** Cost of driving the node's curve; never negative. */
  function CurveCost(st: Setting, nodes: map<nat, Node>, n: nat): (r: real)
    requires WellFormed(st, nodes) && n in nodes
    ensures r >= 0.0
  {
    var arc := TransitionOf(st, nodes, n).arcLength;
    assert arc >= 0.0;
    if nodes[n].curveForward then arc
    else
      assert st.params.backwardPenaltyFactor * arc >= 0.0;
      st.params.backwardPenaltyFactor * arc
  }

  /** Distance cost of a straight stretch, penalised when driven backward. */
  function DistanceCost(p: Params, forward: bool, a: Vec2, b: Vec2): real {
    var d := p.norm(Sub(b, a));
    if forward then d else p.backwardPenaltyFactor * d
  }

  /**
   * Cost of driving on the node's next segment from `a` to `b`: the
   * distance, penalised when backward, plus one turning surcharge for a
   * single turn or two for a double turn. The surcharge never lowers the
   * distance cost, which is never negative.
   */
  function StraightCost(st: Setting, nodes: map<nat, Node>, n: nat, a: Vec2, b: Vec2): (r: real)
    requires WellFormed(st, nodes) && n in nodes
    ensures r >= DistanceCost(st.params, IsSegmentForward(st.course.segments[nodes[n].nextSegment], a, b), a, b) >= 0.0
  {
    var p := st.params;
    var segmentForward := IsSegmentForward(st.course.segments[nodes[n].nextSegment], a, b);
    DistanceBackwardScaling(p, a, b);
    var base := DistanceCost(p, segmentForward, a, b);
    if IsPreviousSegmentForward(st, nodes, n) != segmentForward then
      base + p.turningStraightSegment + p.turningPenalty
    else if segmentForward != nodes[n].curveForward then
      base + 2.0 * p.turningStraightSegment + 2.0 * p.turningPenalty
    else
      base
  }

  /** The cost of reaching transition `t` from node `cur`, as charged by a relaxation; never below `cur`'s own cost. */
  function RelaxCost(st: Setting, nodes: map<nat, Node>, cur: nat, t: nat): (r: real)
    requires WellFormed(st, nodes) && cur in nodes && nodes[cur].cost.Finite?
    requires t < |st.course.transitions|
    ensures r >= nodes[cur].cost.value
  {
    nodes[cur].cost.value
      + CurveCost(st, nodes, cur)
      + StraightCost(st, nodes, cur, StartPointOnNextSegment(st, nodes, cur),
                     EntryPoint(st.course.transitions[t], nodes[cur].curveForward))
  }

  // ---------------------------------------------------------------------
  // Properties of the cost model
  // ---------------------------------------------------------------------

  /** Curve cost is the arc length forward and the penalised arc length backward. */
  lemma CurveCostByDirection(st: Setting, nodes: map<nat, Node>, n: nat)
    requires WellFormed(st, nodes) && n in nodes
    ensures nodes[n].curveForward ==> CurveCost(st, nodes, n) == st.course.transitions[n].arcLength
    ensures !nodes[n].curveForward ==>
      CurveCost(st, nodes, n) == st.params.backwardPenaltyFactor * st.course.transitions[n].arcLength
  {
  }

  /** Driving the same curve backward costs the penalty factor times driving it forward. */
  lemma CurveBackwardScaling(st: Setting, nodes: map<nat, Node>, n: nat)
    requires WellFormed(st, nodes) && n in nodes
    ensures var fwd := nodes[n := nodes[n].(curveForward := true)];
            var bwd := nodes[n := nodes[n].(curveForward := false)];
            WellFormed(st, fwd) && WellFormed(st, bwd) &&
            CurveCost(st, bwd, n) == st.params.backwardPenaltyFactor * CurveCost(st, fwd, n)
  {
    var fwd := nodes[n := nodes[n].(curveForward := true)];
    var bwd := nodes[n := nodes[n].(curveForward := false)];
    assert Covers(st.course, fwd) && Covers(st.course, bwd);
  }

  /** Over the same stretch, backward distance cost is the penalty factor times the forward one. */
  lemma DistanceBackwardScaling(p: Params, a: Vec2, b: Vec2)
    ensures DistanceCost(p, false, a, b) == p.backwardPenaltyFactor * DistanceCost(p, true, a, b)
    ensures ValidParams(p) ==> DistanceCost(p, true, a, b) >= 0.0 && DistanceCost(p, false, a, b) >= 0.0
  {
    if ValidParams(p) {
      assert p.norm(Sub(b, a)) >= 0.0;
      assert p.backwardPenaltyFactor * p.norm(Sub(b, a)) >= 0.0;
    }
  }

  /**
   * The turning surcharge of a straight stretch: none, a single turn when
   * the previous direction differs from the segment's, otherwise a double
   * turn when the curve's direction differs from the segment's. The single
   * turn takes precedence when both differ.
   */
  lemma StraightCostCases(st: Setting, nodes: map<nat, Node>, n: nat, a: Vec2, b: Vec2)
    requires WellFormed(st, nodes) && n in nodes
    ensures var p := st.params;
            var fwd := IsSegmentForward(st.course.segments[nodes[n].nextSegment], a, b);
            var prevFwd := IsPreviousSegmentForward(st, nodes, n);
            var turn := p.turningStraightSegment + p.turningPenalty;
            var base := if fwd then p.norm(Sub(b, a)) else p.backwardPenaltyFactor * p.norm(Sub(b, a));
            && (prevFwd != fwd ==> StraightCost(st, nodes, n, a, b) == base + turn)
            && (prevFwd == fwd && fwd != nodes[n].curveForward ==> StraightCost(st, nodes, n, a, b) == base + 2.0 * turn)
            && (prevFwd == fwd == nodes[n].curveForward ==> StraightCost(st, nodes, n, a, b) == base)
  {
  }

  /**
   * The surcharge counts direction changes: driving the previous segment,
   * then the curve, then this segment, each change costs one turning
   * stub plus one turning penalty.
   */
  lemma StraightCostCountsReversals(st: Setting, nodes: map<nat, Node>, n: nat, a: Vec2, b: Vec2)
    requires WellFormed(st, nodes) && n in nodes
    ensures var p := st.params;
            var fwd := IsSegmentForward(st.course.segments[nodes[n].nextSegment], a, b);
            var k := Reversals(IsPreviousSegmentForward(st, nodes, n), nodes[n].curveForward, fwd);
            StraightCost(st, nodes, n, a, b)
              == DistanceCost(p, fwd, a, b) + (k as real) * (p.turningStraightSegment + p.turningPenalty)
  {
    var p := st.params;
    var fwd := IsSegmentForward(st.course.segments[nodes[n].nextSegment], a, b);
    var prevFwd := IsPreviousSegmentForward(st, nodes, n);
    var k := Reversals(prevFwd, nodes[n].curveForward, fwd);
    var turn := p.turningStraightSegment + p.turningPenalty;
    if prevFwd != fwd {
      assert k == 1;
    } else if fwd != nodes[n].curveForward {
      assert k == 2;
      assert (k as real) * turn == 2.0 * p.turningStraightSegment + 2.0 * p.turningPenalty;
    } else {
      assert k == 0;
    }
  }

  /** Two arenas that agree on everything but costs. */
  ghost predicate SameLinks(nodes: map<nat, Node>, nodes': map<nat, Node>) {
    && nodes.Keys == nodes'.Keys
    && forall i :: i in nodes ==> nodes'[i] == nodes[i].(cost := nodes'[i].cost)
  }

  /** The cost model never reads a node's cost: changing costs changes no cost. */
  lemma CostsAreNotRead(st: Setting, nodes: map<nat, Node>, nodes': map<nat, Node>, n: nat, a: Vec2, b: Vec2)
    requires WellFormed(st, nodes) && n in nodes && SameLinks(nodes, nodes')
    ensures WellFormed(st, nodes')
    ensures StraightCost(st, nodes', n, a, b) == StraightCost(st, nodes, n, a, b)
    ensures CurveCost(st, nodes', n) == CurveCost(st, nodes, n)
    ensures StartPointOnNextSegment(st, nodes', n) == StartPointOnNextSegment(st, nodes, n)
    ensures EndPointOnNextSegment(st, nodes', n) == EndPointOnNextSegment(st, nodes, n)
    ensures IsNextSegmentForward(st, nodes', n) == IsNextSegmentForward(st, nodes, n)
    ensures IsStartSegmentForward(st, nodes', n) == IsStartSegmentForward(st, nodes, n)
  {
    assert forall i :: i in nodes' ==> i in nodes && nodes'[i].prev == nodes[i].prev && nodes'[i].next == nodes[i].next;
    if nodes[n].prev.Some? {
      var q := nodes[n].prev.value;
      assert q in nodes;
    }
  }
}

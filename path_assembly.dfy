/**
 * Rendering of a chosen node chain into poses. Positions are exact where
 * the planner copies them from the course (start/end points, curve
 * points); a pose placed `turning_straight_segment` ahead of a point is
 * kept symbolic (`Beyond`), and a yaw is kept as the vector whose angle it
 * is (`AngleOf`), since both come from trigonometry.
 */
module PathAssembly {
  import opened Wrappers
  import opened Geometry
  import opened CourseGraph
  import opened CostModel

  datatype Heading =
    | AngleOf(v: Vec2)                        // the angle of `v`
    | OppositeOf(v: Vec2)                     // the angle of `v` plus a half turn
    | FromTo(origin: Location, target: Vec2)  // the angle of `target - origin`
    | Given(theta: real)                      // a yaw supplied from outside (appendix poses)

  datatype Location =
    | Exactly(point: Vec2)
    | Beyond(base: Vec2, along: Heading)      // `turning_straight_segment` from `base` in direction `along`

  datatype Pose = Pose(location: Location, heading: Heading)

  /** Below this effective length a segment is treated as having no length (double-precision epsilon). */
  const Epsilon: real := 1.0 / 4503599627370496.0

  function SegmentHeading(seg: Segment): Heading {
    AngleOf(Sub(seg.endPoint, seg.startPoint))
  }

  /** The pose at the start point, heading along the start segment. */
  function FirstPose(st: Setting): Pose
    requires ValidSetting(st)
  {
    Pose(Exactly(st.ends.startPt), SegmentHeading(st.course.segments[st.ends.startSegment]))
  }

  /** The pose at the end point, heading along the end segment. */
  function LastPose(st: Setting): Pose
    requires ValidSetting(st)
  {
    Pose(Exactly(st.ends.endPt), SegmentHeading(st.course.segments[st.ends.endSegment]))
  }

  /** A stub ahead of the curve's last polyline point, along the target segment's direction. */
  function AlongTargetPose(st: Setting, t: Transition): Pose
    requires ValidSetting(st) && ValidTransition(st.course, t)
  {
    var h := SegmentHeading(st.course.segments[t.target]);
    Pose(Beyond(Back(t), h), h)
  }

  /** A stub ahead of the curve's first polyline point, against the source segment's direction. */
  function AlongSourcePose(st: Setting, t: Transition): Pose
    requires ValidSetting(st) && ValidTransition(st.course, t)
  {
    var seg := st.course.segments[t.source];
    var h := OppositeOf(Sub(seg.endPoint, seg.startPoint));
    Pose(Beyond(Front(t), h), h)
  }

  /** A stub that continues the straight line from the last pose through `pt`. */
  function TurningStubPose(pt: Vec2, last: Pose): Pose {
    var h := FromTo(last.location, pt);
    Pose(Beyond(pt, h), h)
  }

  /**
   * The poses of a curve: every polyline point but the first in driving
   * order, each heading away from the point driven before it. Forward, the
   * poses of all but the last point are followed by the last point's;
   * backward, those of all but the first point by the first point's.
   */
  function CurvePoses(path: seq<Vec2>, forward: bool): (r: seq<Pose>)
    ensures |r| == if |path| == 0 then 0 else |path| - 1
    decreases |path|
  {
    var m := |path|;
    if m <= 1 then []
    else if forward then
      CurvePoses(path[..m - 1], true) + [Pose(Exactly(path[m - 1]), AngleOf(Sub(path[m - 1], path[m - 2])))]
    else
      CurvePoses(path[1..], false) + [Pose(Exactly(path[0]), AngleOf(Sub(path[0], path[1])))]
  }

  /** The `k`-th pose of a curve: point `k + 1` forward, point `m - 2 - k` backward, with its heading. */
  lemma {:induction false} CurvePosesAt(path: seq<Vec2>, forward: bool, k: nat)
    requires k < |path| - 1
    ensures var m := |path|;
            CurvePoses(path, forward)[k] ==
              if forward then Pose(Exactly(path[k + 1]), AngleOf(Sub(path[k + 1], path[k])))
              else Pose(Exactly(path[m - 2 - k]), AngleOf(Sub(path[m - 2 - k], path[m - 1 - k])))
    decreases |path|
  {
    var m := |path|;
    if k < m - 2 {
      if forward {
        var q := path[..m - 1];
        CurvePosesAt(q, true, k);
        assert q[k + 1] == path[k + 1] && q[k] == path[k];
      } else {
        var q := path[1..];
        CurvePosesAt(q, false, k);
        assert q[m - 3 - k] == path[m - 2 - k] && q[m - 2 - k] == path[m - 1 - k];
      }
    }
  }

  function Reverse<T>(s: seq<T>): (r: seq<T>)
    ensures |r| == |s|
  {
    if s == [] then [] else Reverse(s[1..]) + [s[0]]
  }

  lemma {:induction false} ReverseAt<T>(s: seq<T>, i: nat)
    requires i < |s|
    ensures Reverse(s)[i] == s[|s| - 1 - i]
  {
    if i < |s| - 1 {
      ReverseAt(s[1..], i);
    }
  }

  /**
   * A curve renders as m - 1 poses: path[1..m-1] when driven forward,
   * path[m-2] down to path[0] when driven backward; the last pose lies on
   * the curve's exit point.
   */
  lemma CurvePosesShape(t: Transition, forward: bool)
    requires |t.path| >= 2
    ensures var r := CurvePoses(t.path, forward);
            && |r| == |t.path| - 1
            && (forward ==> forall k :: 0 <= k < |r| ==> r[k].location == Exactly(t.path[k + 1]))
            && (!forward ==> forall k :: 0 <= k < |r| ==> r[k].location == Exactly(t.path[|t.path| - 2 - k]))
            && r[|r| - 1].location == Exactly(ExitPoint(t, forward))
  {
    var r := CurvePoses(t.path, forward);
    forall k | 0 <= k < |r|
      ensures r[k].location == Exactly(if forward then t.path[k + 1] else t.path[|t.path| - 2 - k])
    {
      CurvePosesAt(t.path, forward, k);
    }
  }

  /** Driving a curve backward renders exactly like driving its reversed polyline forward. */
  lemma BackwardCurveIsReversedForward(path: seq<Vec2>)
    requires |path| >= 2
    ensures CurvePoses(path, false) == CurvePoses(Reverse(path), true)
  {
    var rp := Reverse(path);
    forall i | 0 <= i < |path|
      ensures rp[i] == path[|path| - 1 - i]
    {
      ReverseAt(path, i);
    }
    BackwardCurveOfMirror(path, rp);
  }

  /** A backward curve renders like the forward curve of any polyline that mirrors it point by point. */
  lemma BackwardCurveOfMirror(path: seq<Vec2>, rp: seq<Vec2>)
    requires |path| >= 2 && |rp| == |path|
    requires forall i :: 0 <= i < |path| ==> rp[i] == path[|path| - 1 - i]
    ensures CurvePoses(path, false) == CurvePoses(rp, true)
  {
    var m := |path|;
    var a := CurvePoses(path, false);
    var b := CurvePoses(rp, true);
    assert |a| == m - 1 == |b|;
    forall k | 0 <= k < m - 1
      ensures a[k] == b[k]
    {
      CurvePosesAt(path, false, k);
      CurvePosesAt(rp, true, k);
      assert rp[k] == path[m - 1 - k] && rp[k + 1] == path[m - 2 - k];
    }
    assert a == b;
  }

  /**
   * What path assembly reads about one node of the chain: its transition,
   * the direction the curve is driven in, whether the next segment is too
   * short to count, the direction on the next segment, and the two stubs
   * along the target and the source segment.
   */
  datatype HopInput = HopInput(
    t: Transition,
    curveForward: bool,
    negligible: bool,
    nextForward: bool,
    alongTarget: Pose,
    alongSource: Pose)

  predicate ValidInput(h: HopInput) {
    |h.t.path| >= 2
  }

  /** The inputs of node `n`, as the cost model determines them. */
  function InputOf(st: Setting, nodes: map<nat, Node>, n: nat): (h: HopInput)
    requires WellFormed(st, nodes) && n in nodes
    ensures ValidInput(h)
  {
    var t := TransitionOf(st, nodes, n);
    assert ValidTransition(st.course, t);
    HopInput(t, nodes[n].curveForward,
             EffectiveLengthOfNextSegment(st, nodes, n) < Epsilon,
             IsNextSegmentForward(st, nodes, n),
             AlongTargetPose(st, t), AlongSourcePose(st, t))
  }

  /** What one node adds around its curve, and the direction carried to the next node. */
  datatype HopOut = HopOut(before: seq<Pose>, after: seq<Pose>, nextForward: bool)

  predicate IsBeyond(q: Pose, base: Vec2) {
    q.location.Beyond? && q.location.base == base
  }

  /**
   * The case split of path assembly for one node, entered with direction
   * `segmentForward` and with `last` the pose emitted last. A negligible
   * segment adds only the curve and keeps the direction. Otherwise the
   * number of stubs is the number of direction changes from the previous
   * segment to the curve to the next segment; stubs before the curve sit
   * ahead of its entry point, stubs after it ahead of its exit point; in a
   * reversal the single extension follows the curve exactly when the curve
   * keeps the previous direction.
   */
  function Hop(h: HopInput, segmentForward: bool, last: Pose): HopOut
    requires ValidInput(h)
  {
    var t := h.t;
    var cf := h.curveForward;
    if h.negligible then
      HopOut([], [], segmentForward)
    else
      var nf := h.nextForward;
      if nf == segmentForward then
        if cf == nf then HopOut([], [], nf)
        else if cf then HopOut([TurningStubPose(Front(t), last)], [h.alongTarget], nf)
        else HopOut([TurningStubPose(Back(t), last)], [h.alongSource], nf)
      else if segmentForward then
        if cf then HopOut([], [h.alongTarget], nf)
        else HopOut([h.alongTarget], [], nf)
      else
        if cf then HopOut([h.alongSource], [], nf)
        else HopOut([], [h.alongSource], nf)
  }

  /**
   * What surrounds a node's curve: the direction carried out is the new
   * segment's unless that segment is too short to count, there is one
   * extra pose per reversal, the poses before the curve lie ahead of its
   * entry and those after it ahead of its exit. A double turn puts a
   * turning stub before the curve and an extension along the target (curve
   * forward) or source (curve backward) segment after it; a reversal adds one
   * extension, along the target segment when leaving forward, else along the
   * source segment.
   */
  lemma HopShape(st: Setting, nodes: map<nat, Node>, n: nat, segmentForward: bool, last: Pose)
    requires WellFormed(st, nodes) && n in nodes
    ensures var h := Hop(InputOf(st, nodes, n), segmentForward, last);
            var t := st.course.transitions[n];
            var cf := nodes[n].curveForward;
            var negligible := EffectiveLengthOfNextSegment(st, nodes, n) < Epsilon;
            var nf := IsNextSegmentForward(st, nodes, n);
            && h.nextForward == (if negligible then segmentForward else nf)
            && |h.before| + |h.after| == (if negligible then 0 else Reversals(segmentForward, cf, nf))
            && (forall q :: q in h.before ==> IsBeyond(q, EntryPoint(t, cf)))
            && (forall q :: q in h.after ==> IsBeyond(q, ExitPoint(t, cf)))
            && (!negligible && segmentForward != nf ==> (|h.after| == 1 <==> cf == segmentForward))
            && (!negligible && segmentForward == nf && cf != nf ==>
                  && h.before == [TurningStubPose(if cf then Front(t) else Back(t), last)]
                  && h.after == [if cf then AlongTargetPose(st, t) else AlongSourcePose(st, t)])
            && (!negligible && segmentForward != nf ==>
                  h.before + h.after == [if segmentForward then AlongTargetPose(st, t) else AlongSourcePose(st, t)])
  {
    assert ValidTransition(st.course, st.course.transitions[n]);
  }

  /** The poses of one node: what comes before the curve, the curve, what comes after it. */
  function HopPoses(h: HopInput, o: HopOut): seq<Pose>
    requires ValidInput(h)
  {
    o.before + CurvePoses(h.t.path, h.curveForward) + o.after
  }

  /** One node of path assembly: the poses emitted so far extended by the node's poses, and the direction carried out. */
  function HopStep(h: HopInput, segmentForward: bool, res: seq<Pose>): (r: (seq<Pose>, bool))
    requires ValidInput(h) && res != []
    ensures |r.0| > |res| && r.0[0] == res[0]
  {
    var o := Hop(h, segmentForward, res[|res| - 1]);
    (res + HopPoses(h, o), o.nextForward)
  }

  /** Appending a node's poses is appending what precedes the curve, the curve, and what follows it, in turn. */
  lemma HopPosesSplice(h: HopInput, o: HopOut, res: seq<Pose>)
    requires ValidInput(h)
    ensures res + HopPoses(h, o) == res + o.before + CurvePoses(h.t.path, h.curveForward) + o.after
  {
    var curve := CurvePoses(h.t.path, h.curveForward);
    assert res + (o.before + curve + o.after) == (res + (o.before + curve)) + o.after;
    assert res + (o.before + curve) == res + o.before + curve;
  }

  /** One node of path assembly keeps what was emitted and adds at least one pose. */
  lemma HopStepExtends(h: HopInput, segmentForward: bool, res: seq<Pose>)
    requires ValidInput(h) && res != []
    ensures var r := HopStep(h, segmentForward, res).0;
            |r| > |res| && r[..|res|] == res && r[0] == res[0]
  {
    var r := res + HopPoses(h, Hop(h, segmentForward, res[|res| - 1]));
    assert |CurvePoses(h.t.path, h.curveForward)| >= 1;
    assert r[..|res|] == res;
  }

  predicate InArena(chain: seq<nat>, nodes: map<nat, Node>) {
    forall k :: 0 <= k < |chain| ==> chain[k] in nodes
  }

  predicate ValidInputs(ins: seq<HopInput>) {
    forall k :: 0 <= k < |ins| ==> ValidInput(ins[k])
  }

  /** The inputs of the nodes of a chain, in chain order. */
  function Inputs(st: Setting, nodes: map<nat, Node>, chain: seq<nat>): (ins: seq<HopInput>)
    requires WellFormed(st, nodes) && InArena(chain, nodes)
    ensures |ins| == |chain| && ValidInputs(ins)
  {
    seq(|chain|, k requires 0 <= k < |chain| => InputOf(st, nodes, chain[k]))
  }

  /**
   * Path assembly over the first `i` node inputs: the poses emitted so
   * far, starting with `first`, and the direction carried out of the
   * `i`-th node (`startForward` before any). Assembly only appends, at
   * least one pose per node, so `first` stays first.
   */
  function RunPrefix(ins: seq<HopInput>, first: Pose, startForward: bool, i: nat): (r: (seq<Pose>, bool))
    requires ValidInputs(ins) && i <= |ins|
    ensures |r.0| >= 1 + i && r.0[0] == first
  {
    if i == 0 then ([first], startForward)
    else
      var p := RunPrefix(ins, first, startForward, i - 1);
      HopStep(ins[i - 1], p.1, p.0)
  }

  /** One more node of path assembly is one more step. */
  lemma RunPrefixStep(ins: seq<HopInput>, first: Pose, startForward: bool, i: nat)
    requires ValidInputs(ins) && 0 < i <= |ins|
    ensures var p := RunPrefix(ins, first, startForward, i - 1);
            RunPrefix(ins, first, startForward, i) == HopStep(ins[i - 1], p.1, p.0)
  {
  }

  /** The assembled path of a node chain: first pose, every node's poses in order, last pose. */
  function AssembledPath(st: Setting, nodes: map<nat, Node>, chain: seq<nat>): seq<Pose>
    requires WellFormed(st, nodes) && InArena(chain, nodes) && chain != []
  {
    var ins := Inputs(st, nodes, chain);
    RunPrefix(ins, FirstPose(st), IsStartSegmentForward(st, nodes, chain[0]), |ins|).0 + [LastPose(st)]
  }

  /** An assembled path starts with the start-point pose, ends with the end-point pose, and has a pose per node between. */
  lemma AssembledPathEnds(st: Setting, nodes: map<nat, Node>, chain: seq<nat>)
    requires WellFormed(st, nodes) && InArena(chain, nodes) && chain != []
    ensures var p := AssembledPath(st, nodes, chain);
            |p| >= 2 + |chain| && p[0] == FirstPose(st) && p[|p| - 1] == LastPose(st)
  {
    var ins := Inputs(st, nodes, chain);
    var sf := IsStartSegmentForward(st, nodes, chain[0]);
    PathEnds(RunPrefix(ins, FirstPose(st), sf, |ins|).0, FirstPose(st), LastPose(st), |chain|);
  }

  /** A sequence that starts with `a` and holds at least `n + 1` poses, with `b` appended. */
  lemma PathEnds(q: seq<Pose>, a: Pose, b: Pose, n: nat)
    requires |q| >= n + 1 && q[0] == a
    ensures var p := q + [b];
            |p| >= 2 + n && p[0] == a && p[|p| - 1] == b
  {
  }

  /** Appends the poses of a curve, walking its polyline in driving order. */
  method InsertCurveSegment(res: seq<Pose>, path: seq<Vec2>, forward: bool) returns (out: seq<Pose>)
    requires |path| >= 2
    ensures out == res + CurvePoses(path, forward)
  {
    var m := |path|;
    out := res;
    if forward {
      for j := 1 to m
        invariant out == res + CurvePoses(path[..j], true)
      {
        assert path[..j + 1][..j] == path[..j];
        out := out + [Pose(Exactly(path[j]), AngleOf(Sub(path[j], path[j - 1])))];
      }
      assert path[..m] == path;
    } else {
      var j := m - 2;
      while j >= 0
        invariant -1 <= j <= m - 2
        invariant out == res + CurvePoses(path[j + 1..], false)
      {
        assert path[j..][1..] == path[j + 1..];
        out := out + [Pose(Exactly(path[j]), AngleOf(Sub(path[j], path[j + 1])))];
        j := j - 1;
      }
      assert path[0..] == path;
    }
  }
}

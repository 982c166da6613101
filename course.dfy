/**
 * The course graph: straight segments (field rows) joined by transitions
 * (curved arcs). Segments and transitions are referred to by index. The
 * graph is built elsewhere and read only by the planner.
 */
module CourseGraph {
  import opened Geometry

  /**
   * A straight segment from `startPoint` to `endPoint`. `forward` lists the
   * transitions that leave it in forward travel, `backward` the ones that
   * are driven in reverse from it.
   */
  datatype Segment = Segment(startPoint: Vec2, endPoint: Vec2, forward: seq<nat>, backward: seq<nat>)

  /** A curved arc from `source` to `target`, given as a polyline. */
  datatype Transition = Transition(source: nat, target: nat, path: seq<Vec2>, arcLength: real)

  datatype Course = Course(segments: seq<Segment>, transitions: seq<Transition>)

  /** Transition ids that some segment lists as forward. */
  ghost function ForwardIds(c: Course): set<nat> {
    set s, t | 0 <= s < |c.segments| && t in c.segments[s].forward :: t
  }

  /** Transition ids that some segment lists as backward. */
  ghost function BackwardIds(c: Course): set<nat> {
    set s, t | 0 <= s < |c.segments| && t in c.segments[s].backward :: t
  }

  ghost function ListedIds(c: Course): set<nat> {
    ForwardIds(c) + BackwardIds(c)
  }

  ghost predicate ValidTransition(c: Course, t: Transition) {
    t.source < |c.segments| && t.target < |c.segments| && |t.path| >= 2 && t.arcLength >= 0.0
  }

  /**
   * Well-formedness of a course: all references are in range, every
   * polyline has at least two points, arc lengths are non-negative, and a
   * transition is never used in both directions (each direction of use is
   * its own transition object).
   */
  ghost predicate Valid(c: Course) {
    && (forall i :: 0 <= i < |c.transitions| ==> ValidTransition(c, c.transitions[i]))
    && (forall s, k :: 0 <= s < |c.segments| && 0 <= k < |c.segments[s].forward| ==>
          c.segments[s].forward[k] < |c.transitions|)
    && (forall s, k :: 0 <= s < |c.segments| && 0 <= k < |c.segments[s].backward| ==>
          c.segments[s].backward[k] < |c.transitions|)
    && (forall s, k, s', k' ::
          && 0 <= s < |c.segments| && 0 <= k < |c.segments[s].forward|
          && 0 <= s' < |c.segments| && 0 <= k' < |c.segments[s'].backward|
          ==> c.segments[s].forward[k] != c.segments[s'].backward[k'])
  }

  /** In a valid course every listed id is a transition, and no id is listed in both directions. */
  lemma ValidIds(c: Course)
    requires Valid(c)
    ensures forall t :: t in ListedIds(c) ==> t < |c.transitions|
    ensures ForwardIds(c) !! BackwardIds(c)
  {
    forall t | t in ListedIds(c)
      ensures t < |c.transitions|
    {
      if t in ForwardIds(c) {
        var s :| 0 <= s < |c.segments| && t in c.segments[s].forward;
        var k :| 0 <= k < |c.segments[s].forward| && c.segments[s].forward[k] == t;
      } else {
        var s :| 0 <= s < |c.segments| && t in c.segments[s].backward;
        var k :| 0 <= k < |c.segments[s].backward| && c.segments[s].backward[k] == t;
      }
    }
    forall t | t in ForwardIds(c)
      ensures t !in BackwardIds(c)
    {
      var s :| 0 <= s < |c.segments| && t in c.segments[s].forward;
      var k :| 0 <= k < |c.segments[s].forward| && c.segments[s].forward[k] == t;
      assert forall s' :: 0 <= s' < |c.segments| ==> t !in c.segments[s'].backward;
    }
  }

  function Front(t: Transition): Vec2
    requires |t.path| >= 2
  {
    t.path[0]
  }

  function Back(t: Transition): Vec2
    requires |t.path| >= 2
  {
    t.path[|t.path| - 1]
  }
}

/**
 * The state of one search, as invariants over the arena and the frontier.
 * Ghost bookkeeping: `order` gives each node whose neighbours have been
 * relaxed the time it was dequeued, `clock` the next time, `floor` the cost
 * of the last dequeued node. With non-negative costs, a dequeued node
 * that is not on the end segment is never improved again; this makes the
 * search terminate and makes `prev` links go back in time.
 */
module SearchState {
  import opened Wrappers
  import opened CourseGraph
  import opened CostModel
  import opened NodeChains
  import opened PathAssembly

  /** The node that set-up gives transition `t`: direction by the list it is in, reached segment, cost +infinity, no links. */
  ghost function InitialNode(c: Course, t: nat): Node
    requires t < |c.transitions|
  {
    if t in ForwardIds(c) then Node(true, c.transitions[t].target, Infinite, None, None)
    else Node(false, c.transitions[t].source, Infinite, None, None)
  }

  /** The arena right after set-up: one initial node per listed transition. */
  ghost function InitialArena(c: Course): (nodes: map<nat, Node>)
    requires Valid(c)
    ensures nodes.Keys == ListedIds(c)
  {
    ValidIds(c);
    map t | t in ListedIds(c) :: InitialNode(c, t)
  }

  lemma FreshArenaWellFormed(st: Setting)
    requires ValidSetting(st)
    ensures var nodes := InitialArena(st.course);
            && WellFormed(st, nodes)
            && forall t :: t in nodes ==> nodes[t].prev.None? && nodes[t].next.None? && nodes[t].cost.Infinite?
  {
    var c := st.course;
    var nodes := InitialArena(c);
    ValidIds(c);
    forall t | t in nodes
      ensures nodes[t].nextSegment < |c.segments|
    {
      assert ValidTransition(c, c.transitions[t]);
    }
    forall s, k | 0 <= s < |c.segments| && 0 <= k < |c.segments[s].forward|
      ensures c.segments[s].forward[k] in nodes
    {
      assert c.segments[s].forward[k] in c.segments[s].forward;
      assert c.segments[s].forward[k] in ForwardIds(c);
    }
    forall s, k | 0 <= s < |c.segments| && 0 <= k < |c.segments[s].backward|
      ensures c.segments[s].backward[k] in nodes
    {
      assert c.segments[s].backward[k] in c.segments[s].backward;
      assert c.segments[s].backward[k] in BackwardIds(c);
    }
  }

  function RankOf(order: map<nat, nat>, clock: nat, i: nat): nat {
    if i in order then order[i] else clock
  }

  ghost function RankMap(keys: set<nat>, order: map<nat, nat>, clock: nat): (r: map<nat, nat>)
    ensures r.Keys == keys
    ensures forall i :: i in keys ==> r[i] == RankOf(order, clock, i)
  {
    map i | i in keys :: RankOf(order, clock, i)
  }

  /** Nodes with the same direction, segment and predecessor: only costs and `next` links may differ. */
  ghost predicate SameShape(a: map<nat, Node>, b: map<nat, Node>) {
    && a.Keys == b.Keys
    && forall i :: i in a ==>
         b[i].curveForward == a[i].curveForward && b[i].nextSegment == a[i].nextSegment && b[i].prev == a[i].prev
  }

  ghost predicate SearchInv(st: Setting, nodes: map<nat, Node>, frontier: set<nat>,
                            order: map<nat, nat>, clock: nat, floor: real) {
    && WellFormed(st, nodes)
    && frontier <= nodes.Keys
    && order.Keys <= nodes.Keys
    && frontier !! order.Keys
    && (forall i :: i in frontier ==> nodes[i].cost.Finite? && nodes[i].cost.value >= floor)
    && (forall i :: i in order ==>
          && nodes[i].cost.Finite? && nodes[i].cost.value <= floor
          && order[i] < clock && nodes[i].nextSegment != st.ends.endSegment)
    && Ranked(nodes, RankMap(nodes.Keys, order, clock))
  }

  /** The arena after a successful relaxation of `t` from `cur` with cost `c`. */
  function Relaxed(nodes: map<nat, Node>, cur: nat, t: nat, c: real): map<nat, Node>
    requires cur in nodes && t in nodes
  {
    var n1 := nodes[t := nodes[t].(prev := Some(cur))];
    var n2 := n1[cur := n1[cur].(next := Some(t))];
    n2[t := n2[t].(cost := Finite(c))]
  }

  /** Dequeuing a node of minimum cost raises the floor to its cost. */
  lemma DequeuePreserves(st: Setting, nodes: map<nat, Node>, frontier: set<nat>,
                         order: map<nat, nat>, clock: nat, floor: real, cur: nat)
    requires SearchInv(st, nodes, frontier, order, clock, floor)
    requires cur in frontier
    requires forall i :: i in frontier ==> nodes[cur].cost.value <= nodes[i].cost.value
    ensures SearchInv(st, nodes, frontier - {cur}, order, clock, nodes[cur].cost.value)
  {
  }

  /** Marking a dequeued node off the end segment as expanded keeps the invariant. */
  lemma ExpandPreserves(st: Setting, nodes: map<nat, Node>, frontier: set<nat>,
                        order: map<nat, nat>, clock: nat, floor: real, cur: nat)
    requires SearchInv(st, nodes, frontier, order, clock, floor)
    requires cur in nodes && cur !in frontier && cur !in order
    requires nodes[cur].cost == Finite(floor) && nodes[cur].nextSegment != st.ends.endSegment
    ensures SearchInv(st, nodes, frontier, order[cur := clock], clock + 1, floor)
  {
    RankedAfterExpand(nodes, order, clock, cur);
  }

  /** Giving the next time stamp to a node not yet expanded keeps every `prev` link going back in time. */
  lemma RankedAfterExpand(nodes: map<nat, Node>, order: map<nat, nat>, clock: nat, cur: nat)
    requires Ranked(nodes, RankMap(nodes.Keys, order, clock))
    requires forall i :: i in order ==> order[i] < clock
    requires cur !in order
    ensures Ranked(nodes, RankMap(nodes.Keys, order[cur := clock], clock + 1))
  {
    var old_rank := RankMap(nodes.Keys, order, clock);
    var rank := RankMap(nodes.Keys, order[cur := clock], clock + 1);
    forall i | i in nodes && nodes[i].prev.Some?
      ensures nodes[i].prev.value in nodes && rank[nodes[i].prev.value] < rank[i]
    {
      var p := nodes[i].prev.value;
      assert old_rank[p] < old_rank[i] <= clock;
      assert p in order;
    }
  }

  /** Dequeuing a node shrinks the frontier. */
  lemma RemoveShrinks(frontier: set<nat>, cur: nat)
    requires cur in frontier
    ensures |frontier - {cur}| < |frontier|
  {
  }

  /** Expanding one more node leaves fewer unexpanded ones. */
  lemma ExpandShrinks(keys: set<nat>, order: map<nat, nat>, cur: nat, time: nat)
    requires cur in keys && cur !in order
    ensures |keys - order[cur := time].Keys| < |keys - order.Keys|
  {
    assert keys - order[cur := time].Keys == (keys - order.Keys) - {cur};
  }

  /**
   * A successful relaxation from an expanded node keeps the invariant: the
   * improved node cannot be an expanded one, it joins the frontier with a
   * cost at or above the floor, and its new `prev` link goes back in time.
   */
  lemma RelaxPreserves(st: Setting, nodes: map<nat, Node>, frontier: set<nat>,
                       order: map<nat, nat>, clock: nat, floor: real, cur: nat, t: nat)
    requires SearchInv(st, nodes, frontier, order, clock, floor)
    requires cur in order && nodes[cur].cost == Finite(floor) && t in nodes
    requires t < |st.course.transitions|
    requires Below(RelaxCost(st, nodes, cur, t), nodes[t].cost)
    ensures t !in order && t != cur
    ensures var nodes' := Relaxed(nodes, cur, t, RelaxCost(st, nodes, cur, t));
            && SearchInv(st, nodes', frontier + {t}, order, clock, floor)
            && nodes'[cur].cost == Finite(floor)
  {
    var c := RelaxCost(st, nodes, cur, t);
    assert t !in order;
    RelaxedInv(st, nodes, frontier, order, clock, floor, cur, t, c);
  }

  /** Relaxing a node not yet expanded from an expanded one, with a cost at or above the floor. */
  lemma RelaxedInv(st: Setting, nodes: map<nat, Node>, frontier: set<nat>,
                   order: map<nat, nat>, clock: nat, floor: real, cur: nat, t: nat, c: real)
    requires SearchInv(st, nodes, frontier, order, clock, floor)
    requires cur in order && nodes[cur].cost == Finite(floor)
    requires t in nodes && t !in order && c >= floor
    ensures var nodes' := Relaxed(nodes, cur, t, c);
            && SearchInv(st, nodes', frontier + {t}, order, clock, floor)
            && nodes'[cur].cost == Finite(floor)
  {
    RelaxedWellFormed(st, nodes, cur, t, c);
    RankedAfterRelax(nodes, order, clock, cur, t, c);
    RelaxedCosts(nodes, cur, t, c);
  }

  /** Relaxation changes the cost of `t` only. */
  lemma RelaxedCosts(nodes: map<nat, Node>, cur: nat, t: nat, c: real)
    requires cur in nodes && t in nodes
    ensures var r := Relaxed(nodes, cur, t, c);
            && r.Keys == nodes.Keys
            && r[t].cost == Finite(c)
            && forall i :: i in nodes && i != t ==> r[i].cost == nodes[i].cost && r[i].nextSegment == nodes[i].nextSegment
  {
  }

  /** The relaxed arena stays consistent with the course. */
  lemma RelaxedWellFormed(st: Setting, nodes: map<nat, Node>, cur: nat, t: nat, c: real)
    requires WellFormed(st, nodes) && cur in nodes && t in nodes
    ensures WellFormed(st, Relaxed(nodes, cur, t, c))
  {
    var nodes' := Relaxed(nodes, cur, t, c);
    assert nodes'.Keys == nodes.Keys;
    assert Covers(st.course, nodes');
  }

  /** A new `prev` link from a node not yet expanded to an expanded one goes back in time. */
  lemma RankedAfterRelax(nodes: map<nat, Node>, order: map<nat, nat>, clock: nat, cur: nat, t: nat, c: real)
    requires Ranked(nodes, RankMap(nodes.Keys, order, clock))
    requires cur in order && order[cur] < clock && cur in nodes
    requires t in nodes && t !in order
    ensures Relaxed(nodes, cur, t, c).Keys == nodes.Keys
    ensures Ranked(Relaxed(nodes, cur, t, c), RankMap(nodes.Keys, order, clock))
  {
    var nodes' := Relaxed(nodes, cur, t, c);
    assert nodes'.Keys == nodes.Keys;
    var rank := RankMap(nodes.Keys, order, clock);
    forall i | i in nodes' && nodes'[i].prev.Some?
      ensures nodes'[i].prev.value in nodes' && rank[nodes'[i].prev.value] < rank[i]
    {
      if i != t {
        assert nodes'[i].prev == nodes[i].prev;
      }
    }
  }

  /** The straight cost charged to a start node: from the start point to the transition's entry; never negative. */
  function StartCost(st: Setting, arena: map<nat, Node>, t: nat): (r: real)
    requires WellFormed(st, arena) && t in arena
    ensures r >= 0.0
  {
    StraightCost(st, arena, t, st.ends.startPt, EntryPoint(st.course.transitions[t], arena[t].curveForward))
  }

  /** The arena after seeding: the nodes of `frontier` get their start cost, all else is kept. */
  function Seeded(st: Setting, base: map<nat, Node>, frontier: set<nat>): map<nat, Node>
    requires WellFormed(st, base) && frontier <= base.Keys
  {
    map t | t in base :: if t in frontier then base[t].(cost := Finite(StartCost(st, base, t))) else base[t]
  }

  /** Seeding changes costs only, and makes the seeded costs finite and non-negative. */
  lemma SeededSameLinks(st: Setting, base: map<nat, Node>, frontier: set<nat>)
    requires WellFormed(st, base) && frontier <= base.Keys
    ensures var seeded := Seeded(st, base, frontier);
            && SameLinks(base, seeded)
            && forall t :: t in frontier ==> seeded[t].cost.Finite? && seeded[t].cost.value >= 0.0
  {
  }

  /** Seeding one more node updates just that node's cost. */
  lemma SeededAdd(st: Setting, base: map<nat, Node>, frontier: set<nat>, t: nat)
    requires WellFormed(st, base) && frontier <= base.Keys && t in base
    ensures var s := Seeded(st, base, frontier);
            s[t := s[t].(cost := Finite(StartCost(st, base, t)))] == Seeded(st, base, frontier + {t})
  {
  }

  /** The search starts from the seeded arena: nothing expanded, the seeded nodes on the frontier, floor zero. */
  lemma SeededInv(st: Setting, base: map<nat, Node>, frontier: set<nat>)
    requires WellFormed(st, base) && frontier <= base.Keys
    requires forall t :: t in base ==> base[t].prev.None?
    ensures SearchInv(st, Seeded(st, base, frontier), frontier, map[], 0, 0.0)
  {
    SeededSameLinks(st, base, frontier);
    var seeded := Seeded(st, base, frontier);
  }

  /** One relaxation from an expanded node, successful or not, keeps the search invariant and lowers no cost bound. */
  lemma RelaxKeeps(st: Setting, nodes: map<nat, Node>, nodes': map<nat, Node>, frontier: set<nat>, frontier': set<nat>,
                   order: map<nat, nat>, clock: nat, floor: real, cur: nat, t: nat)
    requires SearchInv(st, nodes, frontier, order, clock, floor)
    requires cur in order && nodes[cur].cost == Finite(floor) && t in nodes
    requires var c := RelaxCost(st, nodes, cur, t);
             if Below(c, nodes[t].cost) then nodes' == Relaxed(nodes, cur, t, c) && frontier' == frontier + {t}
             else nodes' == nodes && frontier' == frontier
    ensures SearchInv(st, nodes', frontier', order, clock, floor) && nodes'[cur].cost == Finite(floor)
    ensures nodes'.Keys == nodes.Keys && frontier <= frontier'
    ensures forall i :: i in nodes ==> CostLe(nodes'[i].cost, nodes[i].cost)
  {
    var c := RelaxCost(st, nodes, cur, t);
    if Below(c, nodes[t].cost) {
      RelaxPreserves(st, nodes, frontier, order, clock, floor, cur, t);
      RelaxedCosts(nodes, cur, t, c);
    }
  }

  /**
   * Relaxing, in order, each transition of `ts` from node `cur`: a
   * transition offered a cost strictly below its own gets `cur` as
   * predecessor and the offered cost and joins the frontier, and `cur`
   * gets it as successor; any other transition is left as it is.
   */
  ghost function RelaxFold(st: Setting, nodes: map<nat, Node>, frontier: set<nat>, cur: nat, ts: seq<nat>)
    : (r: (map<nat, Node>, set<nat>))
    requires WellFormed(st, nodes) && cur in nodes && nodes[cur].cost.Finite?
    requires forall k :: 0 <= k < |ts| ==> ts[k] in nodes
    ensures r.0.Keys == nodes.Keys && WellFormed(st, r.0) && r.0[cur].cost == nodes[cur].cost
    decreases |ts|
  {
    if ts == [] then (nodes, frontier)
    else
      var p := RelaxFold(st, nodes, frontier, cur, ts[..|ts| - 1]);
      var t := ts[|ts| - 1];
      var c := RelaxCost(st, p.0, cur, t);
      if Below(c, p.0[t].cost) then
        RelaxedWellFormed(st, p.0, cur, t, c);
        RelaxedCosts(p.0, cur, t, c);
        (Relaxed(p.0, cur, t, c), p.1 + {t})
      else
        p
  }

  /** Relaxing a list of transitions from an expanded node keeps the invariant, only adds to the frontier and raises no cost. */
  lemma {:induction false} RelaxFoldKeeps(st: Setting, nodes: map<nat, Node>, frontier: set<nat>,
                                          order: map<nat, nat>, clock: nat, floor: real, cur: nat, ts: seq<nat>)
    requires SearchInv(st, nodes, frontier, order, clock, floor)
    requires cur in order && nodes[cur].cost == Finite(floor)
    requires forall k :: 0 <= k < |ts| ==> ts[k] in nodes
    ensures var r := RelaxFold(st, nodes, frontier, cur, ts);
            && SearchInv(st, r.0, r.1, order, clock, floor)
            && frontier <= r.1
            && forall i :: i in nodes ==> CostLe(r.0[i].cost, nodes[i].cost)
    decreases |ts|
  {
    if ts != [] {
      var init := ts[..|ts| - 1];
      RelaxFoldKeeps(st, nodes, frontier, order, clock, floor, cur, init);
      var p := RelaxFold(st, nodes, frontier, cur, init);
      var r := RelaxFold(st, nodes, frontier, cur, ts);
      RelaxKeeps(st, p.0, r.0, p.1, r.1, order, clock, floor, cur, ts[|ts| - 1]);
    }
  }

  /** Expanding node `cur`: relaxing the forward, then the backward transitions of the segment it leads to. */
  ghost function Expansion(st: Setting, nodes: map<nat, Node>, frontier: set<nat>, cur: nat): (r: (map<nat, Node>, set<nat>))
    requires WellFormed(st, nodes) && cur in nodes && nodes[cur].cost.Finite?
    ensures r.0.Keys == nodes.Keys && WellFormed(st, r.0)
  {
    var seg := st.course.segments[nodes[cur].nextSegment];
    var r := RelaxFold(st, nodes, frontier, cur, seg.forward);
    RelaxFold(st, r.0, r.1, cur, seg.backward)
  }

  /** An expansion keeps the invariant, only adds to the frontier and raises no cost. */
  lemma ExpansionKeeps(st: Setting, nodes: map<nat, Node>, frontier: set<nat>,
                       order: map<nat, nat>, clock: nat, floor: real, cur: nat)
    requires SearchInv(st, nodes, frontier, order, clock, floor)
    requires cur in order && nodes[cur].cost == Finite(floor)
    ensures var r := Expansion(st, nodes, frontier, cur);
            && SearchInv(st, r.0, r.1, order, clock, floor)
            && frontier <= r.1
            && forall i :: i in nodes ==> CostLe(r.0[i].cost, nodes[i].cost)
  {
    var seg := st.course.segments[nodes[cur].nextSegment];
    RelaxFoldKeeps(st, nodes, frontier, order, clock, floor, cur, seg.forward);
    var r := RelaxFold(st, nodes, frontier, cur, seg.forward);
    RelaxFoldKeeps(st, r.0, r.1, order, clock, floor, cur, seg.backward);
  }

  /** Expanding a dequeued node off the end segment keeps the invariant with the node stamped, and leaves fewer unexpanded nodes. */
  lemma ExpandKeeps(st: Setting, nodes: map<nat, Node>, frontier: set<nat>,
                    order: map<nat, nat>, clock: nat, floor: real, cur: nat,
                    nodes': map<nat, Node>, frontier': set<nat>)
    requires SearchInv(st, nodes, frontier, order, clock, floor)
    requires cur in nodes && cur !in frontier && cur !in order
    requires nodes[cur].cost == Finite(floor) && nodes[cur].nextSegment != st.ends.endSegment
    requires (nodes', frontier') == Expansion(st, nodes, frontier, cur)
    ensures SearchInv(st, nodes', frontier', order[cur := clock], clock + 1, floor)
    ensures |nodes'.Keys - order[cur := clock].Keys| < |nodes'.Keys - order.Keys|
  {
    ExpandPreserves(st, nodes, frontier, order, clock, floor, cur);
    ExpandShrinks(nodes.Keys, order, cur, clock);
    ExpansionKeeps(st, nodes, frontier, order[cur := clock], clock + 1, floor, cur);
  }

  /** The total of a candidate: its cost so far plus the straight cost from where it enters the end segment to the end point. */
  function CandidateTotal(st: Setting, nodes: map<nat, Node>, n: nat): (total: real)
    requires WellFormed(st, nodes) && n in nodes && nodes[n].cost.Finite?
    ensures total >= nodes[n].cost.value
  {
    var a := StartPointOnNextSegment(st, nodes, n);
    nodes[n].cost.value + StraightCost(st, nodes, n, a, st.ends.endPt)
  }


  /** Changing the cost of a non-expanded node outside the frontier, and `next` links, keeps the invariant. */
  lemma CandidatePreserves(st: Setting, nodes: map<nat, Node>, nodes': map<nat, Node>, frontier: set<nat>,
                           order: map<nat, nat>, clock: nat, floor: real, n: nat)
    requires SearchInv(st, nodes, frontier, order, clock, floor)
    requires n !in frontier && n !in order
    requires SameShape(nodes, nodes') && WellFormed(st, nodes')
    requires forall i :: i in nodes && i != n ==> nodes'[i].cost == nodes[i].cost
    ensures SearchInv(st, nodes', frontier, order, clock, floor)
  {
    assert SamePrev(nodes, nodes');
    RankedSamePrev(nodes, nodes', RankMap(nodes.Keys, order, clock));
  }

  /** The least of a sequence of candidate costs, +infinity when there is none. */
  function MinOf(s: seq<real>): (c: Cost)
    ensures s == [] <==> c.Infinite?
    ensures c.Finite? ==> c.value in s && forall x :: x in s ==> c.value <= x
  {
    if s == [] then Infinite
    else
      var m := MinOf(s[..|s| - 1]);
      assert s == s[..|s| - 1] + [s[|s| - 1]];
      if Below(s[|s| - 1], m) then Finite(s[|s| - 1]) else m
  }

  /** Keeping a running minimum with a strict comparison yields the least candidate. */
  lemma MinOfSnoc(s: seq<real>, x: real)
    ensures MinOf(s + [x]) == if Below(x, MinOf(s)) then Finite(x) else MinOf(s)
  {
    assert (s + [x])[..|s|] == s;
  }

  /**
   * The arena after the `next` links of `chain` from position `i` on are
   * repaired: each element but the last points at its successor. The walk
   * back from the chain's end writes the last pair first.
   */
  function LinkFrom(nodes: map<nat, Node>, chain: seq<nat>, i: nat): (r: map<nat, Node>)
    requires InArena(chain, nodes) && i <= |chain|
    ensures r.Keys == nodes.Keys
    decreases |chain| - i
  {
    if i + 1 >= |chain| then nodes
    else
      var r := LinkFrom(nodes, chain, i + 1);
      r[chain[i] := r[chain[i]].(next := Some(chain[i + 1]))]
  }

  /** Repairing links keeps directions, segments, predecessors and costs. */
  lemma {:induction false} LinkFromKeeps(nodes: map<nat, Node>, chain: seq<nat>, i: nat)
    requires InArena(chain, nodes) && i <= |chain|
    ensures var r := LinkFrom(nodes, chain, i);
            && SameShape(nodes, r)
            && forall x :: x in nodes ==> r[x].cost == nodes[x].cost
    decreases |chain| - i
  {
    if i + 1 < |chain| {
      LinkFromKeeps(nodes, chain, i + 1);
    }
  }

  /** Repairing links keeps the arena well formed. */
  lemma {:induction false} LinkFromWellFormed(st: Setting, nodes: map<nat, Node>, chain: seq<nat>, i: nat)
    requires InArena(chain, nodes) && i <= |chain| && WellFormed(st, nodes)
    ensures WellFormed(st, LinkFrom(nodes, chain, i))
    decreases |chain| - i
  {
    if i + 1 < |chain| {
      LinkFromWellFormed(st, nodes, chain, i + 1);
    }
  }

  /** The `next` link of a node that is not a repaired chain element is kept. */
  lemma {:induction false} LinkFromOthers(nodes: map<nat, Node>, chain: seq<nat>, i: nat)
    requires InArena(chain, nodes) && i <= |chain|
    ensures var r := LinkFrom(nodes, chain, i);
            forall x :: x in nodes && (forall k :: i <= k < |chain| - 1 ==> chain[k] != x) ==> r[x].next == nodes[x].next
    decreases |chain| - i
  {
    if i + 1 < |chain| {
      LinkFromOthers(nodes, chain, i + 1);
    }
  }

  /** In a chain without repetitions every repaired element links to its successor. */
  lemma {:induction false} LinkFromLinks(nodes: map<nat, Node>, chain: seq<nat>, i: nat)
    requires InArena(chain, nodes) && i <= |chain|
    requires forall k, l :: 0 <= k < l < |chain| ==> chain[k] != chain[l]
    ensures var r := LinkFrom(nodes, chain, i);
            forall k :: i <= k < |chain| - 1 ==> r[chain[k]].next == Some(chain[k + 1])
    decreases |chain| - i
  {
    if i + 1 < |chain| {
      LinkFromLinks(nodes, chain, i + 1);
      var r := LinkFrom(nodes, chain, i);
      forall k | i <= k < |chain| - 1
        ensures r[chain[k]].next == Some(chain[k + 1])
      {
        if k > i {
          assert chain[k] != chain[i];
        }
      }
    }
  }

  /**
   * The arena after the chain of `n` is re-linked: only `next` links
   * change, every chain element but the last points at its successor, and
   * every other node keeps its `next` link.
   */
  lemma ChainRelinked(st: Setting, base: map<nat, Node>, rank: map<nat, nat>, n: nat)
    requires WellFormed(st, base) && n in base && Ranked(base, rank)
    ensures var chain := Chain(base, rank, n);
            var r := LinkFrom(base, chain, 0);
            && SameShape(base, r) && WellFormed(st, r)
            && (forall i :: i in r ==> r[i].cost == base[i].cost)
            && (forall k :: 0 <= k < |chain| - 1 ==> r[chain[k]].next == Some(chain[k + 1]))
            && (forall i :: i in r && i !in chain[..|chain| - 1] ==> r[i].next == base[i].next)
  {
    var chain := Chain(base, rank, n);
    ChainShape(base, rank, n);
    LinkFromKeeps(base, chain, 0);
    LinkFromWellFormed(st, base, chain, 0);
    LinkFromOthers(base, chain, 0);
    LinkFromLinks(base, chain, 0);
  }
}

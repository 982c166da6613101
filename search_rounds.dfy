/**
 * The search as a sequence of rounds. A round is the arena, the frontier,
 * the best cost and the best path between two dequeues; a run starts from
 * the seeded arena and ends with an empty frontier, and each round
 * dequeues a least cost frontier node that either yields a candidate (on
 * the end segment) or is expanded (elsewhere). The best cost of a run is
 * the least of its candidates' totals, and the best path is the one
 * rendered when that least total was reached.
 */
module SearchRounds {
  import opened Wrappers
  import opened CourseGraph
  import opened CostModel
  import opened PathAssembly
  import opened NodeChains
  import opened SearchState

  datatype Round = Round(nodes: map<nat, Node>, frontier: set<nat>, minCost: Cost, bestPath: seq<Pose>)

  /** The transitions of the start segment, forward and backward lists together. */
  ghost function StartFrontier(st: Setting): (f: set<nat>)
    requires ValidSetting(st)
    ensures f <= ListedIds(st.course)
    ensures var seg := st.course.segments[st.ends.startSegment];
            forall t :: t in f <==> t in seg.forward || t in seg.backward
  {
    var seg := st.course.segments[st.ends.startSegment];
    StartListed(st.course, st.ends.startSegment);
    set t | t in seg.forward + seg.backward
  }

  /** Every transition a segment lists is a listed id. */
  lemma StartListed(c: Course, s: nat)
    requires s < |c.segments|
    ensures forall t :: t in c.segments[s].forward ==> t in ForwardIds(c)
    ensures forall t :: t in c.segments[s].backward ==> t in BackwardIds(c)
  {
  }

  /** The round before the first dequeue: the initial arena with the start segment's transitions seeded, no best cost. */
  ghost function InitialRound(st: Setting, best: seq<Pose>): Round
    requires ValidSetting(st)
  {
    FreshArenaWellFormed(st);
    var f := StartFrontier(st);
    Round(Seeded(st, InitialArena(st.course), f), f, Infinite, best)
  }

  /** `cur` is a frontier node of least cost. */
  ghost predicate Least(nodes: map<nat, Node>, frontier: set<nat>, cur: nat) {
    && cur in frontier
    && frontier <= nodes.Keys
    && (forall i :: i in frontier ==> nodes[i].cost.Finite?)
    && (forall i :: i in frontier ==> nodes[cur].cost.value <= nodes[i].cost.value)
  }

  /** `nodes'` has the `next` links of `chain` repaired in `costed`, and `best'` is the path assembled along it. */
  ghost predicate Rendered(st: Setting, costed: map<nat, Node>, chain: seq<nat>, nodes': map<nat, Node>, best': seq<Pose>) {
    && chain != []
    && InArena(chain, costed)
    && nodes' == LinkFrom(costed, chain, 0)
    && WellFormed(st, nodes')
    && InArena(chain, nodes')
    && best' == AssembledPath(st, nodes', chain)
  }

  /**
   * A candidate `n` turns the arena, best cost and best path on the
   * left into the ones on the right: `n`'s cost becomes its total; when
   * that total beats the best cost it becomes the best cost and `n`'s chain
   * is relinked and rendered as the best path, otherwise nothing else
   * changes.
   */
  ghost predicate Candidate(st: Setting, nodes: map<nat, Node>, minCost: Cost, best: seq<Pose>, n: nat,
                            nodes': map<nat, Node>, minCost': Cost, best': seq<Pose>)
    requires WellFormed(st, nodes) && n in nodes && nodes[n].cost.Finite?
  {
    var total := CandidateTotal(st, nodes, n);
    var costed := nodes[n := nodes[n].(cost := Finite(total))];
    if Below(total, minCost) then
      && minCost' == Finite(total)
      && exists rank :: Ranked(costed, rank) && Rendered(st, costed, Chain(costed, rank, n), nodes', best')
    else
      minCost' == minCost && nodes' == costed && best' == best
  }

  /** A candidate whose relinked chain is rendered under a known ranking is a candidate round's outcome. */
  lemma CandidateWitness(st: Setting, nodes: map<nat, Node>, minCost: Cost, best: seq<Pose>, n: nat, rank: map<nat, nat>,
                         nodes': map<nat, Node>, minCost': Cost, best': seq<Pose>)
    requires WellFormed(st, nodes) && n in nodes && nodes[n].cost.Finite?
    requires var total := CandidateTotal(st, nodes, n);
             var costed := nodes[n := nodes[n].(cost := Finite(total))];
             if Below(total, minCost) then
               minCost' == Finite(total) && Ranked(costed, rank) && Rendered(st, costed, Chain(costed, rank, n), nodes', best')
             else
               minCost' == minCost && nodes' == costed && best' == best
    ensures Candidate(st, nodes, minCost, best, n, nodes', minCost', best')
  {
  }

  /** One round: `cur` is dequeued as a least cost node, then yields a candidate or is expanded. */
  ghost predicate RoundStep(st: Setting, a: Round, cur: nat, b: Round) {
    && WellFormed(st, a.nodes)
    && Least(a.nodes, a.frontier, cur)
    && if a.nodes[cur].nextSegment == st.ends.endSegment then
         && b.frontier == a.frontier - {cur}
         && Candidate(st, a.nodes, a.minCost, a.bestPath, cur, b.nodes, b.minCost, b.bestPath)
       else
         && (b.nodes, b.frontier) == Expansion(st, a.nodes, a.frontier - {cur}, cur)
         && b.minCost == a.minCost && b.bestPath == a.bestPath
  }

  /** `trace[k + 1]` follows from `trace[k]` by dequeuing `cands[k]`. */
  ghost predicate Rounds(st: Setting, trace: seq<Round>, cands: seq<nat>) {
    && |trace| == |cands| + 1
    && forall k {:trigger RoundStep(st, trace[k], cands[k], trace[k + 1])} ::
         0 <= k < |cands| ==> RoundStep(st, trace[k], cands[k], trace[k + 1])
  }

  /** The rounds of a search so far, starting from the initial round. */
  ghost predicate RunFrom(st: Setting, best: seq<Pose>, trace: seq<Round>, cands: seq<nat>) {
    && ValidSetting(st)
    && Rounds(st, trace, cands)
    && trace[0] == InitialRound(st, best)
  }

  /** A whole search: from the initial round until the frontier is empty. */
  ghost predicate SearchRun(st: Setting, best: seq<Pose>, trace: seq<Round>, cands: seq<nat>) {
    && RunFrom(st, best, trace, cands)
    && trace[|trace| - 1].frontier == {}
  }

  lemma RoundsSnoc(st: Setting, trace: seq<Round>, cands: seq<nat>, cur: nat, r: Round)
    requires Rounds(st, trace, cands)
    requires RoundStep(st, trace[|trace| - 1], cur, r)
    ensures Rounds(st, trace + [r], cands + [cur])
  {
    var trace', cands' := trace + [r], cands + [cur];
    forall k | 0 <= k < |cands'|
      ensures RoundStep(st, trace'[k], cands'[k], trace'[k + 1])
    {
      if k < |cands| {
        assert trace'[k] == trace[k] && trace'[k + 1] == trace[k + 1] && cands'[k] == cands[k];
      }
    }
  }

  /** A least cost node dequeued on the end segment extends a trace by a round that yields a candidate. */
  lemma CandidateRoundStep(st: Setting, best: seq<Pose>, trace: seq<Round>, cands: seq<nat>, cur: nat, b: Round)
    requires RunFrom(st, best, trace, cands)
    requires var a := trace[|trace| - 1];
             && WellFormed(st, a.nodes) && Least(a.nodes, a.frontier, cur)
             && a.nodes[cur].nextSegment == st.ends.endSegment && b.frontier == a.frontier - {cur}
             && Candidate(st, a.nodes, a.minCost, a.bestPath, cur, b.nodes, b.minCost, b.bestPath)
    ensures RunFrom(st, best, trace + [b], cands + [cur])
  {
    RoundsSnoc(st, trace, cands, cur, b);
  }

  /** A least cost node dequeued elsewhere extends a trace by a round that expands it. */
  lemma ExpandRoundStep(st: Setting, best: seq<Pose>, trace: seq<Round>, cands: seq<nat>, cur: nat, b: Round)
    requires RunFrom(st, best, trace, cands)
    requires var a := trace[|trace| - 1];
             && WellFormed(st, a.nodes) && Least(a.nodes, a.frontier, cur)
             && a.nodes[cur].nextSegment != st.ends.endSegment
             && (b.nodes, b.frontier) == Expansion(st, a.nodes, a.frontier - {cur}, cur)
             && b.minCost == a.minCost && b.bestPath == a.bestPath
    ensures RunFrom(st, best, trace + [b], cands + [cur])
  {
    RoundsSnoc(st, trace, cands, cur, b);
  }

  /** Node `n` of the round's arena is on the end segment. */
  ghost predicate IsCandidate(st: Setting, r: Round, n: nat) {
    n in r.nodes && r.nodes[n].nextSegment == st.ends.endSegment
  }

  /** What a round does to the best cost and path: only a candidate that beats the best cost changes them. */
  ghost predicate Outcome(st: Setting, a: Round, cur: nat, b: Round) {
    && WellFormed(st, a.nodes) && cur in a.nodes && a.nodes[cur].cost.Finite?
    && var total := CandidateTotal(st, a.nodes, cur);
       if IsCandidate(st, a, cur) && Below(total, a.minCost) then b.minCost == Finite(total)
       else b.minCost == a.minCost && b.bestPath == a.bestPath
  }

  lemma RoundOutcome(st: Setting, a: Round, cur: nat, b: Round)
    requires RoundStep(st, a, cur, b)
    ensures Outcome(st, a, cur, b)
  {
  }

  /** The outcome of every round of a trace. */
  lemma RoundsOutcomes(st: Setting, trace: seq<Round>, cands: seq<nat>)
    requires Rounds(st, trace, cands)
    ensures forall k {:trigger Outcome(st, trace[k], cands[k], trace[k + 1])} ::
      0 <= k < |cands| ==> Outcome(st, trace[k], cands[k], trace[k + 1])
  {
    forall k | 0 <= k < |cands|
      ensures Outcome(st, trace[k], cands[k], trace[k + 1])
    {
      RoundOutcome(st, trace[k], cands[k], trace[k + 1]);
    }
  }

  /** The total a round's dequeued node contributes: its candidate total on the end segment, nothing elsewhere. */
  ghost function TotalOf(st: Setting, r: Round, n: nat): seq<real> {
    if IsCandidate(st, r, n) && WellFormed(st, r.nodes) && r.nodes[n].cost.Finite? then [CandidateTotal(st, r.nodes, n)]
    else []
  }

  /** The totals of the candidates of the first `k` rounds, in dequeue order. */
  ghost function Totals(st: Setting, trace: seq<Round>, cands: seq<nat>, k: nat): seq<real>
    requires |trace| == |cands| + 1 && k <= |cands|
  {
    if k == 0 then [] else Totals(st, trace, cands, k - 1) + TotalOf(st, trace[k - 1], cands[k - 1])
  }

  /** Round `p` adds its total, if any, after those of the rounds before. */
  lemma TotalsSnoc(st: Setting, trace: seq<Round>, cands: seq<nat>, p: nat)
    requires |trace| == |cands| + 1 && p < |cands|
    ensures Totals(st, trace, cands, p + 1) == Totals(st, trace, cands, p) + TotalOf(st, trace[p], cands[p])
  {
  }

  /** Taking in at most one more total updates the least total as the best cost is updated. */
  lemma MinOfStep(s: seq<real>, extra: seq<real>, before: Cost, after: Cost)
    requires before == MinOf(s) && |extra| <= 1
    requires extra == [] ==> after == before
    requires |extra| == 1 ==> after == if Below(extra[0], before) then Finite(extra[0]) else before
    ensures after == MinOf(s + extra)
  {
    if extra == [] {
      assert s + extra == s;
    } else {
      assert extra == [extra[0]];
      MinOfSnoc(s, extra[0]);
    }
  }

  /** A round takes its total, if any, into the least total as it updates the best cost. */
  lemma OutcomeMinOf(st: Setting, a: Round, cur: nat, b: Round, s: seq<real>)
    requires Outcome(st, a, cur, b) && a.minCost == MinOf(s)
    ensures b.minCost == MinOf(s + TotalOf(st, a, cur))
  {
    MinOfStep(s, TotalOf(st, a, cur), a.minCost, b.minCost);
  }

  /** Starting without a best cost, the best cost after `k` rounds is the least total of their candidates. */
  lemma {:induction false} OutcomesMinCost(st: Setting, trace: seq<Round>, cands: seq<nat>, k: nat)
    requires |trace| == |cands| + 1 && k <= |cands|
    requires forall k {:trigger Outcome(st, trace[k], cands[k], trace[k + 1])} ::
      0 <= k < |cands| ==> Outcome(st, trace[k], cands[k], trace[k + 1])
    requires trace[0].minCost == Infinite
    ensures trace[k].minCost == MinOf(Totals(st, trace, cands, k))
  {
    if k > 0 {
      var p := k - 1;
      OutcomesMinCost(st, trace, cands, p);
      OutcomeMinOf(st, trace[p], cands[p], trace[p + 1], Totals(st, trace, cands, p));
      TotalsSnoc(st, trace, cands, p);
      assert p + 1 == k;
    }
  }

  /** The best cost at the end of a search is the least total of all its candidates. */
  lemma RunMinCost(st: Setting, best: seq<Pose>, trace: seq<Round>, cands: seq<nat>)
    requires SearchRun(st, best, trace, cands)
    ensures trace[|trace| - 1].minCost == MinOf(Totals(st, trace, cands, |cands|))
  {
    RoundsOutcomes(st, trace, cands);
    OutcomesMinCost(st, trace, cands, |cands|);
  }

  /**
   * Round `j` dequeued a candidate whose total beat the best cost so far,
   * and after round `k` that total is still the best cost and the path it
   * rendered still the best path.
   */
  ghost predicate Winner(st: Setting, trace: seq<Round>, cands: seq<nat>, j: nat, k: nat)
    requires Rounds(st, trace, cands) && k <= |cands|
  {
    && j < k
    && RoundStep(st, trace[j], cands[j], trace[j + 1])
    && IsCandidate(st, trace[j], cands[j])
    && var total := CandidateTotal(st, trace[j].nodes, cands[j]);
       && Below(total, trace[j].minCost)
       && trace[k].minCost == Finite(total)
       && trace[k].bestPath == trace[j + 1].bestPath
  }

  /** After `k` rounds the best cost and path are either the initial ones, or those of a winning candidate. */
  lemma {:induction false} RoundsBestPath(st: Setting, trace: seq<Round>, cands: seq<nat>, k: nat)
    requires Rounds(st, trace, cands) && k <= |cands|
    ensures || (trace[k].minCost == trace[0].minCost && trace[k].bestPath == trace[0].bestPath)
            || exists j :: Winner(st, trace, cands, j, k)
  {
    if k > 0 {
      var p := k - 1;
      RoundsBestPath(st, trace, cands, p);
      assert RoundStep(st, trace[p], cands[p], trace[k]);
      RoundOutcome(st, trace[p], cands[p], trace[k]);
      if IsCandidate(st, trace[p], cands[p]) && Below(CandidateTotal(st, trace[p].nodes, cands[p]), trace[p].minCost) {
        assert Winner(st, trace, cands, p, k);
      } else if exists j :: Winner(st, trace, cands, j, p) {
        var j :| Winner(st, trace, cands, j, p);
        assert Winner(st, trace, cands, j, k);
      }
    }
  }

  /**
   * At the end of a search the best cost is +infinity and the best path the
   * one the search started with, or both come from a winning candidate.
   */
  lemma RunBestPath(st: Setting, best: seq<Pose>, trace: seq<Round>, cands: seq<nat>)
    requires SearchRun(st, best, trace, cands)
    ensures || (trace[|cands|].minCost == Infinite && trace[|cands|].bestPath == best)
            || exists j :: Winner(st, trace, cands, j, |cands|)
  {
    RoundsBestPath(st, trace, cands, |cands|);
  }
}

/**
 * Predecessor chains in the node arena. A ghost rank that strictly
 * decreases along every `prev` link shows that walking `prev` from any
 * node ends at a node without predecessor.
 */
module NodeChains {
  import opened Wrappers
  import opened CostModel
  import opened PathAssembly

  /** Every `prev` link points into the arena and to a node of smaller rank. */
  ghost predicate Ranked(nodes: map<nat, Node>, rank: map<nat, nat>) {
    && nodes.Keys <= rank.Keys
    && forall i {:trigger nodes[i]} :: i in nodes && nodes[i].prev.Some? ==>
         nodes[i].prev.value in nodes && rank[nodes[i].prev.value] < rank[i]
  }

  /** Two arenas with the same nodes and the same `prev` links. */
  ghost predicate SamePrev(a: map<nat, Node>, b: map<nat, Node>) {
    && a.Keys == b.Keys
    && forall i :: i in a ==> b[i].prev == a[i].prev
  }

  /** The predecessor chain of `n`, oldest first: `prev` links followed back from `n` and reversed. */
  ghost function Chain(nodes: map<nat, Node>, rank: map<nat, nat>, n: nat): (chain: seq<nat>)
    requires Ranked(nodes, rank) && n in nodes
    ensures chain != [] && chain[|chain| - 1] == n
    ensures InArena(chain, nodes)
    decreases rank[n]
  {
    match nodes[n].prev
    case None => [n]
    case Some(p) => Chain(nodes, rank, p) + [n]
  }

  /**
   * A chain starts at a node without predecessor, each element is the
   * `prev` of the next one, and ranks strictly increase along it, so no
   * node occurs twice.
   */
  lemma {:induction false} ChainShape(nodes: map<nat, Node>, rank: map<nat, nat>, n: nat)
    requires Ranked(nodes, rank) && n in nodes
    ensures var chain := Chain(nodes, rank, n);
            && nodes[chain[0]].prev.None?
            && (forall k :: 0 <= k < |chain| - 1 ==> nodes[chain[k + 1]].prev == Some(chain[k]))
            && (forall k, l :: 0 <= k < l < |chain| ==> rank[chain[k]] < rank[chain[l]])
            && (forall k, l :: 0 <= k < l < |chain| ==> chain[k] != chain[l])
    decreases rank[n]
  {
    match nodes[n].prev
    case None =>
    case Some(p) =>
      ChainShape(nodes, rank, p);
      var c := Chain(nodes, rank, p);
      var chain := c + [n];
      assert Chain(nodes, rank, n) == chain;
      forall k | 0 <= k < |chain| - 1
        ensures nodes[chain[k + 1]].prev == Some(chain[k])
      {
        if k == |c| - 1 {
          assert chain[k] == p;
        } else {
          assert chain[k] == c[k] && chain[k + 1] == c[k + 1];
        }
      }
      forall k, l | 0 <= k < l < |chain|
        ensures rank[chain[k]] < rank[chain[l]]
      {
        if l == |c| {
          assert rank[chain[k]] <= rank[p] by {
            if k < |c| - 1 {
              assert rank[c[k]] < rank[c[|c| - 1]];
            }
          }
        } else {
          assert chain[k] == c[k] && chain[l] == c[l];
        }
      }
  }

  /** Position `j` of a chain: its `prev` is the element before it, or none at the start. */
  lemma ChainPrevAt(nodes: map<nat, Node>, rank: map<nat, nat>, n: nat, j: nat)
    requires Ranked(nodes, rank) && n in nodes && j < |Chain(nodes, rank, n)|
    ensures var chain := Chain(nodes, rank, n);
            nodes[chain[j]].prev == if j > 0 then Some(chain[j - 1]) else None
  {
    ChainShape(nodes, rank, n);
  }

  /** Ranks are about `prev` links only. */
  lemma RankedSamePrev(a: map<nat, Node>, b: map<nat, Node>, rank: map<nat, nat>)
    requires Ranked(a, rank) && SamePrev(a, b)
    ensures Ranked(b, rank)
  {
    forall i | i in b && b[i].prev.Some?
      ensures b[i].prev.value in b && rank[b[i].prev.value] < rank[i]
    {
      assert a[i].prev == b[i].prev;
    }
  }

  /** A chain depends on the `prev` links only. */
  lemma {:induction false} ChainSamePrev(a: map<nat, Node>, b: map<nat, Node>, rank: map<nat, nat>, n: nat)
    requires Ranked(a, rank) && SamePrev(a, b) && n in a
    ensures Ranked(b, rank)
    ensures Chain(b, rank, n) == Chain(a, rank, n)
    decreases rank[n]
  {
    RankedSamePrev(a, b, rank);
    match a[n].prev
    case None =>
    case Some(p) =>
      ChainSamePrev(a, b, rank, p);
  }
}

/** Square matrices read as weighted digraphs, shared by the flow and circuit solvers. */
module Matrices {

  /** `g[u][v]` is the weight of edge u -> v; only positive weights are edges. */
  type Graph = seq<seq<real>>

  predicate Square(g: Graph) {
    forall u :: 0 <= u < |g| ==> |g[u]| == |g|
  }

  predicate Node(g: Graph, v: int) {
    0 <= v < |g|
  }

  predicate Edge(g: Graph, u: int, v: int)
    requires Square(g)
  {
    Node(g, u) && Node(g, v) && g[u][v] > 0.0
  }

  predicate Distinct(p: seq<int>) {
    forall i, j :: 0 <= i < j < |p| ==> p[i] != p[j]
  }

  lemma {:induction false} BelowBound(S: set<int>, n: nat)
    requires forall x :: x in S ==> 0 <= x < n
    ensures |S| <= n
  {
    if n == 0 {
      assert forall x :: x !in S;
      assert S == {};
    } else {
      BelowBound(S - {n - 1}, n - 1);
    }
  }

  lemma {:induction false} DistinctCard(p: seq<int>)
    requires Distinct(p)
    ensures |set i | 0 <= i < |p| :: p[i]| == |p|
  {
    if p != [] {
      var k := |p| - 1;
      DistinctCard(p[..k]);
      assert (set i | 0 <= i < |p| :: p[i]) == (set i | 0 <= i < |p[..k]| :: p[..k][i]) + {p[k]};
    }
  }

  /** Distinct numbers below n: there are at most n of them. */
  lemma DistinctBound(p: seq<int>, n: nat)
    requires Distinct(p) && forall i :: 0 <= i < |p| ==> 0 <= p[i] < n
    ensures |p| <= n
  {
    DistinctCard(p);
    BelowBound(set i | 0 <= i < |p| :: p[i], n);
  }
}

/**
 Residual graphs of the max-flow solver, their shortest paths, and the combinatorial
 argument that augmenting along a shortest path makes progress even though capacities
 are real numbers.
 */
module FlowGraph {
  import opened Matrices

  ghost predicate NonNegative(g: Graph) {
    Square(g) && forall u, v :: 0 <= u < |g| && 0 <= v < |g| ==> g[u][v] >= 0.0
  }

  // ---------- paths ----------

  ghost predicate IsPath(g: Graph, p: seq<int>, s: int, t: int)
    requires Square(g)
  {
    && |p| >= 1 && p[0] == s && p[|p| - 1] == t
    && (forall i :: 0 <= i < |p| ==> Node(g, p[i]))
    && (forall i, j :: 0 <= i && j == i + 1 < |p| ==> Edge(g, p[i], p[j]))
  }

  ghost predicate Reachable(g: Graph, s: int, t: int)
    requires Square(g)
  {
    exists p :: IsPath(g, p, s, t)
  }

  ghost predicate Shortest(g: Graph, p: seq<int>, s: int, t: int)
    requires Square(g)
  {
    IsPath(g, p, s, t) && forall q :: IsPath(g, q, s, t) ==> |p| <= |q|
  }

  /** `v` can be reached from `s` over at most `k` edges. */
  ghost predicate Near(g: Graph, s: int, v: int, k: int)
    requires Square(g)
  {
    exists p :: IsPath(g, p, s, v) && |p| <= k + 1
  }

  lemma NearExtend(g: Graph, s: int, u: int, v: int, k: int)
    requires Square(g) && Near(g, s, u, k) && Edge(g, u, v)
    ensures Near(g, s, v, k + 1)
  {
    var p :| IsPath(g, p, s, u) && |p| <= k + 1;
    assert IsPath(g, p + [v], s, v);
  }

  lemma NearPrefix(g: Graph, p: seq<int>, s: int, t: int, j: int)
    requires Square(g) && IsPath(g, p, s, t) && 0 <= j < |p|
    ensures Near(g, s, p[j], j)
  {
    assert IsPath(g, p[..j + 1], s, p[j]);
  }

  /** Node j of a shortest path is at distance exactly j. */
  lemma ShortestPrefix(g: Graph, p: seq<int>, s: int, t: int, j: int, k: int)
    requires Square(g) && Shortest(g, p, s, t) && 0 <= j < |p|
    requires Near(g, s, p[j], k)
    ensures j <= k
  {
    var q :| IsPath(g, q, s, p[j]) && |q| <= k + 1;
    assert IsPath(g, q + p[j + 1..], s, t);
  }

  lemma ShortestDistinct(g: Graph, p: seq<int>, s: int, t: int)
    requires Square(g) && Shortest(g, p, s, t)
    ensures Distinct(p)
  {
    forall i, j | 0 <= i < j < |p|
      ensures p[i] != p[j]
    {
      if p[i] == p[j] {
        NearPrefix(g, p, s, t, i);
        ShortestPrefix(g, p, s, t, j, i);
      }
    }
  }

  // ---------- augmentation ----------

  /** Edge x -> y is traversed by `p` at position k or later. */
  ghost predicate OnPath(p: seq<int>, k: int, x: int, y: int) {
    exists i, j :: k <= i && 0 <= i && j == i + 1 < |p| && p[i] == x && p[j] == y
  }

  /** `h` is `g` after pushing `f` over the edges of `p` from position `k` on. */
  ghost predicate Augmented(g: Graph, h: Graph, p: seq<int>, k: int, f: real)
    requires Square(g)
  {
    && |h| == |g| && Square(h)
    && forall x, y :: Node(g, x) && Node(g, y) ==>
      h[x][y] == g[x][y] - (if OnPath(p, k, x, y) then f else 0.0) + (if OnPath(p, k, y, x) then f else 0.0)
  }

  /** One step of the residual update: take `f` from u -> v and give it to v -> u. */
  function Push(g: Graph, u: int, v: int, f: real): (h: Graph)
    requires Square(g) && Node(g, u) && Node(g, v) && u != v
    ensures Square(h) && |h| == |g|
  {
    var g1 := g[u := g[u][v := g[u][v] - f]];
    g1[v := g1[v][u := g1[v][u] + f]]
  }

  ghost predicate Bottleneck(g: Graph, p: seq<int>, f: real)
    requires Square(g)
  {
    && f > 0.0
    && (forall i, j :: 0 <= i && j == i + 1 < |p| && Node(g, p[i]) && Node(g, p[j]) ==> f <= g[p[i]][p[j]])
    && (exists i, j :: 0 <= i && j == i + 1 < |p| && Node(g, p[i]) && Node(g, p[j]) && f == g[p[i]][p[j]])
  }

  // ---------- progress ----------

  lemma NewEdges(g: Graph, h: Graph, p: seq<int>, f: real, x: int, y: int)
    requires Square(g) && Augmented(g, h, p, 0, f) && f > 0.0
    requires Edge(h, x, y) && !Edge(g, x, y)
    ensures OnPath(p, 0, y, x)
  {
  }

  /** Walking along a path of the new graph, old distances grow by at most one per step. */
  lemma {:induction false} Climb(g: Graph, h: Graph, p: seq<int>, s: int, t: int, f: real,
                                 q: seq<int>, v: int, i: int, c: int, m: int)
    requires Square(g) && Shortest(g, p, s, t) && Augmented(g, h, p, 0, f) && f > 0.0
    requires IsPath(h, q, s, v) && 0 <= i <= m < |q| && Near(g, s, q[i], c)
    ensures Near(g, s, q[m], c + m - i)
    decreases m
  {
    if i < m {
      Climb(g, h, p, s, t, f, q, v, i, c, m - 1);
      assert Edge(h, q[m - 1], q[m]);
      if Edge(g, q[m - 1], q[m]) {
        NearExtend(g, s, q[m - 1], q[m], c + m - 1 - i);
      } else {
        NewEdges(g, h, p, f, q[m - 1], q[m]);
        var j, j' :| 0 <= j && j' == j + 1 < |p| && p[j] == q[m] && p[j'] == q[m - 1];
        ShortestPrefix(g, p, s, t, j', c + m - 1 - i);
        NearPrefix(g, p, s, t, j);
      }
    }
  }

  /** After an augmentation no source-sink path is shorter than the augmented one was. */
  lemma DistanceGrows(g: Graph, h: Graph, p: seq<int>, s: int, t: int, f: real, q: seq<int>)
    requires Square(g) && Shortest(g, p, s, t) && Augmented(g, h, p, 0, f) && f > 0.0
    requires IsPath(h, q, s, t)
    ensures |p| <= |q|
  {
    assert IsPath(g, [s], s, s);
    Climb(g, h, p, s, t, f, q, t, 0, 0, |q| - 1);
    ShortestPrefix(g, p, s, t, |p| - 1, |q| - 1);
  }

  /** A path of the new graph that is no longer uses old edges only. */
  lemma SameLengthIsOld(g: Graph, h: Graph, p: seq<int>, s: int, t: int, f: real, q: seq<int>)
    requires Square(g) && Shortest(g, p, s, t) && Augmented(g, h, p, 0, f) && f > 0.0
    requires IsPath(h, q, s, t) && |q| == |p|
    ensures Shortest(g, q, s, t)
  {
    assert IsPath(g, [s], s, s);
    forall m, m' | 0 <= m && m' == m + 1 < |q|
      ensures Edge(g, q[m], q[m'])
    {
      assert Edge(h, q[m], q[m']);
      if !Edge(g, q[m], q[m']) {
        NewEdges(g, h, p, f, q[m], q[m']);
        var j, j' :| 0 <= j && j' == j + 1 < |p| && p[j] == q[m'] && p[j'] == q[m];
        Climb(g, h, p, s, t, f, q, t, 0, 0, m);
        ShortestPrefix(g, p, s, t, j', m);
        NearPrefix(g, p, s, t, j);
        Climb(g, h, p, s, t, f, q, t, m', j, |q| - 1);
        ShortestPrefix(g, p, s, t, |p| - 1, j + (|q| - 1) - m');
      }
    }
  }

  ghost predicate OnShortest(g: Graph, s: int, t: int, x: int, y: int)
    requires Square(g)
  {
    exists p :: Shortest(g, p, s, t) && OnPath(p, 0, x, y)
  }

  /** The edges that lie on some shortest path from s to t. */
  ghost function ShortestEdges(g: Graph, s: int, t: int): set<(int, int)>
    requires Square(g)
  {
    set x, y | 0 <= x < |g| && 0 <= y < |g| && OnShortest(g, s, t, x, y) :: (x, y)
  }

  /**
   An augmentation along a shortest path either lengthens every source-sink path, or keeps
   the distance and strictly shrinks the set of edges on shortest paths.
   */
  lemma AugmentationProgress(g: Graph, h: Graph, p: seq<int>, s: int, t: int, f: real, q: seq<int>)
    requires Square(g) && Shortest(g, p, s, t) && Bottleneck(g, p, f) && Augmented(g, h, p, 0, f)
    requires Shortest(h, q, s, t)
    ensures |p| <= |q|
    ensures |p| == |q| ==> ShortestEdges(h, s, t) < ShortestEdges(g, s, t)
  {
    DistanceGrows(g, h, p, s, t, f, q);
    if |p| == |q| {
      forall x, y | 0 <= x < |h| && 0 <= y < |h| && OnShortest(h, s, t, x, y)
        ensures OnShortest(g, s, t, x, y)
      {
        var r :| Shortest(h, r, s, t) && OnPath(r, 0, x, y);
        SameLengthIsOld(g, h, p, s, t, f, r);
      }
      var i, j :| 0 <= i && j == i + 1 < |p| && Node(g, p[i]) && Node(g, p[j]) && f == g[p[i]][p[j]];
      SaturatedEdgeLeaves(g, h, p, s, t, f, i);
      assert OnShortest(g, s, t, p[i], p[j]);
      assert (p[i], p[j]) in ShortestEdges(g, s, t) && (p[i], p[j]) !in ShortestEdges(h, s, t);
    }
  }

  lemma SaturatedEdgeLeaves(g: Graph, h: Graph, p: seq<int>, s: int, t: int, f: real, i: int)
    requires Square(g) && Shortest(g, p, s, t) && Augmented(g, h, p, 0, f)
    requires 0 <= i < |p| - 1 && f == g[p[i]][p[i + 1]]
    ensures !OnShortest(h, s, t, p[i], p[i + 1])
  {
    var x, y := p[i], p[i + 1];
    ShortestDistinct(g, p, s, t);
    assert OnPath(p, 0, x, y) && !OnPath(p, 0, y, x);
    assert h[x][y] == 0.0;
    forall r | Shortest(h, r, s, t)
      ensures !OnPath(r, 0, x, y)
    {
    }
  }

  // ---------- counting ----------

  lemma {:induction false} PairBound(S: set<(int, int)>, n: nat, m: nat)
    requires forall e :: e in S ==> 0 <= e.0 < n && 0 <= e.1 < m
    ensures |S| <= n * m
    decreases n
  {
    if n == 0 {
      assert S == {};
    } else {
      var last := set e | e in S && e.0 == n - 1;
      var rest := S - last;
      assert |S| == |rest| + |last| by {
        assert S == rest + last;
      }
      RowBound(last, n - 1, m);
      PairBound(rest, n - 1, m);
      assert (n - 1) * m + m == n * m;
    }
  }

  lemma {:induction false} RowBound(S: set<(int, int)>, x: int, m: nat)
    requires forall e :: e in S ==> e.0 == x && 0 <= e.1 < m
    ensures |S| <= m
    decreases m
  {
    if m == 0 {
      assert S == {};
    } else {
      RowBound(S - {(x, m - 1)}, x, m - 1);
    }
  }

  /** How many augmentations can still follow when `p` is the current shortest path. */
  ghost function Budget(g: Graph, s: int, t: int, p: seq<int>): int
    requires Square(g)
  {
    Rank(|g| - |p|, |ShortestEdges(g, s, t)|, |g| * |g|)
  }

  /** Lexicographic rank of the pair (a, e) where the second component is at most n. */
  function Rank(a: int, e: int, n: int): int {
    a * n + e
  }

  lemma RankBounds(a: int, b: int, e: int, n: nat)
    requires 0 <= a < b && 1 <= e <= n
    ensures 1 <= Rank(a, e, n) <= b * n
  {
    assert (a + 1) * n <= b * n;
  }

  lemma RankShrinks(a: int, e: int, a': int, e': int, n: nat)
    requires 1 <= e && e' <= n && (a' < a || (a' == a && e' < e))
    ensures Rank(a', e', n) < Rank(a, e, n)
  {
    if a' < a {
      assert (a' + 1) * n <= a * n;
    }
  }

  lemma ShortestEdgesBounds(g: Graph, s: int, t: int, p: seq<int>)
    requires Square(g) && Shortest(g, p, s, t) && s != t
    ensures 1 <= |ShortestEdges(g, s, t)| <= |g| * |g|
  {
    PairBound(ShortestEdges(g, s, t), |g|, |g|);
    assert OnPath(p, 0, p[0], p[1]);
    assert OnShortest(g, s, t, p[0], p[1]);
    assert (p[0], p[1]) in ShortestEdges(g, s, t);
  }

  lemma BudgetBounds(g: Graph, s: int, t: int, p: seq<int>)
    requires Square(g) && Shortest(g, p, s, t) && s != t
    ensures 1 <= Budget(g, s, t, p) <= (|g| - 1) * (|g| * |g|)
  {
    ShortestDistinct(g, p, s, t);
    DistinctBound(p, |g|);
    ShortestEdgesBounds(g, s, t, p);
    RankBounds(|g| - |p|, |g| - 1, |ShortestEdges(g, s, t)|, |g| * |g|);
  }

  /** AugmentationProgress in terms of cardinalities. */
  lemma LexicographicProgress(g: Graph, h: Graph, p: seq<int>, s: int, t: int, f: real, q: seq<int>)
    requires Square(g) && Shortest(g, p, s, t) && Bottleneck(g, p, f) && Augmented(g, h, p, 0, f)
    requires Shortest(h, q, s, t)
    ensures |p| < |q| || (|p| == |q| && |ShortestEdges(h, s, t)| < |ShortestEdges(g, s, t)|)
  {
    AugmentationProgress(g, h, p, s, t, f, q);
    var e, e' := ShortestEdges(g, s, t), ShortestEdges(h, s, t);
    if |p| == |q| {
      assert e == e' + (e - e');
    }
  }

  lemma RankedBudget(g: Graph, h: Graph, s: int, t: int, p: seq<int>, q: seq<int>)
    requires Square(g) && Square(h) && |h| == |g|
    requires 1 <= |ShortestEdges(g, s, t)| && |ShortestEdges(h, s, t)| <= |h| * |h|
    requires |p| < |q| || (|p| == |q| && |ShortestEdges(h, s, t)| < |ShortestEdges(g, s, t)|)
    ensures Budget(h, s, t, q) < Budget(g, s, t, p)
  {
    var n: nat := |g| * |g|;
    RankShrinks(|g| - |p|, |ShortestEdges(g, s, t)|, |h| - |q|, |ShortestEdges(h, s, t)|, n);
  }

  lemma BudgetShrinks(g: Graph, h: Graph, p: seq<int>, s: int, t: int, f: real, q: seq<int>)
    requires Square(g) && Shortest(g, p, s, t) && Bottleneck(g, p, f) && Augmented(g, h, p, 0, f) && s != t
    requires Shortest(h, q, s, t)
    ensures Budget(h, s, t, q) < Budget(g, s, t, p)
  {
    LexicographicProgress(g, h, p, s, t, f, q);
    ShortestEdgesBounds(g, s, t, p);
    ShortestEdgesBounds(h, s, t, q);
    RankedBudget(g, h, s, t, p, q);
  }
}

/**
 The Edmonds-Karp solver: breadth-first search over a residual matrix and the augmentation
 loop that updates the matrix in place.
 */
module FlowSolver {
  import opened Matrices
  import opened FlowGraph
  import opened FlowCut

  ghost function Grid(a: array2<real>): (g: Graph)
    reads a
    ensures |g| == a.Length0 && forall u :: 0 <= u < |g| ==> |g[u]| == a.Length1
    ensures forall u, v :: 0 <= u < a.Length0 && 0 <= v < a.Length1 ==> g[u][v] == a[u, v]
  {
    seq(a.Length0, u requires 0 <= u < a.Length0 reads a =>
      seq(a.Length1, v requires 0 <= v < a.Length1 reads a => a[u, v]))
  }

  // ---------- breadth-first search ----------

  /** `paths[v]` is a simple path to v that follows the parent entries backwards. */
  ghost predicate TreePath(g: Graph, s: int, par: seq<int>, paths: map<int, seq<int>>, v: int)
    requires Square(g) && |par| == |g| && v in paths
  {
    var q := paths[v];
    && IsPath(g, q, s, v) && Distinct(q)
    && (forall i :: 0 <= i < |q| ==> q[i] in paths)
    && ParentChain(g, par, q)
  }

  ghost predicate ParentChain(g: Graph, par: seq<int>, q: seq<int>)
    requires |par| == |g|
  {
    forall i, j :: 0 <= i && j == i + 1 < |q| && Node(g, q[j]) ==> par[q[j]] == q[i]
  }

  ghost predicate Tree(g: Graph, s: int, par: seq<int>, paths: map<int, seq<int>>)
    requires Square(g) && |par| == |g|
  {
    s in paths && paths[s] == [s] && forall v :: v in paths ==> TreePath(g, s, par, paths, v)
  }

  /** The open nodes (being scanned, or queued) come in order of depth and span two layers at most. */
  ghost predicate Layered(paths: map<int, seq<int>>, open: seq<int>) {
    && (forall i :: 0 <= i < |open| ==> open[i] in paths)
    && (forall i, j :: 0 <= i < j < |open| ==> |paths[open[i]]| <= |paths[open[j]]| <= |paths[open[0]]| + 1)
  }

  /** Every edge from u to a node below k leads to a node already found, at most one layer deeper. */
  ghost predicate Scanned(g: Graph, paths: map<int, seq<int>>, u: int, k: int)
    requires Square(g) && u in paths
  {
    forall v :: v < k && Edge(g, u, v) ==> v in paths && |paths[v]| <= |paths[u]| + 1
  }

  ghost predicate Closed(g: Graph, paths: map<int, seq<int>>, done: set<int>)
    requires Square(g)
  {
    forall u :: u in done ==> u in paths && Scanned(g, paths, u, |g|)
  }

  ghost predicate Covered(paths: map<int, seq<int>>, done: set<int>, open: seq<int>) {
    forall v :: v in paths ==> v in done || v in open
  }

  /** Nodes already scanned are no deeper than the open ones. */
  ghost predicate Settled(paths: map<int, seq<int>>, done: set<int>, open: seq<int>) {
    forall v, i :: v in done && v in paths && 0 <= i < |open| && open[i] in paths ==> |paths[v]| <= |paths[open[i]]|
  }

  /** The invariant of the search: `open` holds the node being scanned, if any, and the queue. */
  ghost predicate Searching(g: Graph, s: int, t: int, par: seq<int>, visited: seq<bool>,
                            paths: map<int, seq<int>>, done: set<int>, open: seq<int>)
    requires Square(g)
  {
    && |par| == |visited| == |g|
    && Tree(g, s, par, paths)
    && (forall v :: 0 <= v < |g| ==> (visited[v] <==> v in paths))
    && Layered(paths, open) && Closed(g, paths, done) && Covered(paths, done, open) && Settled(paths, done, open)
    && (s != t ==> t !in paths)
  }

  ghost function Unfound(n: nat, paths: map<int, seq<int>>): set<int> {
    set v | 0 <= v < n && v !in paths
  }

  lemma SearchStart(g: Graph, s: int, t: int, par: seq<int>, visited: seq<bool>)
    requires Square(g) && |par| == |visited| == |g| && Node(g, s)
    requires forall v :: 0 <= v < |g| ==> (visited[v] <==> v == s)
    ensures Searching(g, s, t, par, visited, map[s := [s]], {}, [s])
  {
    assert TreePath(g, s, par, map[s := [s]], s);
  }

  lemma TreeGrows(g: Graph, s: int, par: seq<int>, paths: map<int, seq<int>>, u: int, v: int)
    requires Square(g) && |par| == |g| && Tree(g, s, par, paths)
    requires u in paths && v !in paths && Edge(g, u, v)
    ensures Tree(g, s, par[v := u], paths[v := paths[u] + [v]])
  {
    var par', paths' := par[v := u], paths[v := paths[u] + [v]];
    assert TreePath(g, s, par, paths, u);
    forall w | w in paths'
      ensures TreePath(g, s, par', paths', w)
    {
      if w != v {
        assert TreePath(g, s, par, paths, w);
      }
    }
  }

  lemma UnfoundShrinks(n: nat, paths: map<int, seq<int>>, v: int, q: seq<int>)
    requires 0 <= v < n && v !in paths
    ensures Unfound(n, paths[v := q]) < Unfound(n, paths)
  {
    assert v in Unfound(n, paths);
  }

  /** Scanning finds a new node v from u. */
  lemma Discover(g: Graph, s: int, t: int, par: seq<int>, visited: seq<bool>, paths: map<int, seq<int>>,
                 done: set<int>, u: int, queue: seq<int>, v: int)
    requires Square(g) && Searching(g, s, t, par, visited, paths, done, [u] + queue)
    requires u in paths && v !in paths && Edge(g, u, v) && v != t && Scanned(g, paths, u, v)
    ensures var paths' := paths[v := paths[u] + [v]];
            && Searching(g, s, t, par[v := u], visited[v := true], paths', done, [u] + (queue + [v]))
            && Scanned(g, paths', u, v + 1)
  {
    TreeGrows(g, s, par, paths, u, v);
    assert [u] + queue + [v] == [u] + (queue + [v]);
  }

  /** A node that is already found needs no entry: it is at most one layer deeper than u. */
  lemma Skip(g: Graph, s: int, t: int, par: seq<int>, visited: seq<bool>, paths: map<int, seq<int>>,
             done: set<int>, u: int, queue: seq<int>, v: int)
    requires Square(g) && Searching(g, s, t, par, visited, paths, done, [u] + queue)
    requires u in paths && (v in paths || !Edge(g, u, v)) && Scanned(g, paths, u, v)
    ensures Scanned(g, paths, u, v + 1)
  {
    var open := [u] + queue;
    assert open[0] == u;
    if v in paths && v !in done {
      assert v in open;
    }
  }

  lemma Retire(g: Graph, s: int, t: int, par: seq<int>, visited: seq<bool>, paths: map<int, seq<int>>,
               done: set<int>, u: int, queue: seq<int>)
    requires Square(g) && Searching(g, s, t, par, visited, paths, done, [u] + queue)
    requires u in paths && Scanned(g, paths, u, |g|)
    ensures Searching(g, s, t, par, visited, paths, done + {u}, queue)
  {
    var open := [u] + queue;
    assert open[0] == u && forall i :: 0 <= i < |queue| ==> queue[i] == open[i + 1];
  }

  /** Any path that leaves the found nodes is longer than the depth of the node being scanned. */
  lemma {:induction false} FrontierBound(g: Graph, s: int, paths: map<int, seq<int>>, done: set<int>, open: seq<int>,
                                         q: seq<int>, t: int, j: int)
    requires Square(g) && |open| > 0 && Layered(paths, open) && Closed(g, paths, done) && Covered(paths, done, open)
    requires IsPath(g, q, s, t) && t !in paths
    requires 0 <= j < |q| && q[j] in paths && |paths[q[j]]| <= j + 1
    ensures |q| >= |paths[open[0]]| + 1
    decreases |q| - j
  {
    if q[j] in done {
      assert Edge(g, q[j], q[j + 1]);
      assert Scanned(g, paths, q[j], |g|);
      FrontierBound(g, s, paths, done, open, q, t, j + 1);
    }
  }

  /** Finding t from u yields a shortest path, encoded by the parent entries. */
  lemma Arrive(g: Graph, s: int, t: int, par: seq<int>, visited: seq<bool>, paths: map<int, seq<int>>,
               done: set<int>, u: int, queue: seq<int>)
    requires Square(g) && Searching(g, s, t, par, visited, paths, done, [u] + queue)
    requires u in paths && t !in paths && Edge(g, u, t)
    ensures var path := paths[u] + [t];
            Shortest(g, path, s, t) && Distinct(path) && ParentChain(g, par[t := u], path)
  {
    var open := [u] + queue;
    assert open[0] == u;
    forall q | IsPath(g, q, s, t)
      ensures |q| >= |paths[u]| + 1
    {
      FrontierBound(g, s, paths, done, open, q, t, 0);
    }
    TreeGrows(g, s, par, paths, u, t);
    assert TreePath(g, s, par[t := u], paths[t := paths[u] + [t]], t);
  }

  /** Nothing outside a closed set of nodes can be reached from inside it. */
  lemma {:induction false} ClosedIsAll(g: Graph, S: set<int>, q: seq<int>, s: int, t: int, j: int)
    requires Square(g) && IsPath(g, q, s, t) && s in S && 0 <= j < |q|
    requires forall u, v :: u in S && Edge(g, u, v) ==> v in S
    ensures q[j] in S
  {
    if j > 0 {
      ClosedIsAll(g, S, q, s, t, j - 1);
      assert Edge(g, q[j - 1], q[j]);
    }
  }

  /** With nothing left to scan, the nodes found form a cut that no residual edge leaves. */
  lemma Exhausted(g: Graph, s: int, t: int, par: seq<int>, visited: seq<bool>, paths: map<int, seq<int>>,
                  done: set<int>)
    requires Square(g) && s != t && Searching(g, s, t, par, visited, paths, done, [])
    ensures IsCut(g, s, t, paths.Keys) && !Reachable(g, s, t)
    ensures forall u, v :: u in paths.Keys && Edge(g, u, v) ==> v in paths.Keys
  {
    forall v | v in paths
      ensures Node(g, v) && v in done
    {
      assert TreePath(g, s, par, paths, v);
    }
    forall u, v | u in paths.Keys && Edge(g, u, v)
      ensures v in paths.Keys
    {
      assert Scanned(g, paths, u, |g|);
    }
    forall q | IsPath(g, q, s, t)
      ensures false
    {
      ClosedIsAll(g, paths.Keys, q, s, t, |q| - 1);
    }
  }

  /** What a search reports: a shortest path encoded by the parents, or a cut that no residual edge leaves. */
  ghost predicate Answer(g: Graph, s: int, t: int, par: seq<int>, found: bool, path: seq<int>, reached: set<int>)
    requires Square(g) && |par| == |g|
  {
    if found then
      Shortest(g, path, s, t) && Distinct(path) && ParentChain(g, par, path)
    else
      && IsCut(g, s, t, reached)
      && forall u, v :: u in reached && Edge(g, u, v) ==> v in reached
  }

  /**
   Breadth-first search for an augmenting path; `parent` is overwritten whatever it held.
   `path` is the path that `parent` encodes when one is found, `reached` the nodes found
   when none is.
   */
  method Bfs(residual: array2<real>, s: int, t: int, parent: array<int>)
    returns (found: bool, ghost path: seq<int>, ghost reached: set<int>)
    requires residual.Length1 == residual.Length0 == parent.Length
    modifies parent
    ensures found <==>
      0 <= s < residual.Length0 && 0 <= t < residual.Length0 && s != t && Reachable(Grid(residual), s, t)
    ensures 0 <= s < residual.Length0 && 0 <= t < residual.Length0 && s != t ==>
      Answer(Grid(residual), s, t, parent[..], found, path, reached)
  {
    path, reached := [], {};
    var V := residual.Length0;
    if V == 0 || s < 0 || s >= V || t < 0 || t >= V {
      return false, path, reached;
    }
    ghost var g := Grid(residual);
    var visited := seq(V, _ => false);
    var queue := [s];
    visited := visited[s := true];
    parent[s] := -1;

    ghost var paths := map[s := [s]];
    ghost var done: set<int> := {};
    SearchStart(g, s, t, parent[..], visited);
    while queue != []
      invariant Searching(g, s, t, parent[..], visited, paths, done, queue)
      decreases Unfound(V, paths), |queue|
    {
      var u := queue[0];
      ghost var was := queue;
      queue := queue[1..];
      assert [u] + queue == was;
      ghost var unfound, waiting := Unfound(V, paths), |queue|;

      for v := 0 to V
        invariant u in paths && 0 <= u < V
        invariant Searching(g, s, t, parent[..], visited, paths, done, [u] + queue)
        invariant Scanned(g, paths, u, v)
        invariant Unfound(V, paths) < unfound || (Unfound(V, paths) == unfound && |queue| == waiting)
      {
        if !visited[v] && residual[u, v] > 0.0 {
          if v == t {
            Arrive(g, s, t, parent[..], visited, paths, done, u, queue);
            parent[v] := u;
            path := paths[u] + [v];
            return true, path, reached;
          }
          Discover(g, s, t, parent[..], visited, paths, done, u, queue, v);
          queue := queue + [v];
          parent[v] := u;
          visited := visited[v := true];
          UnfoundShrinks(V, paths, v, paths[u] + [v]);
          paths := paths[v := paths[u] + [v]];
        } else {
          Skip(g, s, t, parent[..], visited, paths, done, u, queue, v);
        }
      }
      Retire(g, s, t, parent[..], visited, paths, done, u, queue);
      done := done + {u};
    }
    if s != t {
      Exhausted(g, s, t, parent[..], visited, paths, done);
    }
    reached := paths.Keys;
    return false, path, reached;
  }

  // ---------- augmentation loop ----------

  /** Net flow moved so far when the pushes from position k to the sink are done. */
  ghost predicate Midway(cap: Graph, g: Graph, h: Graph, p: seq<int>, k: int, f: real)
    requires Square(cap) && Square(g) && |g| == |cap| && 0 <= k < |p|
  {
    Augmented(g, h, p, k, f) && Shifted(cap, g, h, p[k], p[|p| - 1], f)
  }

  lemma MidwayStep(cap: Graph, g: Graph, h: Graph, p: seq<int>, k: int, f: real)
    requires Square(cap) && Square(g) && |g| == |cap| && Distinct(p) && 0 < k < |p|
    requires forall i :: 0 <= i < |p| ==> Node(g, p[i])
    requires Midway(cap, g, h, p, k, f)
    ensures Midway(cap, g, Push(h, p[k - 1], p[k], f), p, k - 1, f)
    ensures h[p[k - 1]][p[k]] == g[p[k - 1]][p[k]]
  {
    forall x | Node(cap, x)
      ensures NetTaken(cap, Push(h, p[k - 1], p[k], f), x, |cap|) == NetTaken(cap, g, x, |cap|)
           + (if x == p[k - 1] then f else 0.0) - (if x == p[|p| - 1] then f else 0.0)
    {
      NetTakenPush(cap, h, p[k - 1], p[k], f, x);
    }
  }

  lemma ChainStep(g: Graph, par: seq<int>, p: seq<int>, s: int, t: int, k: int)
    requires Square(g) && |par| == |g| && IsPath(g, p, s, t) && Distinct(p) && ParentChain(g, par, p)
    requires 0 <= k < |p| && p[k] != s
    ensures k > 0 && Node(g, p[k]) && par[p[k]] == p[k - 1] && Edge(g, p[k - 1], p[k]) && p[k - 1] != p[k]
  {
    assert k > 0;
    assert Edge(g, p[k - 1], p[k]);
  }

  /** `f` is the least residual on the edges of `p` from position k on. */
  ghost predicate LeastFrom(g: Graph, p: seq<int>, k: int, f: real)
    requires Square(g)
  {
    && (forall i, j :: k <= i && 0 <= i && j == i + 1 < |p| && Node(g, p[i]) && Node(g, p[j]) ==> f <= g[p[i]][p[j]])
    && (exists i, j :: k <= i && 0 <= i && j == i + 1 < |p| && Node(g, p[i]) && Node(g, p[j]) && f == g[p[i]][p[j]])
  }

  /** The least residual along the path encoded by `parent`. */
  method PathFlow(residual: array2<real>, source: int, sink: int, parent: array<int>, ghost p: seq<int>)
    returns (f: real)
    requires residual.Length1 == residual.Length0 == parent.Length
    requires source != sink && IsPath(Grid(residual), p, source, sink) && Distinct(p)
    requires ParentChain(Grid(residual), parent[..], p)
    ensures Bottleneck(Grid(residual), p, f)
  {
    ghost var g := Grid(residual);
    ghost var k := |p| - 1;
    var v := sink;
    ChainStep(g, parent[..], p, source, sink, k);
    f := residual[parent[v], v];
    while v != source
      invariant 0 <= k < |p| && v == p[k]
      invariant f > 0.0
      invariant if k == |p| - 1 then f == g[p[k - 1]][p[k]] else LeastFrom(g, p, k, f)
      decreases k
    {
      ChainStep(g, parent[..], p, source, sink, k);
      var u := parent[v];
      f := if residual[u, v] < f then residual[u, v] else f;
      v, k := u, k - 1;
    }
  }

  /** One residual update of the augmentation loop. */
  method PushEdge(residual: array2<real>, u: int, v: int, f: real)
    requires residual.Length1 == residual.Length0
    requires 0 <= u < residual.Length0 && 0 <= v < residual.Length0 && u != v
    modifies residual
    ensures Grid(residual) == Push(old(Grid(residual)), u, v, f)
  {
    residual[u, v] := residual[u, v] - f;
    residual[v, u] := residual[v, u] + f;
    ghost var h := Push(old(Grid(residual)), u, v, f);
    assert forall x :: 0 <= x < |h| ==> Grid(residual)[x] == h[x];
  }

  /** Push `f` along the path encoded by `parent`, walking it from the sink. */
  method Augment(residual: array2<real>, source: int, sink: int, parent: array<int>, f: real,
                 ghost p: seq<int>, ghost cap: Graph)
    requires residual.Length1 == residual.Length0 == parent.Length == |cap| && Square(cap)
    requires source != sink && IsPath(Grid(residual), p, source, sink) && Distinct(p)
    requires ParentChain(Grid(residual), parent[..], p)
    modifies residual
    ensures Augmented(old(Grid(residual)), Grid(residual), p, 0, f)
    ensures Shifted(cap, old(Grid(residual)), Grid(residual), source, sink, f)
  {
    ghost var g := Grid(residual);
    ghost var k := |p| - 1;
    var v := sink;
    while v != source
      invariant 0 <= k < |p| && v == p[k]
      invariant Midway(cap, g, Grid(residual), p, k, f)
      decreases k
    {
      ChainStep(g, parent[..], p, source, sink, k);
      MidwayStep(cap, g, Grid(residual), p, k, f);
      var u := parent[v];
      PushEdge(residual, u, v, f);
      v, k := u, k - 1;
    }
  }

  /** Every row has an entry for every node; there may be more columns, which the solver never reads. */
  predicate Wide(capacity: Graph) {
    forall u :: 0 <= u < |capacity| ==> |capacity| <= |capacity[u]|
  }

  /** The columns that stand for nodes. */
  function Used(capacity: Graph): (g: Graph)
    requires Wide(capacity)
    ensures Square(g) && |g| == |capacity|
  {
    seq(|capacity|, u requires 0 <= u < |capacity| => capacity[u][..|capacity|])
  }

  lemma UsedOfSquare(capacity: Graph)
    requires Square(capacity)
    ensures Used(capacity) == capacity
  {
    forall u | 0 <= u < |capacity|
      ensures Used(capacity)[u] == capacity[u]
    {
      assert capacity[u][..|capacity|] == capacity[u];
    }
  }

  method CopyMatrix(capacity: Graph) returns (residual: array2<real>)
    requires Wide(capacity)
    ensures fresh(residual) && residual.Length0 == residual.Length1 == |capacity|
    ensures Grid(residual) == Used(capacity)
  {
    var V := |capacity|;
    residual := new real[V, V];
    for i := 0 to V
      invariant forall u, v :: 0 <= u < i && 0 <= v < V ==> residual[u, v] == capacity[u][v]
    {
      for j := 0 to V
        invariant forall u, v :: 0 <= u < i && 0 <= v < V ==> residual[u, v] == capacity[u][v]
        invariant forall v :: 0 <= v < j ==> residual[i, v] == capacity[i][v]
      {
        residual[i, j] := capacity[i][j];
      }
    }
    assert forall u :: 0 <= u < V ==> Grid(residual)[u] == Used(capacity)[u];
  }

  /** `flow` carries `value` from s to t and no feasible flow carries more; `cut` is a cut of exactly that capacity. */
  ghost predicate Optimal(cap: Graph, s: int, t: int, value: real, flow: Amounts, cut: set<int>)
    requires Square(cap)
  {
    && IsFlow(cap, s, t, flow) && Value(flow, |cap|, s) == value
    && (forall phi :: IsFlow(cap, s, t, phi) ==> Value(phi, |cap|, s) <= value)
    && IsCut(cap, s, t, cut) && CutCapacity(cap, cut) == value
    && (forall S :: IsCut(cap, s, t, S) ==> value <= CutCapacity(cap, S))
  }

  /** A negative capacity admits no feasible flow at all. */
  lemma OptimalNeedsNonNegative(cap: Graph, s: int, t: int, value: real, flow: Amounts, cut: set<int>)
    requires Square(cap) && Optimal(cap, s, t, value, flow, cut)
    ensures NonNegative(cap)
  {
    forall u, v | 0 <= u < |cap| && 0 <= v < |cap|
      ensures cap[u][v] >= 0.0
    {
      assert Node(cap, u) && Node(cap, v);
      assert 0.0 <= flow(u, v) <= cap[u][v];
    }
  }

  lemma CutProvesOptimal(cap: Graph, res: Graph, s: int, t: int, value: real, cut: set<int>)
    requires NonNegative(cap) && Records(cap, res, s, t, value) && Node(cap, s) && IsCut(res, s, t, cut)
    requires forall u, v :: u in cut && Edge(res, u, v) ==> v in cut
    ensures Optimal(cap, s, t, value, Taken(cap, res), cut)
  {
    assert forall v :: v in cut ==> Node(res, v);
    RecordedFlow(cap, res, s, t, value);
    SaturatedCut(cap, res, s, t, value, cut);
    forall phi | IsFlow(cap, s, t, phi)
      ensures Value(phi, |cap|, s) <= value
    {
      WeakDuality(cap, s, t, phi, cut);
    }
    forall S | IsCut(cap, s, t, S)
      ensures value <= CutCapacity(cap, S)
    {
      WeakDuality(cap, s, t, Taken(cap, res), S);
    }
  }

  lemma RecordsNext(cap: Graph, g: Graph, h: Graph, p: seq<int>, s: int, t: int, f: real, value: real)
    requires Records(cap, g, s, t, value) && s != t
    requires Augmented(g, h, p, 0, f) && Bottleneck(g, p, f) && Shifted(cap, g, h, s, t, f)
    ensures Records(cap, h, s, t, value + f)
  {
    BalancedAugmented(cap, g, h, p, f);
    RecordsAugmented(cap, g, h, s, t, f, value);
  }

  /** The bound on the number of augmentations. */
  function RoundLimit(n: int): int {
    (n - 1) * (n * n)
  }

  /**
   The invariant of the augmentation loop: `rounds` augmentations led to residuals `g`, and
   the last search answered `found`.
   */
  ghost predicate Solving(cap: Graph, g: Graph, s: int, t: int, par: seq<int>, value: real, rounds: int,
                          found: bool, path: seq<int>, reached: set<int>)
    requires Square(cap)
  {
    && Square(g) && |g| == |cap| == |par|
    && (NonNegative(cap) ==> Records(cap, g, s, t, value))
    && Answer(g, s, t, par, found, path, reached)
    && rounds + (if found then Budget(g, s, t, path) else 0) <= RoundLimit(|cap|)
    && (found ==> rounds < RoundLimit(|cap|))
  }

  lemma FirstRound(cap: Graph, s: int, t: int, par: seq<int>, found: bool, path: seq<int>, reached: set<int>)
    requires Square(cap) && |par| == |cap| && s != t && |cap| > 0
    requires Answer(cap, s, t, par, found, path, reached)
    ensures Solving(cap, cap, s, t, par, 0.0, 0, found, path, reached)
  {
    if NonNegative(cap) {
      RecordsStart(cap, s, t);
    }
    if found {
      BudgetBounds(cap, s, t, path);
    }
  }

  lemma NextRound(cap: Graph, g: Graph, h: Graph, s: int, t: int, par: seq<int>, par': seq<int>, value: real,
                  rounds: int, p: seq<int>, f: real, prior: set<int>, found: bool, path: seq<int>, reached: set<int>)
    requires Square(cap) && s != t && Solving(cap, g, s, t, par, value, rounds, true, p, prior)
    requires Augmented(g, h, p, 0, f) && Bottleneck(g, p, f) && Shifted(cap, g, h, s, t, f) && |par'| == |cap|
    requires Answer(h, s, t, par', found, path, reached)
    ensures Solving(cap, h, s, t, par', value + f, rounds + 1, found, path, reached)
  {
    if NonNegative(cap) {
      RecordsNext(cap, g, h, p, s, t, f, value);
    }
    if found {
      BudgetShrinks(g, h, p, s, t, f, path);
      BudgetBounds(h, s, t, path);
    }
  }

  /** One augmentation: find the bottleneck of the current path and push it. */
  method AugmentOnce(residual: array2<real>, source: int, sink: int, parent: array<int>, ghost p: seq<int>,
                     ghost cap: Graph)
    returns (f: real)
    requires residual.Length1 == residual.Length0 == parent.Length == |cap| && Square(cap)
    requires source != sink && IsPath(Grid(residual), p, source, sink) && Distinct(p)
    requires ParentChain(Grid(residual), parent[..], p)
    modifies residual
    ensures Bottleneck(old(Grid(residual)), p, f)
    ensures Augmented(old(Grid(residual)), Grid(residual), p, 0, f)
    ensures Shifted(cap, old(Grid(residual)), Grid(residual), source, sink, f)
  {
    f := PathFlow(residual, source, sink, parent, p);
    Augment(residual, source, sink, parent, f, p, cap);
  }

  /**
   Maximum flow from `source` to `sink`. The ghost results witness the answer: `flow` attains
   it, `cut` (what the last, failing search reached) proves it cannot be exceeded, and
   `rounds` counts the augmentations.
   */
  method FordFulkerson(capacity: Graph, source: int, sink: int)
    returns (maxFlow: real, ghost flow: Amounts, ghost cut: set<int>, ghost rounds: nat)
    requires 0 <= source < |capacity| && 0 <= sink < |capacity| && source != sink ==> Wide(capacity)
    ensures !(0 <= source < |capacity| && 0 <= sink < |capacity| && source != sink) ==> maxFlow == 0.0
    ensures 0 <= source < |capacity| && 0 <= sink < |capacity| && source != sink ==>
      rounds <= (|capacity| - 1) * (|capacity| * |capacity|)
    ensures 0 <= source < |capacity| && 0 <= sink < |capacity| && source != sink ==>
      (Optimal(Used(capacity), source, sink, maxFlow, flow, cut) <==> NonNegative(Used(capacity)))
  {
    maxFlow, flow, cut, rounds := 0.0, (_, _) => 0.0, {}, 0;
    var V := |capacity|;
    if V == 0 || source < 0 || source >= V || sink < 0 || sink >= V || source == sink {
      return;
    }
    ghost var cap := Used(capacity);
    var residual := CopyMatrix(capacity);
    var parent := new int[V];
    var found, path, reached := Bfs(residual, source, sink, parent);
    FirstRound(cap, source, sink, parent[..], found, path, reached);
    while found
      invariant residual.Length0 == residual.Length1 == parent.Length == V
      invariant Solving(cap, Grid(residual), source, sink, parent[..], maxFlow, rounds, found, path, reached)
      decreases RoundLimit(V) - rounds
    {
      ghost var g, p, par, prior := Grid(residual), path, parent[..], reached;
      var pathFlow := AugmentOnce(residual, source, sink, parent, path, cap);
      ghost var h := Grid(residual);
      found, path, reached := Bfs(residual, source, sink, parent);
      NextRound(cap, g, h, source, sink, par, parent[..], maxFlow, rounds, p, pathFlow, prior,
                found, path, reached);
      maxFlow := maxFlow + pathFlow;
      rounds := rounds + 1;
    }
    if NonNegative(cap) {
      CutProvesOptimal(cap, Grid(residual), source, sink, maxFlow, reached);
      flow, cut := Taken(cap, Grid(residual)), reached;
    } else if Optimal(cap, source, sink, maxFlow, flow, cut) {
      OptimalNeedsNonNegative(cap, source, sink, maxFlow, flow, cut);
    }
  }
}

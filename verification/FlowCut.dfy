/**
 Flows and cuts of a capacity matrix: what a feasible flow is, what a cut costs, and the
 max-flow/min-cut argument for the residual matrix that the solver maintains.
 */
module FlowCut {
  import opened Matrices
  import opened FlowGraph

  /** An assignment of an amount to every edge. */
  type Amounts = (int, int) -> real

  // ---------- finite sums ----------

  ghost function RowSum(a: Amounts, u: int, m: nat): real {
    if m == 0 then 0.0 else RowSum(a, u, m - 1) + a(u, m - 1)
  }

  ghost function ColumnSum(a: Amounts, n: nat, v: int): real {
    if n == 0 then 0.0 else ColumnSum(a, n - 1, v) + a(n - 1, v)
  }

  ghost function BlockSum(a: Amounts, n: nat, m: nat): real {
    if n == 0 then 0.0 else BlockSum(a, n - 1, m) + RowSum(a, n - 1, m)
  }

  lemma {:induction false} BlockAddColumn(a: Amounts, n: nat, m: nat)
    ensures BlockSum(a, n, m + 1) == BlockSum(a, n, m) + ColumnSum(a, n, m)
  {
    if n > 0 {
      BlockAddColumn(a, n - 1, m);
    }
  }

  lemma {:induction false} SkewRowColumn(a: Amounts, k: int, n: nat)
    requires forall u, v :: a(u, v) == -a(v, u)
    ensures RowSum(a, k, n) == -ColumnSum(a, n, k)
  {
    if n > 0 {
      SkewRowColumn(a, k, n - 1);
    }
  }

  /** Internal exchanges cancel out. */
  lemma {:induction false} SkewBlockIsZero(a: Amounts, n: nat)
    requires forall u, v :: a(u, v) == -a(v, u)
    ensures BlockSum(a, n, n) == 0.0
  {
    if n > 0 {
      SkewBlockIsZero(a, n - 1);
      BlockAddColumn(a, n - 1, n - 1);
      SkewRowColumn(a, n - 1, n - 1);
      assert a(n - 1, n - 1) == 0.0;
    }
  }

  lemma {:induction false} RowMonotone(a: Amounts, b: Amounts, u: int, m: nat, lim: nat)
    requires m <= lim && forall v :: 0 <= v < lim ==> a(u, v) <= b(u, v)
    ensures RowSum(a, u, m) <= RowSum(b, u, m)
  {
    if m > 0 {
      RowMonotone(a, b, u, m - 1, lim);
    }
  }

  lemma {:induction false} BlockMonotone(a: Amounts, b: Amounts, n: nat, m: nat, lim: nat)
    requires n <= lim && m <= lim
    requires forall u, v :: 0 <= u < lim && 0 <= v < lim ==> a(u, v) <= b(u, v)
    ensures BlockSum(a, n, m) <= BlockSum(b, n, m)
  {
    if n > 0 {
      BlockMonotone(a, b, n - 1, m, lim);
      RowMonotone(a, b, n - 1, m, lim);
    }
  }

  // ---------- flows ----------

  /** What leaves u minus what enters u, over the first m nodes. */
  ghost function Net(phi: Amounts, u: int, m: nat): real {
    if m == 0 then 0.0 else Net(phi, u, m - 1) + phi(u, m - 1) - phi(m - 1, u)
  }

  ghost predicate Conserves(phi: Amounts, n: nat, s: int, t: int) {
    forall u :: 0 <= u < n && u != s && u != t ==> Net(phi, u, n) == 0.0
  }

  /** A feasible flow from s to t: within capacity on every edge, conserved at every other node. */
  ghost predicate IsFlow(cap: Graph, s: int, t: int, phi: Amounts)
    requires Square(cap)
  {
    && (forall u, v :: Node(cap, u) && Node(cap, v) ==> 0.0 <= phi(u, v) <= cap[u][v])
    && Conserves(phi, |cap|, s, t)
  }

  ghost function Value(phi: Amounts, n: nat, s: int): real {
    Net(phi, s, n)
  }

  // ---------- cuts ----------

  ghost predicate IsCut(cap: Graph, s: int, t: int, S: set<int>) {
    s in S && t !in S && forall v :: v in S ==> Node(cap, v)
  }

  /** The part of `a` that crosses from S to its complement. */
  ghost function Crossing(a: Amounts, S: set<int>): Amounts {
    (u: int, v: int) => if u in S && v !in S then a(u, v) else 0.0
  }

  ghost function Inside(a: Amounts, S: set<int>): Amounts {
    (u: int, v: int) => if u in S && v in S then a(u, v) else 0.0
  }

  ghost function NetOf(phi: Amounts): Amounts {
    (u: int, v: int) => phi(u, v) - phi(v, u)
  }

  ghost function Capacities(cap: Graph): Amounts
    requires Square(cap)
  {
    (u: int, v: int) => if 0 <= u < |cap| && 0 <= v < |cap| && |cap[u]| == |cap| then cap[u][v] else 0.0
  }

  ghost function CutCapacity(cap: Graph, S: set<int>): real
    requires Square(cap)
  {
    BlockSum(Crossing(Capacities(cap), S), |cap|, |cap|)
  }

  lemma {:induction false} RowSplit(phi: Amounts, S: set<int>, u: int, m: nat)
    ensures RowSum(Inside(NetOf(phi), S), u, m) + RowSum(Crossing(NetOf(phi), S), u, m)
         == if u in S then Net(phi, u, m) else 0.0
  {
    if m > 0 {
      RowSplit(phi, S, u, m - 1);
    }
  }

  lemma {:induction false} BlockSplit(phi: Amounts, S: set<int>, s: int, t: int, n: nat, k: nat)
    requires k <= n && s in S && t !in S && Conserves(phi, n, s, t)
    ensures BlockSum(Inside(NetOf(phi), S), k, n) + BlockSum(Crossing(NetOf(phi), S), k, n)
         == if 0 <= s < k then Net(phi, s, n) else 0.0
  {
    if k > 0 {
      BlockSplit(phi, S, s, t, n, k - 1);
      RowSplit(phi, S, k - 1, n);
    }
  }

  /** The value of a conserved assignment is its net amount across any cut. */
  lemma ValueAcrossCut(phi: Amounts, S: set<int>, s: int, t: int, n: nat)
    requires 0 <= s < n && s in S && t !in S && Conserves(phi, n, s, t)
    ensures Value(phi, n, s) == BlockSum(Crossing(NetOf(phi), S), n, n)
  {
    BlockSplit(phi, S, s, t, n, n);
    SkewBlockIsZero(Inside(NetOf(phi), S), n);
  }

  /** Weak duality: no feasible flow exceeds the capacity of any cut. */
  lemma WeakDuality(cap: Graph, s: int, t: int, phi: Amounts, S: set<int>)
    requires Square(cap) && Node(cap, s) && IsFlow(cap, s, t, phi) && IsCut(cap, s, t, S)
    ensures Value(phi, |cap|, s) <= CutCapacity(cap, S)
  {
    ValueAcrossCut(phi, S, s, t, |cap|);
    BlockMonotone(Crossing(NetOf(phi), S), Crossing(Capacities(cap), S), |cap|, |cap|, |cap|);
  }

  // ---------- the flow recorded by a residual matrix ----------

  /** Opposite residuals add up to the opposite capacities they started from. */
  ghost predicate Balanced(cap: Graph, res: Graph) {
    && |res| == |cap| && Square(cap) && Square(res)
    && forall u, v :: 0 <= u < |cap| && 0 <= v < |cap| ==> res[u][v] + res[v][u] == cap[u][v] + cap[v][u]
  }

  /** The flow a residual matrix stands for: what was taken from each edge. */
  ghost function Taken(cap: Graph, res: Graph): Amounts {
    (u: int, v: int) =>
      if 0 <= u < |cap| && u < |res| && 0 <= v < |cap[u]| && v < |res[u]| && cap[u][v] > res[u][v]
      then cap[u][v] - res[u][v] else 0.0
  }

  /** Net amount taken from row u. */
  ghost function NetTaken(cap: Graph, res: Graph, u: int, m: nat): real
    requires Square(cap) && Square(res) && |res| == |cap| && Node(cap, u) && m <= |cap|
  {
    if m == 0 then 0.0 else NetTaken(cap, res, u, m - 1) + cap[u][m - 1] - res[u][m - 1]
  }

  lemma {:induction false} NetOfTaken(cap: Graph, res: Graph, u: int, m: nat)
    requires Balanced(cap, res) && Node(cap, u) && m <= |cap|
    ensures Net(Taken(cap, res), u, m) == NetTaken(cap, res, u, m)
  {
    if m > 0 {
      NetOfTaken(cap, res, u, m - 1);
    }
  }

  lemma {:induction false} NetTakenUpdate(cap: Graph, res: Graph, res': Graph, u: int, v: int, m: nat)
    requires Square(cap) && Square(res) && Square(res') && |res| == |res'| == |cap|
    requires Node(cap, u) && Node(cap, v) && m <= |cap|
    requires forall w :: Node(cap, w) && w != v ==> res'[u][w] == res[u][w]
    ensures NetTaken(cap, res', u, m) == NetTaken(cap, res, u, m) + if v < m then res[u][v] - res'[u][v] else 0.0
  {
    if m > 0 {
      NetTakenUpdate(cap, res, res', u, v, m - 1);
    }
  }

  lemma {:induction false} NetTakenSame(cap: Graph, res: Graph, res': Graph, u: int, m: nat)
    requires Square(cap) && Square(res) && Square(res') && |res| == |res'| == |cap|
    requires Node(cap, u) && m <= |cap| && res'[u] == res[u]
    ensures NetTaken(cap, res', u, m) == NetTaken(cap, res, u, m)
  {
    if m > 0 {
      NetTakenSame(cap, res, res', u, m - 1);
    }
  }

  /** A push moves `f` units of net flow from its head to its tail. */
  lemma NetTakenPush(cap: Graph, res: Graph, u: int, v: int, f: real, x: int)
    requires Square(cap) && Square(res) && |res| == |cap| && Node(cap, u) && Node(cap, v) && u != v && Node(cap, x)
    ensures NetTaken(cap, Push(res, u, v, f), x, |cap|)
         == NetTaken(cap, res, x, |cap|) + (if x == u then f else 0.0) - (if x == v then f else 0.0)
  {
    var res' := Push(res, u, v, f);
    if x == u {
      NetTakenUpdate(cap, res, res', u, v, |cap|);
    } else if x == v {
      NetTakenUpdate(cap, res, res', v, u, |cap|);
    } else {
      NetTakenSame(cap, res, res', x, |cap|);
    }
  }

  /** The solver's invariant: `res` records a feasible flow of value `value`. */
  ghost predicate Records(cap: Graph, res: Graph, s: int, t: int, value: real) {
    && Balanced(cap, res) && NonNegative(res)
    && (forall u :: Node(cap, u) && u != s && u != t ==> NetTaken(cap, res, u, |cap|) == 0.0)
    && (Node(cap, s) ==> NetTaken(cap, res, s, |cap|) == value)
  }

  lemma {:induction false} NetTakenStart(cap: Graph, u: int, m: nat)
    requires Square(cap) && Node(cap, u) && m <= |cap|
    ensures NetTaken(cap, cap, u, m) == 0.0
  {
    if m > 0 {
      NetTakenStart(cap, u, m - 1);
    }
  }

  lemma RecordsStart(cap: Graph, s: int, t: int)
    requires NonNegative(cap)
    ensures Records(cap, cap, s, t, 0.0)
  {
    forall u | Node(cap, u)
      ensures NetTaken(cap, cap, u, |cap|) == 0.0
    {
      NetTakenStart(cap, u, |cap|);
    }
  }

  lemma CellAugmented(g: Graph, h: Graph, p: seq<int>, f: real, u: int, v: int)
    requires NonNegative(g) && Augmented(g, h, p, 0, f) && Bottleneck(g, p, f) && Node(g, u) && Node(g, v)
    ensures h[u][v] + h[v][u] == g[u][v] + g[v][u] && h[u][v] >= 0.0
  {
    assert OnPath(p, 0, u, v) ==> f <= g[u][v];
  }

  lemma BalancedAugmented(cap: Graph, g: Graph, h: Graph, p: seq<int>, f: real)
    requires Balanced(cap, g) && NonNegative(g) && Augmented(g, h, p, 0, f) && Bottleneck(g, p, f)
    ensures Balanced(cap, h) && NonNegative(h)
  {
    forall u, v | 0 <= u < |cap| && 0 <= v < |cap|
      ensures h[u][v] + h[v][u] == cap[u][v] + cap[v][u]
    {
      CellAugmented(g, h, p, f, u, v);
    }
    forall u, v | 0 <= u < |h| && 0 <= v < |h|
      ensures h[u][v] >= 0.0
    {
      CellAugmented(g, h, p, f, u, v);
    }
  }

  /** `h` has `f` more units of net flow out of s, and into t, than `g`. */
  ghost predicate Shifted(cap: Graph, g: Graph, h: Graph, s: int, t: int, f: real)
    requires Square(cap) && Square(g) && Square(h) && |g| == |h| == |cap|
  {
    forall x :: Node(cap, x) ==>
      NetTaken(cap, h, x, |cap|)
      == NetTaken(cap, g, x, |cap|) + (if x == s then f else 0.0) - (if x == t then f else 0.0)
  }

  /** Augmenting along a path raises the recorded value by the bottleneck. */
  lemma RecordsAugmented(cap: Graph, g: Graph, h: Graph, s: int, t: int, f: real, value: real)
    requires Records(cap, g, s, t, value) && Balanced(cap, h) && NonNegative(h) && s != t
    requires Shifted(cap, g, h, s, t, f)
    ensures Records(cap, h, s, t, value + f)
  {
  }

  lemma RecordedFlow(cap: Graph, res: Graph, s: int, t: int, value: real)
    requires NonNegative(cap) && Records(cap, res, s, t, value) && Node(cap, s)
    ensures IsFlow(cap, s, t, Taken(cap, res)) && Value(Taken(cap, res), |cap|, s) == value
  {
    var phi := Taken(cap, res);
    forall u, v | Node(cap, u) && Node(cap, v)
      ensures 0.0 <= phi(u, v) <= cap[u][v]
    {
      assert Node(res, u) && Node(res, v) && res[u][v] >= 0.0 && cap[u][v] >= 0.0;
    }
    forall u | Node(cap, u)
      ensures Net(Taken(cap, res), u, |cap|) == NetTaken(cap, res, u, |cap|)
    {
      NetOfTaken(cap, res, u, |cap|);
    }
  }

  /** When no residual edge leaves S, the recorded value is the capacity of the cut S. */
  lemma SaturatedCut(cap: Graph, res: Graph, s: int, t: int, value: real, S: set<int>)
    requires NonNegative(cap) && Records(cap, res, s, t, value) && Node(cap, s) && IsCut(cap, s, t, S)
    requires forall u, v :: u in S && Edge(res, u, v) ==> v in S
    ensures value == CutCapacity(cap, S)
  {
    RecordedFlow(cap, res, s, t, value);
    ValueAcrossCut(Taken(cap, res), S, s, t, |cap|);
    var a, b := Crossing(NetOf(Taken(cap, res)), S), Crossing(Capacities(cap), S);
    forall u, v | 0 <= u < |cap| && 0 <= v < |cap|
      ensures a(u, v) == b(u, v)
    {
      if u in S && v !in S {
        assert !Edge(res, u, v) && Node(cap, u) && Node(cap, v);
        assert res[u][v] == 0.0 && res[u][v] + res[v][u] == cap[u][v] + cap[v][u];
      }
    }
    BlockMonotone(a, b, |cap|, |cap|, |cap|);
    BlockMonotone(b, a, |cap|, |cap|, |cap|);
  }
}

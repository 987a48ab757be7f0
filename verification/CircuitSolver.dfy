/**
 The Hamiltonian circuit enumerator: repeated Latin multiplication, then closing the
 longest simple paths into circuits. The theorems compare its output with the plain
 definition of a Hamiltonian circuit.
 */
module CircuitSolver {
  import opened Matrices
  import opened PathKeys
  import opened Rotations
  import opened SymbolicMatrices

  // ---------- what is being enumerated ----------

  ghost predicate SimplePath(adj: Graph, p: Path, i: int, j: int, k: nat)
    requires Square(adj)
  {
    && |p| == k + 1 && p[0] == i && p[k] == j && Distinct(p)
    && (forall a :: 0 <= a < |p| ==> Node(adj, p[a]))
    && (forall a, b :: 0 <= a && b == a + 1 < |p| ==> Edge(adj, p[a], p[b]))
  }

  /** A closed walk from s that visits every node of the graph exactly once before returning. */
  ghost predicate HamiltonianCircuit(adj: Graph, s: int, c: Path)
    requires Square(adj)
  {
    && |c| == |adj| + 1 && |adj| > 0 && c[0] == s && c[|adj|] == s
    && Distinct(c[..|adj|])
    && (forall a :: 0 <= a < |c| ==> Node(adj, c[a]))
    && (forall a, b :: 0 <= a && b == a + 1 < |c| ==> Edge(adj, c[a], c[b]))
  }

  // ---------- powers of the one-edge matrix ----------

  function Power(adj: Graph, k: nat): (m: SymMatrix)
    requires Square(adj)
    ensures |m| == |adj| && SquareSym(m)
  {
    if k <= 1 then Base(adj) else Product(Power(adj, k - 1), Base(adj))
  }

  /** The cell lists exactly the simple paths from i to j with k edges, each once. */
  ghost predicate CellHolds(adj: Graph, cell: Paths, i: int, j: int, k: nat)
    requires Square(adj)
  {
    NoDuplicates(cell) && forall p :: p in cell <==> SimplePath(adj, p, i, j, k)
  }

  ghost predicate HoldsSimplePaths(adj: Graph, m: SymMatrix, k: nat)
    requires Square(adj) && SquareSym(m) && |m| == |adj|
  {
    forall i, j :: 0 <= i < |adj| && 0 <= j < |adj| ==> CellHolds(adj, m[i][j], i, j, k)
  }

  lemma BaseHolds(adj: Graph)
    requires Square(adj)
    ensures HoldsSimplePaths(adj, Base(adj), 1)
  {
    forall i, j | 0 <= i < |adj| && 0 <= j < |adj|
      ensures CellHolds(adj, Base(adj)[i][j], i, j, 1)
    {
      forall p
        ensures p in BaseCell(adj, i, j) <==> SimplePath(adj, p, i, j, 1)
      {
        if SimplePath(adj, p, i, j, 1) {
          assert p == [i, j] && p[0] != p[1] && Edge(adj, p[0], p[1]);
        }
      }
    }
  }

  lemma JoinedIsSimple(adj: Graph, l: Path, r: Path, i: int, m: int, j: int, k: nat)
    requires Square(adj) && SimplePath(adj, l, i, m, k) && SimplePath(adj, r, m, j, 1) && Joins(l, r)
    ensures SimplePath(adj, l + r[1..], i, j, k + 1)
  {
    assert Edge(adj, r[0], r[1]);
  }

  lemma SimpleSplits(adj: Graph, p: Path, i: int, j: int, k: nat)
    requires Square(adj) && k >= 1 && SimplePath(adj, p, i, j, k + 1)
    ensures SimplePath(adj, p[..k + 1], i, p[k], k) && SimplePath(adj, p[k..], p[k], j, 1)
    ensures Joins(p[..k + 1], p[k..]) && p == p[..k + 1] + p[k..][1..]
  {
  }

  lemma ProductHolds(adj: Graph, m: SymMatrix, k: nat)
    requires Square(adj) && SquareSym(m) && |m| == |adj| && k >= 1 && HoldsSimplePaths(adj, m, k)
    ensures HoldsSimplePaths(adj, Product(m, Base(adj)), k + 1)
  {
    BaseHolds(adj);
    var base := Base(adj);
    forall i, j | 0 <= i < |adj| && 0 <= j < |adj|
      ensures CellHolds(adj, Product(m, base)[i][j], i, j, k + 1)
    {
      forall p
        ensures p in ProductCell(m, base, i, j) <==> SimplePath(adj, p, i, j, k + 1)
      {
        ProductCellHolds(adj, m, k, i, j, p);
      }
      InProductCell(m, base, i, j, []);
    }
  }

  lemma ProductCellHolds(adj: Graph, m: SymMatrix, k: nat, i: int, j: int, p: Path)
    requires Square(adj) && SquareSym(m) && |m| == |adj| && k >= 1 && Node(adj, i) && Node(adj, j)
    requires HoldsSimplePaths(adj, m, k) && HoldsSimplePaths(adj, Base(adj), 1)
    ensures p in ProductCell(m, Base(adj), i, j) <==> SimplePath(adj, p, i, j, k + 1)
  {
    var base := Base(adj);
    InProductCell(m, base, i, j, p);
    assert forall x :: 0 <= x < |m| ==> CellHolds(adj, m[i][x], i, x, k) && CellHolds(adj, base[x][j], x, j, 1);
    if p in ProductCell(m, base, i, j) {
      var x :| 0 <= x < |m| && Composes(m, base, i, j, x, p);
      var l, r :| l in m[i][x] && r in base[x][j] && Joins(l, r) && p == l + r[1..];
      JoinedIsSimple(adj, l, r, i, x, j, k);
    }
    if SimplePath(adj, p, i, j, k + 1) {
      SimpleSplits(adj, p, i, j, k);
      assert Node(adj, p[k]);
      assert p[..k + 1] in m[i][p[k]] && p[k..] in base[p[k]][j];
      assert Composes(m, base, i, j, p[k], p);
    }
  }

  lemma {:induction false} PowerHolds(adj: Graph, k: nat)
    requires Square(adj) && k >= 1
    ensures HoldsSimplePaths(adj, Power(adj, k), k)
  {
    if k == 1 {
      BaseHolds(adj);
    } else {
      PowerHolds(adj, k - 1);
      NextHolds(adj, Power(adj, k - 1), k, Power(adj, k));
    }
  }

  lemma NextHolds(adj: Graph, m: SymMatrix, k: nat, next: SymMatrix)
    requires Square(adj) && SquareSym(m) && |m| == |adj| && k >= 2 && HoldsSimplePaths(adj, m, k - 1)
    requires next == Product(m, Base(adj))
    ensures HoldsSimplePaths(adj, next, k)
  {
    ProductHolds(adj, m, k - 1);
  }

  // ---------- closing paths into circuits ----------

  /** `acc`, then the first n paths of a cell that are long enough, closed at s. */
  function ClosedPaths(acc: Paths, cell: Paths, n: nat, size: nat, s: int): Paths
    requires n <= |cell|
  {
    if n == 0 then acc
    else
      var before := ClosedPaths(acc, cell, n - 1, size, s);
      if |cell[n - 1]| == size then before + [cell[n - 1] + [s]] else before
  }

  /** `acc`, then the candidate circuits from s whose last inner node is below n. */
  function CandidatesTo(acc: Paths, adj: Graph, m: SymMatrix, s: int, n: nat): Paths
    requires Square(adj) && SquareSym(m) && |m| == |adj| && Node(adj, s) && n <= |adj|
  {
    if n == 0 then acc
    else
      var before := CandidatesTo(acc, adj, m, s, n - 1);
      if adj[n - 1][s] <= 0.0 then before else ClosedPaths(before, m[s][n - 1], |m[s][n - 1]|, |adj|, s)
  }

  function Candidates(adj: Graph, m: SymMatrix, s: int): Paths
    requires Square(adj) && SquareSym(m) && |m| == |adj| && Node(adj, s)
  {
    CandidatesTo([], adj, m, s, |adj|)
  }

  /** Candidates of the first n starts, restricted to one start unless it is -1. */
  function AllCandidates(adj: Graph, m: SymMatrix, start: int, n: nat): Paths
    requires Square(adj) && SquareSym(m) && |m| == |adj| && n <= |adj|
  {
    if n == 0 then []
    else
      var before := AllCandidates(adj, m, start, n - 1);
      if start >= 0 && n - 1 != start then before else CandidatesTo(before, adj, m, n - 1, |adj|)
  }

  lemma {:induction false} ClosedPathsAppend(acc: Paths, cell: Paths, n: nat, size: nat, s: int)
    requires n <= |cell|
    ensures ClosedPaths(acc, cell, n, size, s) == acc + ClosedPaths([], cell, n, size, s)
  {
    if n > 0 {
      ClosedPathsAppend(acc, cell, n - 1, size, s);
    }
  }

  lemma {:induction false} CandidatesAppend(acc: Paths, adj: Graph, m: SymMatrix, s: int, n: nat)
    requires Square(adj) && SquareSym(m) && |m| == |adj| && Node(adj, s) && n <= |adj|
    ensures CandidatesTo(acc, adj, m, s, n) == acc + CandidatesTo([], adj, m, s, n)
  {
    if n > 0 {
      CandidatesAppend(acc, adj, m, s, n - 1);
      var cell := m[s][n - 1];
      ClosedPathsAppend(CandidatesTo(acc, adj, m, s, n - 1), cell, |cell|, |adj|, s);
      ClosedPathsAppend(CandidatesTo([], adj, m, s, n - 1), cell, |cell|, |adj|, s);
    }
  }

  /** The list of circuits reported for a valid start. */
  function Circuits(adj: Graph, start: int): Paths
    requires Square(adj) && |adj| >= 2
  {
    Kept(AllCandidates(adj, Power(adj, |adj| - 1), start, |adj|), start < 0)
  }

  lemma {:induction false} InClosedPaths(cell: Paths, n: nat, size: nat, s: int, c: Path)
    requires n <= |cell|
    ensures c in ClosedPaths([], cell, n, size, s) <==>
      exists k :: 0 <= k < n && |cell[k]| == size && c == cell[k] + [s]
  {
    if n > 0 {
      InClosedPaths(cell, n - 1, size, s, c);
    }
  }

  ghost predicate ClosesFrom(adj: Graph, m: SymMatrix, s: int, e: int, c: Path)
    requires Square(adj) && SquareSym(m) && |m| == |adj| && Node(adj, s) && Node(adj, e)
  {
    adj[e][s] > 0.0 && exists p :: p in m[s][e] && |p| == |adj| && c == p + [s]
  }

  lemma {:induction false} InCandidatesTo(adj: Graph, m: SymMatrix, s: int, n: nat, c: Path)
    requires Square(adj) && SquareSym(m) && |m| == |adj| && Node(adj, s) && n <= |adj|
    ensures c in CandidatesTo([], adj, m, s, n) <==> exists e :: 0 <= e < n && ClosesFrom(adj, m, s, e, c)
  {
    if n > 0 {
      InCandidatesTo(adj, m, s, n - 1, c);
      var cell := m[s][n - 1];
      InClosedPaths(cell, |cell|, |adj|, s, c);
      ClosedPathsAppend(CandidatesTo([], adj, m, s, n - 1), cell, |cell|, |adj|, s);
      assert adj[n - 1][s] > 0.0 && c in ClosedPaths([], cell, |cell|, |adj|, s) <==> ClosesFrom(adj, m, s, n - 1, c);
    }
  }

  lemma CircuitSplits(adj: Graph, s: int, c: Path)
    requires Square(adj) && |adj| >= 2
    ensures HamiltonianCircuit(adj, s, c) <==>
      && |c| == |adj| + 1 && c[|adj|] == s && Node(adj, s)
      && Node(adj, c[|adj| - 1]) && SimplePath(adj, c[..|adj|], s, c[|adj| - 1], |adj| - 1)
      && adj[c[|adj| - 1]][s] > 0.0
  {
    var n := |adj|;
    if |c| == n + 1 && c[n] == s && Node(adj, s) && Node(adj, c[n - 1]) && SimplePath(adj, c[..n], s, c[n - 1], n - 1)
       && adj[c[n - 1]][s] > 0.0 {
      assert forall a :: 0 <= a < n ==> c[a] == c[..n][a];
      forall a, b | 0 <= a && b == a + 1 < |c|
        ensures Edge(adj, c[a], c[b])
      {
        if b < n {
          assert Edge(adj, c[..n][a], c[..n][b]);
        }
      }
    }
    if HamiltonianCircuit(adj, s, c) {
      assert Edge(adj, c[n - 1], c[n]);
    }
  }

  lemma CandidateIsCircuit(adj: Graph, m: SymMatrix, s: int, e: int, c: Path)
    requires Square(adj) && |adj| >= 2 && SquareSym(m) && |m| == |adj| && Node(adj, s) && Node(adj, e)
    requires HoldsSimplePaths(adj, m, |adj| - 1) && ClosesFrom(adj, m, s, e, c)
    ensures HamiltonianCircuit(adj, s, c)
  {
    var n := |adj|;
    var p :| p in m[s][e] && |p| == n && c == p + [s];
    assert CellHolds(adj, m[s][e], s, e, n - 1);
    assert c[..n] == p;
    CircuitSplits(adj, s, c);
  }

  lemma CircuitIsCandidate(adj: Graph, m: SymMatrix, s: int, c: Path)
    requires Square(adj) && |adj| >= 2 && SquareSym(m) && |m| == |adj|
    requires HoldsSimplePaths(adj, m, |adj| - 1) && HamiltonianCircuit(adj, s, c)
    ensures ClosesFrom(adj, m, s, c[|adj| - 1], c)
  {
    var n := |adj|;
    CircuitSplits(adj, s, c);
    assert CellHolds(adj, m[s][c[n - 1]], s, c[n - 1], n - 1);
    assert c[..n] in m[s][c[n - 1]] && c == c[..n] + [s];
  }

  /** The candidates from s are exactly the Hamiltonian circuits from s. */
  lemma InCandidates(adj: Graph, m: SymMatrix, s: int, c: Path)
    requires Square(adj) && |adj| >= 2 && SquareSym(m) && |m| == |adj| && Node(adj, s)
    requires HoldsSimplePaths(adj, m, |adj| - 1)
    ensures c in Candidates(adj, m, s) <==> HamiltonianCircuit(adj, s, c)
  {
    InCandidatesTo(adj, m, s, |adj|, c);
    if c in Candidates(adj, m, s) {
      var e :| 0 <= e < |adj| && ClosesFrom(adj, m, s, e, c);
      CandidateIsCircuit(adj, m, s, e, c);
    }
    if HamiltonianCircuit(adj, s, c) {
      CircuitIsCandidate(adj, m, s, c);
    }
  }

  // ---------- rotating circuits ----------

  /** A Hamiltonian circuit passes through every node. */
  lemma VisitsEveryNode(adj: Graph, s: int, c: Path, v: int) returns (k: nat)
    requires Square(adj) && HamiltonianCircuit(adj, s, c) && Node(adj, v)
    ensures k < |adj| && c[k] == v
  {
    var open := c[..|adj|];
    if v !in open {
      DistinctBound(open + [v], |adj|);
    }
    k :| 0 <= k < |open| && open[k] == v;
  }

  lemma OpenOfCircuit(adj: Graph, s: int, c: Path)
    requires Square(adj) && HamiltonianCircuit(adj, s, c)
    ensures Open(c) == c[..|adj|]
  {
  }

  /** Rotating a Hamiltonian circuit gives one from the node it was rotated to. */
  lemma RotatedCircuit(adj: Graph, s: int, c: Path, k: nat)
    requires Square(adj) && HamiltonianCircuit(adj, s, c) && k < |adj|
    ensures var d := Rotate(c[..|adj|], k) + [c[k]];
            HamiltonianCircuit(adj, c[k], d) && d[..|adj|] == Rotate(c[..|adj|], k)
  {
    var n := |adj|;
    var d := Rotate(c[..n], k) + [c[k]];
    assert d[..n] == Rotate(c[..n], k);
    forall a | 0 <= a < |d|
      ensures d[a] == if a + k <= n then c[a + k] else c[a + k - n]
    {
    }
    forall a, b | 0 <= a && b == a + 1 < |d|
      ensures Edge(adj, d[a], d[b])
    {
      var x := if a + k < n then a + k else a + k - n;
      assert Edge(adj, c[x], c[x + 1]);
    }
  }

  lemma RotationWithSameHead(a: Path, b: Path, k: nat)
    requires Distinct(b) && |b| > 0 && k <= |b| && a == Rotate(b, k) && a[0] == b[0]
    ensures a == b
  {
    assert k < |b| ==> a[0] == b[k];
  }

  /** Circuits from the same node that are rotations of each other are equal. */
  lemma SameStartSameCanonical(adj: Graph, s: int, c: Path, d: Path)
    requires Square(adj) && HamiltonianCircuit(adj, s, c) && HamiltonianCircuit(adj, s, d)
    requires Canonical(c) == Canonical(d)
    ensures c == d
  {
    var n := |adj|;
    OpenOfCircuit(adj, s, c);
    OpenOfCircuit(adj, s, d);
    CanonicalEqualIffRotation(c, d);
    var k: nat :| k <= |Open(d)| && Open(c) == Rotate(Open(d), k);
    RotationWithSameHead(c[..n], d[..n], k);
    assert c == c[..n] + [s] && d == d[..n] + [s];
  }

  /** Every Hamiltonian circuit has, from any other node, a circuit of the same cycle. */
  lemma FromOtherNode(adj: Graph, s: int, c: Path, v: int) returns (d: Path)
    requires Square(adj) && HamiltonianCircuit(adj, s, c) && Node(adj, v)
    ensures HamiltonianCircuit(adj, v, d) && Canonical(d) == Canonical(c)
  {
    var k := VisitsEveryNode(adj, s, c, v);
    d := Rotate(c[..|adj|], k) + [c[k]];
    RotatedCircuit(adj, s, c, k);
    OpenOfCircuit(adj, s, c);
    OpenOfCircuit(adj, v, d);
    CanonicalEqualIffRotation(d, c);
  }

  // ---------- what the enumerator reports ----------

  lemma {:induction false} OneStart(adj: Graph, m: SymMatrix, s: int, n: nat)
    requires Square(adj) && SquareSym(m) && |m| == |adj| && Node(adj, s) && n <= |adj|
    ensures AllCandidates(adj, m, s, n) == if s < n then Candidates(adj, m, s) else []
  {
    if n > 0 {
      OneStart(adj, m, s, n - 1);
    }
  }

  /** With a given start, exactly the Hamiltonian circuits from it are listed, each once. */
  lemma FixedStartIsExact(adj: Graph, s: int)
    requires Square(adj) && |adj| >= 2 && Node(adj, s)
    ensures NoDuplicates(Circuits(adj, s))
    ensures forall c :: c in Circuits(adj, s) <==> HamiltonianCircuit(adj, s, c)
  {
    assert PowerIsExact(adj, s) by {
      PowerHolds(adj, |adj| - 1);
      StartIsExact(adj, Power(adj, |adj| - 1), s);
    }
    OneStart(adj, Power(adj, |adj| - 1), s, |adj|);
  }

  /** Closing the longest paths of the last power gives every circuit from s, once. */
  ghost predicate PowerIsExact(adj: Graph, s: int)
    requires Square(adj) && |adj| >= 2 && Node(adj, s)
  {
    ListsExactly(adj, s, Kept(Candidates(adj, Power(adj, |adj| - 1), s), false))
  }

  ghost predicate ListsExactly(adj: Graph, s: int, list: Paths)
    requires Square(adj)
  {
    NoDuplicates(list) && forall c :: c in list <==> HamiltonianCircuit(adj, s, c)
  }

  lemma StartIsExact(adj: Graph, m: SymMatrix, s: int)
    requires Square(adj) && |adj| >= 2 && SquareSym(m) && |m| == |adj| && Node(adj, s)
    requires HoldsSimplePaths(adj, m, |adj| - 1)
    ensures ListsExactly(adj, s, Kept(Candidates(adj, m, s), false))
  {
    var list := Kept(Candidates(adj, m, s), false);
    forall c
      ensures c in list <==> HamiltonianCircuit(adj, s, c)
    {
      KeptMembers(Candidates(adj, m, s), c);
      InCandidates(adj, m, s, c);
    }
    KeptMembers(Candidates(adj, m, s), []);
  }

  /** Later starts add candidates of known cycles only. */
  lemma LaterStartsAbsorbed(adj: Graph, m: SymMatrix)
    requires Square(adj) && |adj| >= 2 && SquareSym(m) && |m| == |adj|
    requires HoldsSimplePaths(adj, m, |adj| - 1)
    ensures Kept(AllCandidates(adj, m, -1, |adj|), true) == Kept(Candidates(adj, m, 0), true)
  {
    forall s | 0 <= s < |adj|
      ensures Absorbed(Candidates(adj, m, 0), Candidates(adj, m, s))
    {
      StartAbsorbed(adj, m, s);
    }
    var lists := seq(|adj|, s requires 0 <= s < |adj| => Candidates(adj, m, s));
    AllIsConcat(adj, m, lists, |adj|);
    ConcatAbsorbed(lists[0], lists, |lists|);
  }

  /** The first n lists, one after the other. */
  function Concat(lists: seq<Paths>, n: nat): Paths
    requires n <= |lists|
  {
    if n == 0 then [] else Concat(lists, n - 1) + lists[n - 1]
  }

  lemma {:induction false} AllIsConcat(adj: Graph, m: SymMatrix, lists: seq<Paths>, n: nat)
    requires Square(adj) && SquareSym(m) && |m| == |adj| && n <= |adj| && |lists| == |adj|
    requires forall s :: 0 <= s < |adj| ==> lists[s] == Candidates(adj, m, s)
    ensures AllCandidates(adj, m, -1, n) == Concat(lists, n)
  {
    if n > 0 {
      AllIsConcat(adj, m, lists, n - 1);
      CandidatesAppend(AllCandidates(adj, m, -1, n - 1), adj, m, n - 1, |adj|);
    }
  }

  /** Every path listed in `more` is of a kind that occurs in `first`. */
  ghost predicate Absorbed(first: Paths, more: Paths) {
    Norms(more, true) <= Norms(first, true)
  }

  /** Of both lists the same circuits are kept. */
  ghost predicate SameCircuits(first: Paths, list: Paths) {
    Kept(list, true) == Kept(first, true) && Absorbed(list, first)
  }

  lemma {:induction false} ConcatAbsorbed(first: Paths, lists: seq<Paths>, n: nat)
    requires 1 <= n <= |lists| && lists[0] == first
    requires forall s {:trigger Absorbed(first, lists[s])} :: 0 <= s < |lists| ==> Absorbed(first, lists[s])
    ensures SameCircuits(first, Concat(lists, n))
  {
    if n == 1 {
      assert Concat(lists, 1) == Concat(lists, 0) + first == first;
    } else {
      ConcatAbsorbed(first, lists, n - 1);
      assert Absorbed(first, lists[n - 1]);
      MoreAbsorbed(first, Concat(lists, n - 1), lists[n - 1]);
    }
  }

  lemma MoreAbsorbed(first: Paths, before: Paths, more: Paths)
    requires SameCircuits(first, before) && Absorbed(first, more)
    ensures SameCircuits(first, before + more)
  {
    KeptAbsorbs(before, more, true);
    assert Norms(before, true) <= Norms(before + more, true);
  }

  lemma StartAbsorbed(adj: Graph, m: SymMatrix, s: int)
    requires Square(adj) && |adj| >= 2 && SquareSym(m) && |m| == |adj| && Node(adj, s)
    requires HoldsSimplePaths(adj, m, |adj| - 1)
    ensures Absorbed(Candidates(adj, m, 0), Candidates(adj, m, s))
  {
    forall c | c in Candidates(adj, m, s)
      ensures Canonical(c) in Norms(Candidates(adj, m, 0), true)
    {
      InCandidates(adj, m, s, c);
      var d := FromOtherNode(adj, s, c, 0);
      InCandidates(adj, m, 0, d);
      assert Norm(d, true) == Canonical(d);
    }
  }

  /** Without a given start the list is the one for start 0. */
  lemma AnyStartIsStartZero(adj: Graph)
    requires Square(adj) && |adj| >= 2
    ensures Circuits(adj, -1) == Circuits(adj, 0)
  {
    var m := Power(adj, |adj| - 1);
    PowerHolds(adj, |adj| - 1);
    LaterStartsAbsorbed(adj, m);
    OneStart(adj, m, 0, |adj|);
    var first := Candidates(adj, m, 0);
    forall c, d | c in first && d in first && Canonical(c) == Canonical(d)
      ensures c == d
    {
      InCandidates(adj, m, 0, c);
      InCandidates(adj, m, 0, d);
      SameStartSameCanonical(adj, 0, c, d);
    }
    KeptSame(first);
  }

  /** Two closed walks run through the same cycle. */
  ghost predicate SameCycle(c: Path, d: Path) {
    IsRotation(Open(c), Open(d))
  }

  /** Without a given start, every Hamiltonian circuit has exactly one representative. */
  lemma OneRepresentative(adj: Graph, s: int, c: Path) returns (r: Path)
    requires Square(adj) && |adj| >= 2 && HamiltonianCircuit(adj, s, c)
    ensures r in Circuits(adj, -1) && SameCycle(r, c)
    ensures forall q :: q in Circuits(adj, -1) && SameCycle(q, c) ==> q == r
    ensures NoDuplicates(Circuits(adj, -1))
  {
    AnyStartIsStartZero(adj);
    FixedStartIsExact(adj, 0);
    r := FromOtherNode(adj, s, c, 0);
    CanonicalEqualIffRotation(r, c);
    forall q | q in Circuits(adj, -1) && SameCycle(q, c)
      ensures q == r
    {
      CanonicalEqualIffRotation(q, c);
      SameStartSameCanonical(adj, 0, q, r);
    }
  }

  /** Whether a circuit is reported does not depend on the start. */
  lemma HasCircuitSameForAllStarts(adj: Graph, start: int)
    requires Square(adj) && |adj| >= 2 && -1 <= start < |adj|
    ensures Circuits(adj, start) != [] <==> exists s, c :: HamiltonianCircuit(adj, s, c)
  {
    AnyStartIsStartZero(adj);
    var v := if start == -1 then 0 else start;
    FixedStartIsExact(adj, v);
    if Circuits(adj, start) != [] {
      assert HamiltonianCircuit(adj, v, Circuits(adj, start)[0]);
    }
    if s, c :| HamiltonianCircuit(adj, s, c) {
      var d := FromOtherNode(adj, s, c, v);
      assert d in Circuits(adj, start);
    }
  }

  // ---------- the method ----------

  datatype CircuitResult = CircuitResult(hasCircuit: bool, circuits: Paths)

  /** The state of the collecting loops after they looked at `looked`, in this order. */
  ghost predicate Collected(looked: Paths, rot: bool, seen: set<string>, circuits: Paths) {
    seen == Keys(looked, rot) && circuits == Kept(looked, rot)
  }

  lemma CollectNext(looked: Paths, c: Path, rot: bool, seen: set<string>, circuits: Paths, key: string)
    requires Collected(looked, rot, seen, circuits) && key == PathKey(Norm(c, rot))
    ensures Collected(looked + [c], rot, seen + {key}, if key in seen then circuits else circuits + [c])
  {
    KeptNext(looked, c, rot);
  }

  /** Closes the long paths of one cell and records those of a new kind. */
  method CollectCell(cell: Paths, size: nat, start: int, rot: bool, seen0: set<string>, circuits0: Paths,
                     ghost looked: Paths)
    returns (seen: set<string>, circuits: Paths)
    requires Collected(looked, rot, seen0, circuits0)
    ensures Collected(ClosedPaths(looked, cell, |cell|, size, start), rot, seen, circuits)
  {
    seen, circuits := seen0, circuits0;
    ghost var list := looked;
    for i := 0 to |cell|
      invariant list == ClosedPaths(looked, cell, i, size, start)
      invariant Collected(list, rot, seen, circuits)
    {
      if |cell[i]| == size {
        var circuit := cell[i] + [start];
        var normalized := circuit;
        if rot {
          normalized := Canonicalize(circuit);
        }
        var key := ComputePathKey(normalized);
        CollectNext(list, circuit, rot, seen, circuits, key);
        if key !in seen {
          circuits := circuits + [circuit];
        }
        seen := seen + {key};
        list := list + [circuit];
      }
    }
  }

  method CollectFrom(adj: Graph, current: SymMatrix, start: int, rot: bool, seen0: set<string>, circuits0: Paths,
                     ghost looked: Paths)
    returns (seen: set<string>, circuits: Paths)
    requires Square(adj) && SquareSym(current) && |current| == |adj| && Node(adj, start)
    requires Collected(looked, rot, seen0, circuits0)
    ensures Collected(CandidatesTo(looked, adj, current, start, |adj|), rot, seen, circuits)
  {
    seen, circuits := seen0, circuits0;
    for end := 0 to |adj|
      invariant Collected(CandidatesTo(looked, adj, current, start, end), rot, seen, circuits)
    {
      if adj[end][start] > 0.0 {
        ghost var list := CandidatesTo(looked, adj, current, start, end);
        var cell := current[start][end];
        seen, circuits := CollectCell(cell, |adj|, start, rot, seen, circuits, list);
      }
    }
  }

  /** Multiplies up to the matrix of all simple paths with size - 1 edges. */
  method LongestPaths(adj: Graph) returns (current: SymMatrix)
    requires Square(adj) && |adj| >= 2
    ensures current == Power(adj, |adj| - 1)
  {
    var built := BuildSymbolicMatrix(adj);
    var base := built.value;
    current := base;
    var edgeCount := 2;
    while edgeCount <= |adj| - 1
      invariant 2 <= edgeCount <= |adj|
      invariant current == Power(adj, edgeCount - 1)
    {
      var next := SymbolicMatrixMultiply(current, base);
      current := next.value;
      edgeCount := edgeCount + 1;
    }
  }

  method Enumerate(adj: Graph, startNode: int) returns (circuits: Paths)
    requires Square(adj) && |adj| >= 2
    ensures circuits == Circuits(adj, startNode)
  {
    var current := LongestPaths(adj);
    var rot := startNode < 0;
    var seen: set<string> := {};
    circuits := [];
    for start := 0 to |adj|
      invariant Collected(AllCandidates(adj, current, startNode, start), rot, seen, circuits)
    {
      if startNode >= 0 && start != startNode {
        continue;
      }
      ghost var list := AllCandidates(adj, current, startNode, start);
      seen, circuits := CollectFrom(adj, current, start, rot, seen, circuits, list);
    }
  }

  method FindHamiltonianCircuits(adj: Graph, startNode: int) returns (r: Result<CircuitResult>)
    ensures !Square(adj) ==> r == Err(NotSquare)
    ensures Square(adj) && |adj| < 2 ==> r == Ok(CircuitResult(false, []))
    ensures Square(adj) && |adj| >= 2 && !(-1 <= startNode < |adj|) ==> r == Err(StartOutOfRange)
    ensures Square(adj) && |adj| >= 2 && -1 <= startNode < |adj| ==>
      && r.Ok? && r.value.circuits == Circuits(adj, startNode)
      && NoDuplicates(r.value.circuits)
      && (forall c :: c in r.value.circuits <==> HamiltonianCircuit(adj, if startNode == -1 then 0 else startNode, c))
      && (r.value.hasCircuit <==> exists s, c :: HamiltonianCircuit(adj, s, c))
  {
    if !Square(adj) {
      return Err(NotSquare);
    }
    if |adj| < 2 {
      return Ok(CircuitResult(false, []));
    }
    if startNode < -1 || startNode >= |adj| {
      return Err(StartOutOfRange);
    }
    var circuits := Enumerate(adj, startNode);
    HasCircuitSameForAllStarts(adj, startNode);
    AnyStartIsStartZero(adj);
    FixedStartIsExact(adj, if startNode == -1 then 0 else startNode);
    return Ok(CircuitResult(circuits != [], circuits));
  }
}

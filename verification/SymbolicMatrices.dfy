/**
 Matrices whose cells are lists of paths, and their "Latin" product, which concatenates
 paths and drops those that repeat a node.
 */
module SymbolicMatrices {
  import opened Matrices
  import opened PathKeys
  import opened Rotations

  type Paths = seq<Path>
  type SymMatrix = seq<seq<Paths>>

  datatype Error = NotSquare | DifferentSizes | StartOutOfRange
  datatype Result<T> = Ok(value: T) | Err(error: Error)

  predicate SquareSym(m: SymMatrix) {
    forall i :: 0 <= i < |m| ==> |m[i]| == |m|
  }

  // ---------- duplicates ----------

  /** What two circuits must share to count as the same one. */
  function Norm(c: Path, upToRotation: bool): Path {
    if upToRotation then Canonical(c) else c
  }

  /** The first path of each kind, in order. */
  function Kept(paths: Paths, upToRotation: bool): Paths {
    if paths == [] then []
    else
      var init, last := paths[..|paths| - 1], paths[|paths| - 1];
      if exists q :: q in init && Norm(q, upToRotation) == Norm(last, upToRotation)
      then Kept(init, upToRotation) else Kept(init, upToRotation) + [last]
  }

  ghost function Norms(paths: Paths, upToRotation: bool): set<Path> {
    set q | q in paths :: Norm(q, upToRotation)
  }

  ghost predicate NormsDiffer(paths: Paths, upToRotation: bool) {
    forall i, j :: 0 <= i < j < |paths| ==> Norm(paths[i], upToRotation) != Norm(paths[j], upToRotation)
  }

  ghost predicate NoDuplicates(paths: Paths) {
    forall i, j :: 0 <= i < j < |paths| ==> paths[i] != paths[j]
  }

  lemma NormsAppend(paths: Paths, p: Path, rot: bool)
    ensures Norms(paths + [p], rot) == Norms(paths, rot) + {Norm(p, rot)}
    ensures NormsDiffer(paths, rot) && Norm(p, rot) !in Norms(paths, rot) ==> NormsDiffer(paths + [p], rot)
  {
    assert forall i :: 0 <= i < |paths| ==> Norm(paths[i], rot) in Norms(paths, rot);
  }

  /** `Kept` keeps one path of every kind, and only paths it was given. */
  lemma {:induction false} KeptIsExact(paths: Paths, rot: bool)
    ensures forall p :: p in Kept(paths, rot) ==> p in paths
    ensures Norms(Kept(paths, rot), rot) == Norms(paths, rot)
    ensures NormsDiffer(Kept(paths, rot), rot)
  {
    if paths != [] {
      var init, last := paths[..|paths| - 1], paths[|paths| - 1];
      KeptIsExact(init, rot);
      assert paths == init + [last];
      ExactNext(init, Kept(init, rot), last, rot);
    }
  }

  /** One more path is kept if its kind is new. */
  lemma ExactNext(init: Paths, kept: Paths, last: Path, rot: bool)
    requires (forall p :: p in kept ==> p in init) && Norms(kept, rot) == Norms(init, rot) && NormsDiffer(kept, rot)
    ensures var more := if exists q :: q in init && Norm(q, rot) == Norm(last, rot) then kept else kept + [last];
            && (forall p :: p in more ==> p in init + [last])
            && Norms(more, rot) == Norms(init + [last], rot) && NormsDiffer(more, rot)
  {
    NormsAppend(init, last, rot);
    NormsAppend(kept, last, rot);
    if exists q :: q in init && Norm(q, rot) == Norm(last, rot) {
      assert Norm(last, rot) in Norms(init, rot);
    } else {
      assert Norm(last, rot) !in Norms(init, rot);
    }
  }

  lemma KeptMembers(paths: Paths, p: Path)
    ensures p in Kept(paths, false) <==> p in paths
    ensures NoDuplicates(Kept(paths, false))
  {
    KeptIsExact(paths, false);
    if p in paths {
      assert Norm(p, false) in Norms(Kept(paths, false), false);
    }
  }

  /** Paths whose kind was already seen add nothing. */
  lemma {:induction false} KeptAbsorbs(a: Paths, b: Paths, rot: bool)
    requires Norms(b, rot) <= Norms(a, rot)
    ensures Kept(a + b, rot) == Kept(a, rot)
  {
    if b == [] {
      assert a + b == a;
    } else {
      var init, last := b[..|b| - 1], b[|b| - 1];
      assert (a + b)[..|a + b| - 1] == a + init;
      forall q | q in init
        ensures Norm(q, rot) in Norms(a, rot)
      {
        assert Norm(q, rot) in Norms(b, rot);
      }
      KeptAbsorbs(a, init, rot);
      assert Norm(last, rot) in Norms(b, rot);
      var q :| q in a && Norm(q, rot) == Norm(last, rot);
      assert q in a + init;
    }
  }

  /** If rotations of listed paths are equal, the two ways of comparing agree. */
  lemma {:induction false} KeptSame(paths: Paths)
    requires forall p, q :: p in paths && q in paths && Canonical(p) == Canonical(q) ==> p == q
    ensures Kept(paths, true) == Kept(paths, false)
  {
    if paths != [] {
      KeptSame(paths[..|paths| - 1]);
    }
  }

  ghost function Keys(paths: Paths, rot: bool): set<string> {
    set q | q in paths :: PathKey(Norm(q, rot))
  }

  /** A key is new exactly when the path is of a new kind, so keys decide what is kept. */
  lemma KeptNext(paths: Paths, p: Path, rot: bool)
    ensures Keys(paths + [p], rot) == Keys(paths, rot) + {PathKey(Norm(p, rot))}
    ensures Kept(paths + [p], rot)
         == if PathKey(Norm(p, rot)) in Keys(paths, rot) then Kept(paths, rot) else Kept(paths, rot) + [p]
  {
    NewKeyIffNewKind(paths, p, rot);
    KeysNext(paths, p, rot);
    assert (paths + [p])[..|paths|] == paths;
  }

  lemma KeysNext(paths: Paths, p: Path, rot: bool)
    ensures Keys(paths + [p], rot) == Keys(paths, rot) + {PathKey(Norm(p, rot))}
  {
    assert forall q :: q in paths + [p] <==> q in paths || q == p;
  }

  lemma NewKeyIffNewKind(paths: Paths, p: Path, rot: bool)
    ensures PathKey(Norm(p, rot)) in Keys(paths, rot) <==> exists q :: q in paths && Norm(q, rot) == Norm(p, rot)
  {
    var norms := seq(|paths|, i requires 0 <= i < |paths| => Norm(paths[i], rot));
    SameKeys(paths, norms, rot);
    KeyAmongKeys(norms, Norm(p, rot));
  }

  lemma SameKeys(paths: Paths, norms: Paths, rot: bool)
    requires |norms| == |paths| && forall i :: 0 <= i < |paths| ==> norms[i] == Norm(paths[i], rot)
    ensures Keys(paths, rot) == set q | q in norms :: PathKey(q)
    ensures forall n :: n in norms <==> exists q :: q in paths && Norm(q, rot) == n
  {
    forall q | q in paths
      ensures Norm(q, rot) in norms
    {
      var i :| 0 <= i < |paths| && paths[i] == q;
      assert norms[i] == Norm(q, rot);
    }
    forall n | n in norms
      ensures exists q :: q in paths && Norm(q, rot) == n
    {
      var i :| 0 <= i < |norms| && norms[i] == n;
      assert paths[i] in paths;
    }
  }

  lemma KeptPrefix(paths: Paths, i: nat, rot: bool)
    requires i < |paths|
    ensures Keys(paths[..i + 1], rot) == Keys(paths[..i], rot) + {PathKey(Norm(paths[i], rot))}
    ensures Kept(paths[..i + 1], rot)
         == if PathKey(Norm(paths[i], rot)) in Keys(paths[..i], rot) then Kept(paths[..i], rot)
           else Kept(paths[..i], rot) + [paths[i]]
  {
    KeptNext(paths[..i], paths[i], rot);
    assert paths[..i + 1] == paths[..i] + [paths[i]];
  }

  method DeduplicatePaths(paths: Paths) returns (unique: Paths)
    ensures unique == Kept(paths, false)
  {
    var seen: set<string> := {};
    unique := [];
    for i := 0 to |paths|
      invariant unique == Kept(paths[..i], false)
      invariant seen == Keys(paths[..i], false)
    {
      var key := ComputePathKey(paths[i]);
      KeptPrefix(paths, i, false);
      if key !in seen {
        unique := unique + [paths[i]];
      }
      seen := seen + {key};
    }
    assert paths[..|paths|] == paths;
  }

  method PathHasRepeatedNodes(path: Path) returns (repeated: bool)
    ensures repeated <==> !Distinct(path)
  {
    var seen: set<int> := {};
    for i := 0 to |path|
      invariant seen == set j | 0 <= j < i :: path[j]
      invariant Distinct(path[..i])
    {
      if path[i] in seen {
        var j :| 0 <= j < i && path[j] == path[i];
        return true;
      }
      seen := seen + {path[i]};
    }
    assert path[..|path|] == path;
    return false;
  }

  // ---------- product ----------

  predicate Joins(l: Path, r: Path) {
    l != [] && r != [] && l[|l| - 1] == r[0] && Distinct(l + r[1..])
  }

  /** `l` followed by each of the first n right paths that fits it. */
  function Extensions(l: Path, rights: Paths, n: nat): Paths
    requires n <= |rights|
  {
    if n == 0 then []
    else Extensions(l, rights, n - 1) + if Joins(l, rights[n - 1]) then [l + rights[n - 1][1..]] else []
  }

  function AllExtensions(lefts: Paths, n: nat, rights: Paths): Paths
    requires n <= |lefts|
  {
    if n == 0 then [] else AllExtensions(lefts, n - 1, rights) + Extensions(lefts[n - 1], rights, |rights|)
  }

  function Compatible(left: SymMatrix, right: SymMatrix, row: int, column: int): bool {
    SquareSym(left) && SquareSym(right) && |left| == |right| && 0 <= row < |left| && 0 <= column < |left|
  }

  function CellPaths(left: SymMatrix, right: SymMatrix, row: int, column: int, n: nat): Paths
    requires Compatible(left, right, row, column) && n <= |left|
  {
    if n == 0 then []
    else
      CellPaths(left, right, row, column, n - 1) +
      AllExtensions(left[row][n - 1], |left[row][n - 1]|, right[n - 1][column])
  }

  function ProductCell(left: SymMatrix, right: SymMatrix, row: int, column: int): Paths
    requires Compatible(left, right, row, column)
  {
    Kept(CellPaths(left, right, row, column, |left|), false)
  }

  function ProductRow(left: SymMatrix, right: SymMatrix, i: int): (r: seq<Paths>)
    requires SquareSym(left) && SquareSym(right) && |left| == |right| && 0 <= i < |left|
    ensures |r| == |left|
  {
    seq(|left|, j requires 0 <= j < |left| => ProductCell(left, right, i, j))
  }

  function Product(left: SymMatrix, right: SymMatrix): (m: SymMatrix)
    requires SquareSym(left) && SquareSym(right) && |left| == |right|
    ensures |m| == |left| && SquareSym(m)
  {
    seq(|left|, i requires 0 <= i < |left| => ProductRow(left, right, i))
  }

  /** `p` continues `l` by one of the first n right paths. */
  ghost predicate Continues(l: Path, rights: Paths, n: nat, p: Path)
    requires n <= |rights|
  {
    exists k :: 0 <= k < n && Joins(l, rights[k]) && p == l + rights[k][1..]
  }

  lemma {:induction false} InExtensions(l: Path, rights: Paths, n: nat, p: Path)
    requires n <= |rights|
    ensures p in Extensions(l, rights, n) <==> Continues(l, rights, n, p)
  {
    if n > 0 {
      InExtensions(l, rights, n - 1, p);
    }
  }

  lemma InEither(a: Paths, b: Paths, p: Path)
    ensures p in a + b <==> p in a || p in b
  {
  }

  lemma {:induction false} InAllExtensions(lefts: Paths, n: nat, rights: Paths, p: Path)
    requires n <= |lefts|
    ensures p in AllExtensions(lefts, n, rights) <==>
      exists i :: 0 <= i < n && p in Extensions(lefts[i], rights, |rights|)
  {
    if n > 0 {
      InAllExtensions(lefts, n - 1, rights, p);
      InEither(AllExtensions(lefts, n - 1, rights), Extensions(lefts[n - 1], rights, |rights|), p);
    }
  }

  /** `p` is a left path from the row to m continued by a right path from m to the column. */
  ghost predicate Composes(left: SymMatrix, right: SymMatrix, row: int, column: int, m: int, p: Path)
    requires Compatible(left, right, row, column) && 0 <= m < |left|
  {
    exists l, r :: l in left[row][m] && r in right[m][column] && Joins(l, r) && p == l + r[1..]
  }

  /** Some intermediate node below n composes `p`. */
  ghost predicate ComposesBelow(left: SymMatrix, right: SymMatrix, row: int, column: int, n: int, p: Path)
    requires Compatible(left, right, row, column) && n <= |left|
  {
    exists m :: 0 <= m < n && Composes(left, right, row, column, m, p)
  }

  lemma ComposesNext(left: SymMatrix, right: SymMatrix, row: int, column: int, n: nat, p: Path)
    requires Compatible(left, right, row, column) && 0 < n <= |left|
    ensures ComposesBelow(left, right, row, column, n, p) <==>
      ComposesBelow(left, right, row, column, n - 1, p) || Composes(left, right, row, column, n - 1, p)
  {
  }

  lemma ComposesIndexed(left: SymMatrix, right: SymMatrix, row: int, column: int, m: int, p: Path)
    requires Compatible(left, right, row, column) && 0 <= m < |left|
    ensures p in AllExtensions(left[row][m], |left[row][m]|, right[m][column]) <==>
      Composes(left, right, row, column, m, p)
  {
    var lefts, rights := left[row][m], right[m][column];
    InAllExtensions(lefts, |lefts|, rights, p);
    forall i | 0 <= i < |lefts|
      ensures p in Extensions(lefts[i], rights, |rights|) <==> Continues(lefts[i], rights, |rights|, p)
    {
      InExtensions(lefts[i], rights, |rights|, p);
    }
    if Composes(left, right, row, column, m, p) {
      var l, r :| l in lefts && r in rights && Joins(l, r) && p == l + r[1..];
      var i :| 0 <= i < |lefts| && lefts[i] == l;
      var k :| 0 <= k < |rights| && rights[k] == r;
      assert Continues(lefts[i], rights, |rights|, p);
    }
  }

  lemma {:induction false} InCellPaths(left: SymMatrix, right: SymMatrix, row: int, column: int, n: nat, p: Path)
    requires Compatible(left, right, row, column) && n <= |left|
    ensures p in CellPaths(left, right, row, column, n) <==> ComposesBelow(left, right, row, column, n, p)
  {
    if n > 0 {
      InCellPaths(left, right, row, column, n - 1, p);
      ComposesIndexed(left, right, row, column, n - 1, p);
      ComposesNext(left, right, row, column, n, p);
    }
  }

  /** A product cell holds every composition through some intermediate node, once. */
  lemma InProductCell(left: SymMatrix, right: SymMatrix, row: int, column: int, p: Path)
    requires Compatible(left, right, row, column)
    ensures p in ProductCell(left, right, row, column) <==> ComposesBelow(left, right, row, column, |left|, p)
    ensures NoDuplicates(ProductCell(left, right, row, column))
  {
    KeptMembers(CellPaths(left, right, row, column, |left|), p);
    InCellPaths(left, right, row, column, |left|, p);
  }

  // ---------- the methods ----------

  method MultiplyCell(left: SymMatrix, right: SymMatrix, row: int, column: int) returns (cell: Paths)
    requires Compatible(left, right, row, column)
    ensures cell == ProductCell(left, right, row, column)
  {
    var acc: Paths := [];
    for m := 0 to |left|
      invariant acc == CellPaths(left, right, row, column, m)
    {
      var lefts, rights := left[row][m], right[m][column];
      ghost var before := acc;
      for i := 0 to |lefts|
        invariant acc == before + AllExtensions(lefts, i, rights)
      {
        ghost var prior := acc;
        for k := 0 to |rights|
          invariant acc == prior + Extensions(lefts[i], rights, k)
        {
          var l, r := lefts[i], rights[k];
          if l != [] && r != [] && l[|l| - 1] == r[0] {
            var combined := l + r[1..];
            var repeated := PathHasRepeatedNodes(combined);
            if !repeated {
              acc := acc + [combined];
            }
          }
        }
      }
    }
    cell := DeduplicatePaths(acc);
  }

  method SymbolicMatrixMultiply(left: SymMatrix, right: SymMatrix) returns (r: Result<SymMatrix>)
    ensures !SquareSym(left) || !SquareSym(right) ==> r == Err(NotSquare)
    ensures SquareSym(left) && SquareSym(right) && |left| != |right| ==> r == Err(DifferentSizes)
    ensures SquareSym(left) && SquareSym(right) && |left| == |right| ==> r == Ok(Product(left, right))
  {
    if !SquareSym(left) || !SquareSym(right) {
      return Err(NotSquare);
    }
    if |left| != |right| {
      return Err(DifferentSizes);
    }
    var size := |left|;
    ghost var product := Product(left, right);
    var result: SymMatrix := [];
    for row := 0 to size
      invariant result == product[..row]
    {
      var cells: seq<Paths> := [];
      for column := 0 to size
        invariant cells == product[row][..column]
      {
        var cell := MultiplyCell(left, right, row, column);
        cells := cells + [cell];
      }
      assert product[row][..size] == product[row];
      result := result + [cells];
    }
    assert product[..size] == product;
    return Ok(result);
  }

  // ---------- one-edge matrix ----------

  function BaseCell(adj: Graph, i: int, j: int): Paths
    requires Square(adj) && Node(adj, i) && Node(adj, j)
  {
    if i != j && adj[i][j] > 0.0 then [[i, j]] else []
  }

  function Base(adj: Graph): (m: SymMatrix)
    requires Square(adj)
    ensures |m| == |adj| && SquareSym(m)
  {
    seq(|adj|, i requires 0 <= i < |adj| => seq(|adj|, j requires 0 <= j < |adj| => BaseCell(adj, i, j)))
  }

  method BuildSymbolicMatrix(adj: Graph) returns (r: Result<SymMatrix>)
    ensures r == if Square(adj) then Ok(Base(adj)) else Err(NotSquare)
  {
    if !Square(adj) {
      return Err(NotSquare);
    }
    var matrix: SymMatrix := [];
    for row := 0 to |adj|
      invariant |matrix| == row
      invariant forall i :: 0 <= i < row ==> matrix[i] == Base(adj)[i]
    {
      var cells: seq<Paths> := [];
      for column := 0 to |adj|
        invariant |cells| == column
        invariant forall j :: 0 <= j < column ==> cells[j] == BaseCell(adj, row, j)
      {
        var cell: Paths := [];
        if row != column && adj[row][column] > 0.0 {
          cell := cell + [[row, column]];
        }
        cells := cells + [cell];
      }
      assert cells == Base(adj)[row];
      matrix := matrix + [cells];
    }
    assert matrix == Base(adj);
    return Ok(matrix);
  }
}

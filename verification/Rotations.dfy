/** Rotations of closed walks and the canonical (least) rotation. */
module Rotations {
  import opened PathKeys

  // ---------- lexicographic order ----------

  /** The order of std::vector<int>. */
  predicate Less(a: Path, b: Path) {
    b != [] && (a == [] || a[0] < b[0] || (a[0] == b[0] && Less(a[1..], b[1..])))
  }

  lemma {:induction false} LessAsymmetric(a: Path, b: Path)
    requires Less(a, b)
    ensures !Less(b, a)
  {
    if a != [] && a[0] == b[0] {
      LessAsymmetric(a[1..], b[1..]);
    }
  }

  lemma {:induction false} LessTotal(a: Path, b: Path)
    ensures Less(a, b) || Less(b, a) || a == b
  {
    if a != [] && b != [] && a[0] == b[0] {
      LessTotal(a[1..], b[1..]);
      assert a == [a[0]] + a[1..] && b == [b[0]] + b[1..];
    }
  }

  lemma {:induction false} LessTransitive(a: Path, b: Path, c: Path)
    requires Less(a, b) && Less(b, c)
    ensures Less(a, c)
  {
    if a != [] && a[0] == b[0] == c[0] {
      LessTransitive(a[1..], b[1..], c[1..]);
    }
  }

  // ---------- rotations ----------

  function Rotate(c: Path, k: nat): (r: Path)
    requires k <= |c|
    ensures |r| == |c|
  {
    c[k..] + c[..k]
  }

  ghost predicate IsRotation(a: Path, c: Path) {
    exists k: nat :: k <= |c| && a == Rotate(c, k)
  }

  lemma RotateTwice(c: Path, i: nat, j: nat)
    requires i <= |c| && j <= |c|
    ensures i + j <= |c| ==> Rotate(Rotate(c, i), j) == Rotate(c, i + j)
    ensures i + j > |c| ==> Rotate(Rotate(c, i), j) == Rotate(c, i + j - |c|)
  {
  }

  lemma RotationTransitive(a: Path, b: Path, c: Path)
    requires IsRotation(a, b) && IsRotation(b, c)
    ensures IsRotation(a, c)
  {
    var j: nat :| j <= |b| && a == Rotate(b, j);
    var i: nat :| i <= |c| && b == Rotate(c, i);
    RotateTwice(c, i, j);
  }

  lemma RotationSymmetric(a: Path, c: Path)
    requires IsRotation(a, c)
    ensures IsRotation(c, a)
  {
    var k: nat :| k <= |c| && a == Rotate(c, k);
    RotateTwice(c, k, |c| - k);
    assert c == Rotate(a, |c| - k);
  }

  // ---------- canonical rotation ----------

  /** The least of the first k rotations, the earliest one winning ties. */
  function LeastRotation(c: Path, k: nat): (r: Path)
    requires 1 <= k <= |c|
    ensures |r| == |c|
  {
    if k == 1 then c
    else
      var best := LeastRotation(c, k - 1);
      if Less(Rotate(c, k - 1), best) then Rotate(c, k - 1) else best
  }

  /** A closed walk without its repeated last node. */
  function Open(circuit: Path): Path {
    if |circuit| > 1 && circuit[0] == circuit[|circuit| - 1] then circuit[..|circuit| - 1] else circuit
  }

  function Canonical(circuit: Path): Path {
    if circuit == [] then []
    else
      var best := LeastRotation(Open(circuit), |Open(circuit)|);
      best + [best[0]]
  }

  method Canonicalize(circuit: Path) returns (r: Path)
    ensures r == Canonical(circuit)
  {
    if circuit == [] {
      return circuit;
    }
    var open := circuit;
    if |open| > 1 && open[0] == open[|open| - 1] {
      open := open[..|open| - 1];
    }
    var best := open;
    var offset := 1;
    while offset < |open|
      invariant 1 <= offset <= |open|
      invariant best == LeastRotation(open, offset)
    {
      var candidate := [];
      for index := 0 to |open|
        invariant |candidate| == index
        invariant forall i :: 0 <= i < index ==> candidate[i] == Rotate(open, offset)[i]
      {
        WrapIndex(open, offset, index);
        candidate := candidate + [open[(offset + index) % |open|]];
      }
      assert candidate == Rotate(open, offset);
      if Less(candidate, best) {
        best := candidate;
      }
      offset := offset + 1;
    }
    r := best + [best[0]];
  }

  lemma WrapIndex(c: Path, offset: nat, index: nat)
    requires offset < |c| && index < |c|
    ensures (offset + index) % |c| == if offset + index < |c| then offset + index else offset + index - |c|
    ensures c[(offset + index) % |c|] == Rotate(c, offset)[index]
  {
    var n := |c|;
    assert offset + index < n ==> (offset + index) % n == offset + index;
    assert offset + index >= n ==> (offset + index) % n == offset + index - n;
  }

  ghost predicate LeastAmong(a: Path, c: Path, k: nat)
    requires k <= |c|
  {
    && (exists i: nat :: i < k && a == Rotate(c, i))
    && (forall i: nat :: i < k ==> !Less(Rotate(c, i), a))
  }

  lemma {:induction false} LeastRotationIsLeast(c: Path, k: nat)
    requires 1 <= k <= |c|
    ensures LeastAmong(LeastRotation(c, k), c, k)
  {
    if k == 1 {
      assert c == Rotate(c, 0);
      if Less(c, c) {
        LessAsymmetric(c, c);
      }
    } else {
      LeastRotationIsLeast(c, k - 1);
      var best, r := LeastRotation(c, k - 1), Rotate(c, k - 1);
      if Less(r, r) {
        LessAsymmetric(r, r);
      }
      if Less(r, best) {
        forall i: nat | i < k - 1
          ensures !Less(Rotate(c, i), r)
        {
          if Less(Rotate(c, i), r) {
            LessTransitive(Rotate(c, i), r, best);
          }
        }
      }
    }
  }

  /** The canonical form is a rotation of the cycle, closed again, and no rotation is smaller. */
  lemma CanonicalIsLeast(circuit: Path)
    requires circuit != []
    ensures Open(Canonical(circuit)) + [Open(Canonical(circuit))[0]] == Canonical(circuit)
    ensures IsRotation(Open(Canonical(circuit)), Open(circuit))
    ensures forall r :: IsRotation(r, Open(circuit)) ==> !Less(r, Open(Canonical(circuit)))
  {
    var c := Open(circuit);
    LeastRotationIsLeast(c, |c|);
    var best := LeastRotation(c, |c|);
    assert Canonical(circuit)[..|best|] == best;
    assert Open(Canonical(circuit)) == best;
    forall r | IsRotation(r, c)
      ensures !Less(r, best)
    {
      var k: nat :| k <= |c| && r == Rotate(c, k);
      assert k == |c| ==> r == Rotate(c, 0);
    }
  }

  /** Two closed walks have the same canonical form exactly when they are the same cycle. */
  lemma CanonicalEqualIffRotation(a: Path, b: Path)
    requires a != [] && b != []
    ensures Canonical(a) == Canonical(b) <==> IsRotation(Open(a), Open(b))
  {
    CanonicalIsLeast(a);
    CanonicalIsLeast(b);
    var x, y := Open(Canonical(a)), Open(Canonical(b));
    if Canonical(a) == Canonical(b) {
      RotationSymmetric(x, Open(a));
      RotationTransitive(Open(a), x, Open(b));
    }
    if IsRotation(Open(a), Open(b)) {
      RotationTransitive(x, Open(a), Open(b));
      RotationSymmetric(Open(a), Open(b));
      RotationTransitive(y, Open(b), Open(a));
      LessTotal(x, y);
    }
  }

  lemma CanonicalIdempotent(circuit: Path)
    ensures Canonical(Canonical(circuit)) == Canonical(circuit)
  {
    if circuit != [] {
      CanonicalIsLeast(circuit);
      CanonicalEqualIffRotation(Canonical(circuit), circuit);
    }
  }
}

/** Counting the threads whose program counter satisfies a condition. */
module Counting {

  ghost function Count<T(!new)>(s: seq<T>, f: T -> bool): nat {
    if s == [] then 0 else Count(s[..|s| - 1], f) + if f(s[|s| - 1]) then 1 else 0
  }

  lemma {:induction false} CountUpdate<T(!new)>(s: seq<T>, w: nat, x: T, f: T -> bool)
    requires w < |s|
    ensures Count(s[w := x], f) == Count(s, f) - (if f(s[w]) then 1 else 0) + (if f(x) then 1 else 0)
  {
    var k := |s| - 1;
    if w == k {
      assert s[w := x][..k] == s[..k];
    } else {
      CountUpdate(s[..k], w, x, f);
      assert s[w := x][..k] == s[..k][w := x];
    }
  }

  lemma {:induction false} CountAtLeast<T(!new)>(s: seq<T>, w: nat, f: T -> bool)
    requires w < |s| && f(s[w])
    ensures Count(s, f) >= 1
  {
    if w < |s| - 1 {
      CountAtLeast(s[..|s| - 1], w, f);
    }
  }

  lemma {:induction false} CountTwo<T(!new)>(s: seq<T>, v: nat, w: nat, f: T -> bool)
    requires v < w < |s| && f(s[v]) && f(s[w])
    ensures Count(s, f) >= 2
  {
    if w < |s| - 1 {
      CountTwo(s[..|s| - 1], v, w, f);
    } else {
      CountAtLeast(s[..w], v, f);
    }
  }

  lemma {:induction false} CountNone<T(!new)>(s: seq<T>, f: T -> bool)
    requires forall x :: x in s ==> !f(x)
    ensures Count(s, f) == 0
  {
    if s != [] {
      CountNone(s[..|s| - 1], f);
    }
  }

  /** Slots of a ring that are less than one lap apart are different. */
  lemma LapsDiffer(i: nat, h: nat, cap: nat)
    requires i < h < i + cap
    ensures i % cap != h % cap
  {
    var q := h / cap - i / cap;
    assert i == (i / cap) * cap + i % cap && h == (h / cap) * cap + h % cap;
    assert q * cap == (h - i) - (h % cap - i % cap);
    Multiples(q, cap);
  }

  lemma Multiples(q: int, cap: nat)
    ensures q >= 1 ==> q * cap >= cap
    ensures q <= 0 ==> q * cap <= 0
  {
  }
}

/** Arithmetic on the slots of a circular table of `n` slots. */
module Cyclic {

  /** The slot after `i`, wrapping at the end of the table. */
  function Next(i: nat, n: nat): (r: nat)
    requires i < n
    ensures r < n
  {
    if i + 1 == n then 0 else i + 1
  }

  /** How many steps forward lead from `a` to `b`. */
  function Dist(a: nat, b: nat, n: nat): (d: nat)
    requires a < n && b < n
    ensures d < n
    ensures d == 0 <==> a == b
  {
    if a <= b then b - a else b + n - a
  }

  /** `q` is met strictly before `p` when walking forward from `h`. */
  predicate Before(h: nat, q: nat, p: nat, n: nat)
    requires h < n && q < n && p < n
  {
    Dist(h, q, n) < Dist(h, p, n)
  }

  /** `Next` is `(i + 1)` reduced to the table, as the mask in the source does it. */
  lemma NextIsModulo(i: nat, n: nat)
    requires i < n
    ensures Next(i, n) == (i + 1) % n
  {
    if i + 1 == n {
      assert (i + 1) % n == 0;
    } else {
      assert (i + 1) / n == 0;
    }
  }

  /** The range test of the backward shift: with the hole at `i` and an entry at `j` whose
      home is `k`, the test holds exactly when the walk from `k` to `j` crosses the hole. */
  lemma ShiftTest(i: nat, j: nat, k: nat, n: nat)
    requires i < n && j < n && k < n && i != j
    ensures (if i <= j then k <= i || k > j else k <= i && k > j) <==> Before(k, i, j, n)
  {
  }

  /** A hash into the table. */
  ghost predicate HomeInRange(home: nat -> nat, n: nat) {
    forall r :: home(r) < n
  }

  /** The slots of a table of `n`. */
  ghost function Below(n: nat): (r: set<nat>)
    ensures |r| == n
    ensures forall p :: p in r <==> 0 <= p < n
  {
    if n == 0 then {} else Below(n - 1) + {n - 1}
  }

  lemma SubsetSize(a: set<nat>, b: set<nat>)
    requires a <= b
    ensures |a| <= |b| && (|a| == |b| <==> a == b)
  {
    assert b == a + (b - a);
    assert |b| == |a| + |b - a|;
  }
}

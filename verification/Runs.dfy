/** Executions grouped into maximal same-direction runs with bounded gaps, and the levels a run walks. */
module Runs {

  /** An execution against a resting order: `buy` when it consumes an ask. */
  datatype Exec = Exec(ts: int, buy: bool, price: int, shares: int)

  /** Executions `lo` up to, not including, `hi`. */
  datatype Run = Run(lo: nat, hi: nat)

  /** Execution `i` cannot continue the run of the one before it. */
  predicate Boundary(es: seq<Exec>, gap: int, i: nat)
    requires i < |es|
  {
    i == 0 || es[i].buy != es[i - 1].buy || es[i].ts - es[i - 1].ts > gap
  }

  /** A run starts at a boundary and has none inside. */
  predicate Unbroken(es: seq<Exec>, gap: int, r: Run) {
    && r.lo < r.hi <= |es| && Boundary(es, gap, r.lo)
    && forall i :: r.lo < i < r.hi ==> !Boundary(es, gap, i)
  }

  /** The runs follow one another and together take in the first `n` executions; as the next one starts at a boundary
      each is as long as it can be. */
  ghost predicate Partition(es: seq<Exec>, gap: int, n: nat, rs: seq<Run>)
    requires n <= |es|
    decreases n
  {
    if n == 0 then rs == []
    else
      && rs != [] && rs[|rs| - 1].hi == n && Unbroken(es, gap, rs[|rs| - 1])
      && Partition(es, gap, rs[|rs| - 1].lo, rs[..|rs| - 1])
  }

  /** The run the first `n` executions are in the middle of. */
  function Start(es: seq<Exec>, gap: int, n: nat): (lo: nat)
    requires 0 < n <= |es|
    ensures lo < n
  {
    if Boundary(es, gap, n - 1) then n - 1 else Start(es, gap, n - 1)
  }

  /** The runs closed before it. */
  function Closed(es: seq<Exec>, gap: int, n: nat): seq<Run>
    requires n <= |es|
    decreases n, 0
  {
    if n == 0 then []
    else if n > 1 && Boundary(es, gap, n - 1) then AllRuns(es, gap, n - 1)
    else Closed(es, gap, n - 1)
  }

  function AllRuns(es: seq<Exec>, gap: int, n: nat): seq<Run>
    requires n <= |es|
    decreases n, 1
  {
    if n == 0 then [] else Closed(es, gap, n) + [Run(Start(es, gap, n), n)]
  }

  lemma {:induction false} AllRunsPartition(es: seq<Exec>, gap: int, n: nat)
    requires n <= |es|
    ensures Partition(es, gap, n, AllRuns(es, gap, n))
    ensures 0 < n ==> Unbroken(es, gap, Run(Start(es, gap, n), n)) && Partition(es, gap, Start(es, gap, n), Closed(es, gap, n))
  {
    if n > 0 {
      AllRunsPartition(es, gap, n - 1);
      var rs := AllRuns(es, gap, n);
      assert rs[..|rs| - 1] == Closed(es, gap, n);
    }
  }

  /** There is only one such partition. */
  lemma {:induction false} PartitionUnique(es: seq<Exec>, gap: int, n: nat, a: seq<Run>, b: seq<Run>)
    requires n <= |es| && Partition(es, gap, n, a) && Partition(es, gap, n, b)
    ensures a == b
    decreases n
  {
    if n > 0 {
      var x, y := a[|a| - 1], b[|b| - 1];
      LastAgree(es, gap, x, y);
      PartitionUnique(es, gap, x.lo, a[..|a| - 1], b[..|b| - 1]);
    }
  }

  lemma LastAgree(es: seq<Exec>, gap: int, x: Run, y: Run)
    requires Unbroken(es, gap, x) && Unbroken(es, gap, y) && x.hi == y.hi
    ensures x == y
  {
  }

  lemma {:induction false} Find(es: seq<Exec>, gap: int, n: nat, rs: seq<Run>, i: nat) returns (r: Run)
    requires n <= |es| && Partition(es, gap, n, rs) && i < n
    ensures r in rs && r.lo <= i < r.hi && r.hi <= n && Unbroken(es, gap, r)
    ensures r.hi < n ==> Boundary(es, gap, r.hi)
    decreases n
  {
    r := rs[|rs| - 1];
    if i < r.lo {
      r := Find(es, gap, r.lo, rs[..|rs| - 1], i);
    }
  }

  lemma {:induction false} RunOf(es: seq<Exec>, gap: int, n: nat, rs: seq<Run>, r: Run)
    requires n <= |es| && Partition(es, gap, n, rs) && r in rs
    ensures r.hi <= n && Unbroken(es, gap, r)
    decreases n
  {
    if n > 0 && r != rs[|rs| - 1] {
      RunOf(es, gap, rs[|rs| - 1].lo, rs[..|rs| - 1], r);
    }
  }

  /** A smaller gap cuts wherever a larger one does, so each of its runs lies within one of the larger's. */
  lemma Refines(es: seq<Exec>, small: int, large: int, n: nat, r: Run) returns (big: Run)
    requires small <= large && n <= |es| && r in AllRuns(es, small, n)
    ensures big in AllRuns(es, large, n) && big.lo <= r.lo && r.hi <= big.hi
  {
    AllRunsPartition(es, small, n);
    AllRunsPartition(es, large, n);
    RunOf(es, small, n, AllRuns(es, small, n), r);
    big := Find(es, large, n, AllRuns(es, large, n), r.lo);
    assert big.hi < r.hi ==> Boundary(es, small, big.hi);
  }

  // ---- a gap of exactly the limit ----

  ghost predicate ExactGap(es: seq<Exec>, gap: int, i: nat)
    requires i < |es|
  {
    0 < i && es[i].buy == es[i - 1].buy && es[i].ts - es[i - 1].ts == gap
  }

  lemma {:induction false} SameBoundaries(es: seq<Exec>, one: int, other: int, n: nat)
    requires n <= |es| && forall i :: 0 <= i < n ==> (Boundary(es, one, i) <==> Boundary(es, other, i))
    ensures AllRuns(es, one, n) == AllRuns(es, other, n) && Closed(es, one, n) == Closed(es, other, n)
    ensures 0 < n ==> Start(es, one, n) == Start(es, other, n)
  {
    hide Boundary;
    if n > 0 {
      SameBoundaries(es, one, other, n - 1);
    }
  }

  lemma ExactGapParts(es: seq<Exec>, gap: int, n: nat, i: nat)
    requires i < n <= |es| && ExactGap(es, gap, i)
    ensures AllRuns(es, gap, n) != AllRuns(es, gap - 1, n)
  {
    AllRunsPartition(es, gap, n);
    AllRunsPartition(es, gap - 1, n);
    hide AllRuns, Partition;
    var r := Find(es, gap - 1, n, AllRuns(es, gap - 1, n), i);
    assert Boundary(es, gap - 1, i) && !Boundary(es, gap, i);
    assert r.lo == i && !Unbroken(es, gap, r);
    if AllRuns(es, gap, n) == AllRuns(es, gap - 1, n) {
      RunOf(es, gap, n, AllRuns(es, gap, n), r);
    }
  }

  /** Grouping with every difference strictly below the gap, as for the next smaller gap, gives the same runs exactly
      when no two consecutive executions on one side are exactly the gap apart. */
  lemma StrictGapIff(es: seq<Exec>, gap: int, n: nat)
    requires n <= |es|
    ensures AllRuns(es, gap, n) == AllRuns(es, gap - 1, n) <==> !exists i :: 0 <= i < n && ExactGap(es, gap, i)
  {
    if i :| 0 <= i < n && ExactGap(es, gap, i) {
      hide AllRuns, ExactGap;
      ExactGapParts(es, gap, n, i);
    } else {
      forall i | 0 <= i < n
        ensures Boundary(es, gap, i) <==> Boundary(es, gap - 1, i)
      {
        assert !ExactGap(es, gap, i);
      }
      hide AllRuns, ExactGap, Boundary;
      SameBoundaries(es, gap, gap - 1, n);
    }
  }

  /** Two executions on one side exactly the gap apart are one run. */
  lemma ExactGapContinues(ts: int, gap: int, buy: bool, price: int, shares: int)
    ensures var es := [Exec(ts, buy, price, shares), Exec(ts + gap, buy, price, shares)];
      AllRuns(es, gap, 2) == [Run(0, 2)] && AllRuns(es, gap - 1, 2) == [Run(0, 1), Run(1, 2)]
  {
    var es := [Exec(ts, buy, price, shares), Exec(ts + gap, buy, price, shares)];
    assert !Boundary(es, gap, 1) && Boundary(es, gap - 1, 1);
    assert Start(es, gap, 1) == 0 && Start(es, gap - 1, 1) == 0;
    assert Closed(es, gap, 1) == [] && Closed(es, gap - 1, 1) == [] && AllRuns(es, gap - 1, 1) == [Run(0, 1)];
  }

  // ---- levels ----

  predicate Further(buy: bool, price: int, frontier: int) {
    if buy then price > frontier else price < frontier
  }

  /** The furthest price of a run in its direction. */
  function Frontier(es: seq<Exec>, r: Run): int
    requires r.lo < r.hi <= |es|
    decreases r.hi
  {
    var price := es[r.hi - 1].price;
    if r.hi == r.lo + 1 then price
    else
      var f := Frontier(es, Run(r.lo, r.hi - 1));
      if Further(es[r.lo].buy, price, f) then price else f
  }

  /** How often the frontier moved, counting its first price: what one register can count. */
  function Walked(es: seq<Exec>, r: Run): (n: nat)
    requires r.lo < r.hi <= |es|
    ensures n >= 1
    decreases r.hi
  {
    if r.hi == r.lo + 1 then 1
    else
      var front := Run(r.lo, r.hi - 1);
      Walked(es, front) + if Further(es[r.lo].buy, es[r.hi - 1].price, Frontier(es, front)) then 1 else 0
  }

  function Prices(es: seq<Exec>, r: Run): set<int>
    requires r.lo <= r.hi <= |es|
    decreases r.hi
  {
    if r.hi == r.lo then {} else Prices(es, Run(r.lo, r.hi - 1)) + {es[r.hi - 1].price}
  }

  function Shares(es: seq<Exec>, r: Run): int
    requires r.lo <= r.hi <= |es|
    decreases r.hi
  {
    if r.hi == r.lo then 0 else Shares(es, Run(r.lo, r.hi - 1)) + es[r.hi - 1].shares
  }

  /** The frontier is one of the run's prices and none is further. */
  lemma {:induction false} FrontierIsFurthest(es: seq<Exec>, r: Run)
    requires r.lo < r.hi <= |es|
    ensures Frontier(es, r) in Prices(es, r)
    ensures forall x :: x in Prices(es, r) ==> !Further(es[r.lo].buy, x, Frontier(es, r))
    decreases r.hi
  {
    if r.hi > r.lo + 1 {
      FrontierIsFurthest(es, Run(r.lo, r.hi - 1));
    }
  }

  /** Execution `i` of the run trades a price the run has not seen without moving its frontier: where one register
      and a set of prices count differently. */
  predicate Hidden(es: seq<Exec>, lo: nat, i: nat)
    requires lo < i < |es|
  {
    es[i].price !in Prices(es, Run(lo, i)) && !Further(es[lo].buy, es[i].price, Frontier(es, Run(lo, i)))
  }

  /** The frontier count never exceeds the distinct-price count, and equals it exactly when no execution trades a new
      price behind the frontier. */
  lemma {:induction false} WalkedVersusPrices(es: seq<Exec>, r: Run)
    requires r.lo < r.hi <= |es|
    ensures Walked(es, r) <= |Prices(es, r)|
    ensures Walked(es, r) == |Prices(es, r)| <==> NoneHidden(es, r)
    decreases r.hi
  {
    var last := r.hi - 1;
    var front := Run(r.lo, last);
    OneMorePrice(Prices(es, front), es[last].price);
    if r.hi > r.lo + 1 {
      WalkedVersusPrices(es, front);
      FrontierIsFurthest(es, front);
      NoneHiddenLast(es, r);
      hide NoneHidden;
    }
  }

  lemma OneMorePrice(s: set<int>, x: int)
    ensures |s + {x}| == |s| + if x in s then 0 else 1
  {
    if x in s {
      assert s + {x} == s;
    }
  }

  ghost predicate NoneHidden(es: seq<Exec>, r: Run)
    requires r.hi <= |es|
  {
    forall i :: r.lo < i < r.hi ==> !Hidden(es, r.lo, i)
  }

  lemma NoneHiddenLast(es: seq<Exec>, r: Run)
    requires r.lo + 1 < r.hi <= |es|
    ensures NoneHidden(es, r) <==> NoneHidden(es, Run(r.lo, r.hi - 1)) && !Hidden(es, r.lo, r.hi - 1)
  {
    hide Hidden;
  }

  /** A run whose prices never step back in its direction, as a marketable order walking the book. */
  predicate Monotone(es: seq<Exec>, r: Run)
    requires r.hi <= |es|
  {
    forall i :: r.lo < i < r.hi ==> !Further(es[r.lo].buy, es[i - 1].price, es[i].price)
  }

  lemma {:induction false} MonotoneFrontier(es: seq<Exec>, r: Run)
    requires r.lo < r.hi <= |es| && Monotone(es, r)
    ensures Frontier(es, r) == es[r.hi - 1].price
    decreases r.hi
  {
    if r.hi > r.lo + 1 {
      MonotoneFrontier(es, Run(r.lo, r.hi - 1));
    }
  }

  /** On such a run the one register counts the distinct prices. */
  lemma MonotoneWalksAll(es: seq<Exec>, r: Run)
    requires r.lo < r.hi <= |es| && Monotone(es, r)
    ensures Walked(es, r) == |Prices(es, r)|
  {
    WalkedVersusPrices(es, r);
    hide Walked, Prices, Frontier;
    forall i | r.lo < i < r.hi
      ensures !Hidden(es, r.lo, i)
    {
      var front := Run(r.lo, i);
      assert Monotone(es, front);
      MonotoneFrontier(es, front);
      FrontierIsFurthest(es, front);
    }
  }
}

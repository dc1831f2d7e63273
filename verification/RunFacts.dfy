/** What the runs of executions and the reported sweeps are, on the executions' own numbers. */
module RunFacts {
  import opened Runs
  import opened SweepDetector

  // ---- which executions share a run ----

  lemma {:induction false} PartitionMeets(es: seq<Exec>, gap: int, n: nat, rs: seq<Run>, a: Run, b: Run, i: nat)
    requires n <= |es| && Partition(es, gap, n, rs) && a in rs && b in rs
    requires a.lo <= i < a.hi && b.lo <= i < b.hi
    ensures a == b
    decreases n
  {
    if n > 0 {
      var last := rs[|rs| - 1];
      if a != last {
        RunOf(es, gap, last.lo, rs[..|rs| - 1], a);
      }
      if b != last {
        RunOf(es, gap, last.lo, rs[..|rs| - 1], b);
      }
      if a != last && b != last {
        PartitionMeets(es, gap, last.lo, rs[..|rs| - 1], a, b, i);
      }
    }
  }

  /** Every execution is in exactly one run, and it shares that run with the one before it exactly if both are on one
      side and no more than the gap apart. */
  lemma SharesRunIff(es: seq<Exec>, gap: int, n: nat, i: nat)
    requires i < n <= |es|
    ensures exists r :: r in AllRuns(es, gap, n) && r.lo <= i < r.hi
    ensures forall a, b ::
      a in AllRuns(es, gap, n) && b in AllRuns(es, gap, n) && a.lo <= i < a.hi && b.lo <= i < b.hi ==> a == b
    ensures 0 < i ==>
      ((exists r :: r in AllRuns(es, gap, n) && r.lo <= i - 1 && i < r.hi)
       <==> es[i].buy == es[i - 1].buy && es[i].ts - es[i - 1].ts <= gap)
  {
    AllRunsPartition(es, gap, n);
    var rs := AllRuns(es, gap, n);
    hide AllRuns, Partition;
    var r := Find(es, gap, n, rs, i);
    forall a, b | a in rs && b in rs && a.lo <= i < a.hi && b.lo <= i < b.hi
      ensures a == b
    {
      PartitionMeets(es, gap, n, rs, a, b, i);
    }
    hide Unbroken;
    if s :| s in rs && s.lo <= i - 1 && i < s.hi {
      Continues(es, gap, n, rs, s, i);
    }
    if 0 < i {
      Continues(es, gap, n, rs, r, i);
    }
  }

  lemma Continues(es: seq<Exec>, gap: int, n: nat, rs: seq<Run>, r: Run, i: nat)
    requires n <= |es| && Partition(es, gap, n, rs) && r in rs && r.lo <= i < r.hi && 0 < i < |es|
    ensures r.lo < i <==> es[i].buy == es[i - 1].buy && es[i].ts - es[i - 1].ts <= gap
  {
    RunOf(es, gap, n, rs, r);
    assert Boundary(es, gap, i) <==> r.lo == i;
  }

  // ---- frontier, levels and shares of a run ----

  /** Execution `i` goes further than every earlier one of the run. */
  predicate NewExtreme(es: seq<Exec>, lo: nat, i: nat)
    requires lo <= i < |es|
  {
    forall j :: lo <= j < i ==> if es[lo].buy then es[j].price < es[i].price else es[i].price < es[j].price
  }

  /** A buying run's frontier is its highest price, a selling run's its lowest. */
  lemma {:induction false} FrontierIsExtreme(es: seq<Exec>, r: Run)
    requires r.lo < r.hi <= |es|
    ensures exists i :: r.lo <= i < r.hi && es[i].price == Frontier(es, r)
    ensures forall i :: r.lo <= i < r.hi ==>
      if es[r.lo].buy then es[i].price <= Frontier(es, r) else Frontier(es, r) <= es[i].price
    decreases r.hi
  {
    if r.hi > r.lo + 1 {
      FrontierIsExtreme(es, Run(r.lo, r.hi - 1));
    } else {
      assert es[r.lo].price == Frontier(es, r);
    }
  }

  lemma ExtremeIff(es: seq<Exec>, lo: nat, i: nat)
    requires lo < i < |es|
    ensures NewExtreme(es, lo, i) <==> Further(es[lo].buy, es[i].price, Frontier(es, Run(lo, i)))
  {
    hide Frontier;
    FrontierIsExtreme(es, Run(lo, i));
  }

  ghost function Extremes(es: seq<Exec>, r: Run): set<nat>
    requires r.lo <= r.hi <= |es|
  {
    set i | r.lo <= i < r.hi && NewExtreme(es, r.lo, i)
  }

  /** The levels a run walks are its executions that go further than all before them. */
  lemma {:induction false} WalkedCounts(es: seq<Exec>, r: Run)
    requires r.lo < r.hi <= |es|
    ensures Walked(es, r) == |Extremes(es, r)|
    decreases r.hi
  {
    if r.hi == r.lo + 1 {
      assert Extremes(es, r) == {r.lo};
    } else {
      hide Extremes, Walked;
      var i := r.hi - 1;
      var front := Run(r.lo, i);
      OneMoreExec(es, r.lo, i);
      WalkedCounts(es, front);
      ExtremeIff(es, r.lo, i);
      ExtremesNext(es, r);
      hide NewExtreme, Frontier;
    }
  }

  lemma ExtremesNext(es: seq<Exec>, r: Run)
    requires r.lo + 1 < r.hi <= |es|
    ensures |Extremes(es, r)|
         == |Extremes(es, Run(r.lo, r.hi - 1))| + if NewExtreme(es, r.lo, r.hi - 1) then 1 else 0
  {
    hide NewExtreme;
    assert Extremes(es, r)
        == Extremes(es, Run(r.lo, r.hi - 1)) + if NewExtreme(es, r.lo, r.hi - 1) then {r.hi - 1} else {};
  }

  /** The set of prices a run trades. */
  lemma {:induction false} PricesAre(es: seq<Exec>, r: Run, x: int)
    requires r.lo <= r.hi <= |es|
    ensures x in Prices(es, r) <==> exists i :: r.lo <= i < r.hi && es[i].price == x
    decreases r.hi
  {
    if r.lo < r.hi {
      PricesAre(es, Run(r.lo, r.hi - 1), x);
      assert es[r.hi - 1].price == x ==> r.lo <= r.hi - 1 < r.hi;
    }
  }

  /** A run's shares are those of its parts, down to single executions. */
  lemma {:induction false} SharesSplit(es: seq<Exec>, lo: nat, mid: nat, hi: nat)
    requires lo <= mid <= hi <= |es|
    ensures Shares(es, Run(lo, hi)) == Shares(es, Run(lo, mid)) + Shares(es, Run(mid, hi))
    ensures lo < |es| ==> Shares(es, Run(lo, lo + 1)) == es[lo].shares
    decreases hi
  {
    assert Shares(es, Run(lo, lo)) == 0;
    if mid < hi {
      SharesSplit(es, lo, mid, hi - 1);
    } else {
      assert Shares(es, Run(mid, hi)) == 0;
    }
  }

  // ---- the reports ----

  /** Sweep `s` reports run `r`: its side, when it ended and how long it took, the levels walked, the shares taken. */
  ghost predicate Reports(es: seq<Exec>, r: Run, s: Sweep)
    requires r.lo < r.hi <= |es|
  {
    && s.buy == es[r.lo].buy && s.end == es[r.hi - 1].ts && s.end - s.duration == es[r.lo].ts
    && s.levels == |Extremes(es, r)| && s.shares == Shares(es, r)
  }

  lemma LastReport(es: seq<Exec>, r: Run)
    requires r.lo < r.hi <= |es|
    ensures Reports(es, r, SweepOf(es, r)) && Walked(es, r) == |Extremes(es, r)|
    ensures GroupOf(es, r) == Group(es[r.hi - 1].ts, es[r.lo].buy, |Extremes(es, r)|)
  {
    WalkedCounts(es, r);
  }

  /** The last run's part in every report. */
  lemma OneMoreReported(es: seq<Exec>, rs: seq<Run>, minLevels: int)
    requires Within(es, rs) && rs != []
    ensures var n, r := |rs| - 1, rs[|rs| - 1];
      && r.lo < r.hi <= |es| && Within(es, rs[..n])
      && Groups(es, rs) == Groups(es, rs[..n]) + [Group(es[r.hi - 1].ts, es[r.lo].buy, |Extremes(es, r)|)]
      && Miscounted(es, rs) == Miscounted(es, rs[..n]) + (if |Prices(es, r)| != |Extremes(es, r)| then 1 else 0)
      && Sweeps(es, rs, minLevels)
         == Sweeps(es, rs[..n], minLevels) + (if |Extremes(es, r)| >= minLevels then [SweepOf(es, r)] else [])
      && Reports(es, r, SweepOf(es, r))
  {
    hide Walked, Prices, Extremes, GroupOf, SweepOf, Reports;
    var r := rs[|rs| - 1];
    LastReport(es, r);
  }

  /** The sweeps report, one each and in order, exactly the runs that walk enough levels. */
  lemma {:induction false} SweepsReport(es: seq<Exec>, rs: seq<Run>, minLevels: int) returns (ks: seq<nat>)
    requires Within(es, rs)
    ensures |ks| == |Sweeps(es, rs, minLevels)|
    ensures forall i :: 0 <= i < |ks| ==> ks[i] < |rs| && Reports(es, rs[ks[i]], Sweeps(es, rs, minLevels)[i])
    ensures forall i, j :: 0 <= i < j < |ks| ==> ks[i] < ks[j]
    ensures forall k :: 0 <= k < |rs| ==> (k in ks <==> |Extremes(es, rs[k])| >= minLevels)
  {
    hide Extremes, Reports, SweepOf, Sweeps;
    ks := [];
    if rs == [] {
      NoGroups(es);
    } else {
      var n := |rs| - 1;
      OneMoreReported(es, rs, minLevels);
      ks := SweepsReport(es, rs[..n], minLevels);
      if |Extremes(es, rs[n])| >= minLevels {
        ks := ks + [n];
      }
    }
  }

  /** The offline groups: one for each run, with its end, side and levels. */
  lemma {:induction false} GroupsReport(es: seq<Exec>, rs: seq<Run>)
    requires Within(es, rs)
    ensures |Groups(es, rs)| == |rs|
    ensures forall k :: 0 <= k < |rs| ==>
      Groups(es, rs)[k] == Group(es[rs[k].hi - 1].ts, es[rs[k].lo].buy, |Extremes(es, rs[k])|)
  {
    hide Extremes, Groups, Reports, SweepOf;
    if rs == [] {
      NoGroups(es);
    } else {
      OneMoreReported(es, rs, 0);
      GroupsReport(es, rs[..|rs| - 1]);
    }
  }

  ghost function MiscountedRuns(es: seq<Exec>, rs: seq<Run>): set<nat>
    requires Within(es, rs)
  {
    set k | 0 <= k < |rs| && |Prices(es, rs[k])| != |Extremes(es, rs[k])|
  }

  /** The other figure counts the runs whose distinct prices are not as many as the levels walked. */
  lemma {:induction false} MiscountedCounts(es: seq<Exec>, rs: seq<Run>)
    requires Within(es, rs)
    ensures Miscounted(es, rs) == |MiscountedRuns(es, rs)|
  {
    if rs == [] {
      NoGroups(es);
      assert MiscountedRuns(es, rs) == {};
    } else {
      hide Extremes, Prices, Miscounted, Reports, SweepOf, Within, MiscountedRuns;
      var n := |rs| - 1;
      OneMoreReported(es, rs, 0);
      MiscountedCounts(es, rs[..n]);
      MiscountedNext(es, rs, n);
    }
  }

  lemma MiscountedNext(es: seq<Exec>, rs: seq<Run>, n: nat)
    requires Within(es, rs) && |rs| == n + 1
    ensures Within(es, rs[..n]) && |MiscountedRuns(es, rs)|
         == |MiscountedRuns(es, rs[..n])| + if |Prices(es, rs[n])| != |Extremes(es, rs[n])| then 1 else 0
  {
    hide Prices, Extremes;
    forall k | 0 <= k < n
      ensures rs[..n][k] == rs[k]
    {
    }
    assert MiscountedRuns(es, rs)
        == MiscountedRuns(es, rs[..n]) + if |Prices(es, rs[n])| != |Extremes(es, rs[n])| then {n} else {};
  }
}

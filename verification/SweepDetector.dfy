/** The online sweep detector and the offline grouping, against the partition into runs. */
module SweepDetector {
  import opened Runs

  datatype Sweep = Sweep(end: int, buy: bool, levels: nat, shares: int, duration: int)
  datatype Group = Group(end: int, buy: bool, levels: nat)

  predicate Within(es: seq<Exec>, rs: seq<Run>) {
    forall k :: 0 <= k < |rs| ==> rs[k].lo < rs[k].hi <= |es|
  }

  function SweepOf(es: seq<Exec>, r: Run): Sweep
    requires r.lo < r.hi <= |es|
  {
    Sweep(es[r.hi - 1].ts, es[r.lo].buy, Walked(es, r), Shares(es, r), es[r.hi - 1].ts - es[r.lo].ts)
  }

  function GroupOf(es: seq<Exec>, r: Run): Group
    requires r.lo < r.hi <= |es|
  {
    Group(es[r.hi - 1].ts, es[r.lo].buy, Walked(es, r))
  }

  /** The runs long enough to report. */
  function Sweeps(es: seq<Exec>, rs: seq<Run>, minLevels: int): seq<Sweep>
    requires Within(es, rs)
  {
    if rs == [] then []
    else
      var r := rs[|rs| - 1];
      Sweeps(es, rs[..|rs| - 1], minLevels) + if Walked(es, r) >= minLevels then [SweepOf(es, r)] else []
  }

  function Groups(es: seq<Exec>, rs: seq<Run>): seq<Group>
    requires Within(es, rs)
  {
    if rs == [] then [] else Groups(es, rs[..|rs| - 1]) + [GroupOf(es, rs[|rs| - 1])]
  }

  /** Runs whose frontier count differs from their distinct prices. */
  function Miscounted(es: seq<Exec>, rs: seq<Run>): nat
    requires Within(es, rs)
  {
    if rs == [] then 0
    else
      var r := rs[|rs| - 1];
      Miscounted(es, rs[..|rs| - 1]) + if |Prices(es, r)| != Walked(es, r) then 1 else 0
  }

  lemma {:induction false} PartitionWithin(es: seq<Exec>, gap: int, n: nat, rs: seq<Run>)
    requires n <= |es| && Partition(es, gap, n, rs)
    ensures Within(es, rs)
    decreases n
  {
    if n > 0 {
      PartitionWithin(es, gap, rs[|rs| - 1].lo, rs[..|rs| - 1]);
    }
  }

  lemma RunsWithin(es: seq<Exec>, gap: int, n: nat)
    requires n <= |es|
    ensures Within(es, AllRuns(es, gap, n)) && Within(es, Closed(es, gap, n))
  {
    AllRunsPartition(es, gap, n);
    PartitionWithin(es, gap, n, AllRuns(es, gap, n));
    if n > 0 {
      PartitionWithin(es, gap, Start(es, gap, n), Closed(es, gap, n));
    }
  }

  lemma {:induction false} SameSide(es: seq<Exec>, gap: int, n: nat)
    requires 0 < n <= |es|
    ensures es[Start(es, gap, n)].buy == es[n - 1].buy
  {
    if !Boundary(es, gap, n - 1) {
      SameSide(es, gap, n - 1);
    }
  }

  /** What one more execution does to the partition. */
  lemma OneMoreRun(es: seq<Exec>, gap: int, i: nat)
    requires i < |es|
    ensures Within(es, Closed(es, gap, i + 1))
    ensures 0 < i ==> es[Start(es, gap, i)].buy == es[i - 1].buy
    ensures Boundary(es, gap, i) ==> Start(es, gap, i + 1) == i
    ensures Boundary(es, gap, i) ==>
      Closed(es, gap, i + 1) == if i == 0 then [] else Closed(es, gap, i) + [Run(Start(es, gap, i), i)]
    ensures !Boundary(es, gap, i) ==> Start(es, gap, i + 1) == Start(es, gap, i) && Closed(es, gap, i + 1) == Closed(es, gap, i)
  {
    RunsWithin(es, gap, i + 1);
    hide Within;
    if i == 0 {
      assert Closed(es, gap, 0) == [];
    } else {
      SameSide(es, gap, i);
    }
  }

  lemma RunsSnoc(es: seq<Exec>, rs: seq<Run>, r: Run, minLevels: int)
    requires Within(es, rs) && r.lo < r.hi <= |es|
    ensures Within(es, rs + [r])
    ensures Groups(es, rs + [r]) == Groups(es, rs) + [GroupOf(es, r)]
    ensures Sweeps(es, rs + [r], minLevels)
         == Sweeps(es, rs, minLevels) + if Walked(es, r) >= minLevels then [SweepOf(es, r)] else []
    ensures Miscounted(es, rs + [r]) == Miscounted(es, rs) + if |Prices(es, r)| != Walked(es, r) then 1 else 0
  {
    hide Walked, Prices, SweepOf, GroupOf;
    assert (rs + [r])[..|rs|] == rs;
  }

  /** `runs_for_gap`: one group for each run of the partition, in order. */
  method RunsForGap(es: seq<Exec>, gap: int) returns (out: seq<Group>)
    ensures Within(es, AllRuns(es, gap, |es|)) && out == Groups(es, AllRuns(es, gap, |es|))
  {
    RunsWithin(es, gap, |es|);
    FirstRun(es, gap);
    hide Walked, Frontier, Prices, Within, Groups, Sweeps, Start, Closed;
    out := [];
    var open, buy, frontier, lvl: nat, last := false, false, 0, 0, 0;
    NoGroups(es);
    for i := 0 to |es|
      invariant Within(es, Closed(es, gap, i)) && out == Groups(es, Closed(es, gap, i))
      invariant open == (0 < i)
      invariant 0 < i ==>
        var r := Run(Start(es, gap, i), i);
        buy == es[r.lo].buy && frontier == Frontier(es, r) && lvl == Walked(es, r) && last == es[i - 1].ts
    {
      var e := es[i];
      OneMoreRun(es, gap, i);
      if open && (e.buy != buy || e.ts - last > gap) {
        RunsSnoc(es, Closed(es, gap, i), Run(Start(es, gap, i), i), 0);
        out := out + [Group(last, buy, lvl)];
        open := false;
      }
      if !open {
        open, buy, frontier, lvl := true, e.buy, e.price, 1;
        OneExec(es, i);
      } else {
        OneMoreExec(es, Start(es, gap, i), i);
        if (buy && e.price > frontier) || (!buy && e.price < frontier) {
          lvl := lvl + 1;
          frontier := e.price;
        }
      }
      last := e.ts;
    }
    if open {
      RunsSnoc(es, Closed(es, gap, |es|), Run(Start(es, gap, |es|), |es|), 0);
      out := out + [Group(last, buy, lvl)];
    }
  }

  lemma FirstRun(es: seq<Exec>, gap: int)
    ensures Closed(es, gap, 0) == []
  {
  }

  lemma NoGroups(es: seq<Exec>)
    ensures Within(es, []) && Groups(es, []) == [] && Miscounted(es, []) == 0
    ensures forall m :: Sweeps(es, [], m) == []
  {
  }

  lemma OneExec(es: seq<Exec>, i: nat)
    requires i < |es|
    ensures var r := Run(i, i + 1);
      && Walked(es, r) == 1 && Frontier(es, r) == es[i].price && Prices(es, r) == {es[i].price}
      && Shares(es, r) == es[i].shares
  {
    assert Prices(es, Run(i, i)) == {};
  }

  lemma OneMoreExec(es: seq<Exec>, lo: nat, i: nat)
    requires lo < i < |es|
    ensures var r, s, e := Run(lo, i), Run(lo, i + 1), es[i];
      var further := Further(es[lo].buy, e.price, Frontier(es, r));
      && Walked(es, s) == Walked(es, r) + (if further then 1 else 0)
      && Frontier(es, s) == (if further then e.price else Frontier(es, r))
      && Prices(es, s) == Prices(es, r) + {e.price} && Shares(es, s) == Shares(es, r) + e.shares
  {
  }

  /** The detector of `dump_sweep`, fed one execution at a time. */
  class Detector {
    const minLevels: int
    const gap: int
    var dir: int
    var levels: set<int>
    var lvlCnt: nat
    var frontier: int
    var shares: int
    var start: int
    var last: int
    var sweeps: seq<Sweep>
    var nonMono: nat

    constructor (minLevels: int, gap: int, ghost es: seq<Exec>)
      ensures this.minLevels == minLevels && this.gap == gap && Sees(es, 0)
    {
      this.minLevels, this.gap := minLevels, gap;
      dir, levels, lvlCnt, frontier, shares, start, last := 0, {}, 0, 0, 0, 0, 0;
      sweeps, nonMono := [], 0;
    }

    /** The runs closed so far are reported. */
    ghost predicate Reported(es: seq<Exec>, rs: seq<Run>)
      reads this`sweeps, this`nonMono
    {
      Within(es, rs) && sweeps == Sweeps(es, rs, minLevels) && nonMono == Miscounted(es, rs)
    }

    ghost predicate Idle(es: seq<Exec>, rs: seq<Run>)
      reads this
    {
      dir == 0 && levels == {} && lvlCnt == 0 && shares == 0 && Reported(es, rs)
    }

    /** In the middle of run `r`. */
    ghost predicate Running(es: seq<Exec>, rs: seq<Run>, r: Run)
      requires r.lo < r.hi <= |es|
      reads this
    {
      && dir == (if es[r.lo].buy then 1 else -1) && levels == Prices(es, r) && lvlCnt == Walked(es, r)
      && frontier == Frontier(es, r) && shares == Shares(es, r) && start == es[r.lo].ts && last == es[r.hi - 1].ts
      && Reported(es, rs)
    }

    /** The state after the first `n` executions. */
    ghost predicate Sees(es: seq<Exec>, n: nat)
      requires n <= |es|
      reads this
    {
      if n == 0 then Idle(es, []) else Running(es, Closed(es, gap, n), Run(Start(es, gap, n), n))
    }

    /** After `n` executions: the run under way, if there is one, joins the closed ones. */
    method CloseRun(ghost es: seq<Exec>, ghost n: nat)
      requires n <= |es| && Sees(es, n)
      modifies this
      ensures Idle(es, AllRuns(es, gap, n))
    {
      hide Walked, Frontier, Prices, Shares, Within, Sweeps, Miscounted, Closed, Start;
      if n > 0 {
        RunsSnoc(es, Closed(es, gap, n), Run(Start(es, gap, n), n), minLevels);
      }
      if dir != 0 {
        if |levels| != lvlCnt {
          nonMono := nonMono + 1;
        }
        if lvlCnt >= minLevels {
          sweeps := sweeps + [Sweep(last, dir > 0, lvlCnt, shares, last - start)];
        }
      }
      dir, levels, lvlCnt, shares := 0, {}, 0, 0;
    }

    method OnExec(ghost es: seq<Exec>, ghost i: nat, ts: int, d: int, price: int, delta: int)
      requires i < |es| && es[i] == Exec(ts, d == 1, price, delta) && (d == 1 || d == -1)
      requires Sees(es, i)
      modifies this
      ensures Sees(es, i + 1)
    {
      hide Walked, Frontier, Prices, Shares, Within, Sweeps, Miscounted, Reported, Start, Closed;
      OneMoreRun(es, gap, i);
      if dir != 0 && (d != dir || ts - last > gap) {
        CloseRun(es, i);
      }
      ghost var lo := Start(es, gap, i + 1);
      if dir == 0 {
        dir := d;
        start := ts;
        frontier := price;
        lvlCnt := 1;
        OneExec(es, i);
        assert levels + {price} == {price};
      } else {
        OneMoreExec(es, lo, i);
        if (d > 0 && price > frontier) || (d < 0 && price < frontier) {
          lvlCnt := lvlCnt + 1;
          frontier := price;
        }
      }
      levels := levels + {price};
      shares := shares + delta;
      last := ts;
      assert Running(es, Closed(es, gap, i + 1), Run(lo, i + 1));
    }
  }

  /** The whole run: each reported sweep is a run of the partition with enough levels, and each such run is
      reported, in order; the other count is of the runs a set of prices would count differently. */
  method Detect(es: seq<Exec>, minLevels: int, gap: int) returns (sweeps: seq<Sweep>, nonMono: nat)
    ensures Within(es, AllRuns(es, gap, |es|))
    ensures sweeps == Sweeps(es, AllRuns(es, gap, |es|), minLevels)
    ensures nonMono == Miscounted(es, AllRuns(es, gap, |es|))
  {
    hide Within, Sweeps, Miscounted;
    var t := new Detector(minLevels, gap, es);
    RunsWithin(es, gap, |es|);
    NoGroups(es);
    for i := 0 to |es|
      invariant t.gap == gap && t.minLevels == minLevels && t.Sees(es, i)
    {
      var e := es[i];
      t.OnExec(es, i, e.ts, if e.buy then 1 else -1, e.price, e.shares);
    }
    t.CloseRun(es, |es|);
    sweeps, nonMono := t.sweeps, t.nonMono;
  }

  function Long(gs: seq<Group>, minLevels: int): seq<Group> {
    if gs == [] then []
    else
      var g := gs[|gs| - 1];
      Long(gs[..|gs| - 1], minLevels) + if g.levels >= minLevels then [g] else []
  }

  function AsGroups(sweeps: seq<Sweep>): seq<Group> {
    if sweeps == [] then []
    else
      var s := sweeps[|sweeps| - 1];
      AsGroups(sweeps[..|sweeps| - 1]) + [Group(s.end, s.buy, s.levels)]
  }

  /** The detector's sweeps are the offline groups with enough levels. */
  lemma {:induction false} SweepsAreLongGroups(es: seq<Exec>, rs: seq<Run>, minLevels: int)
    requires Within(es, rs)
    ensures AsGroups(Sweeps(es, rs, minLevels)) == Long(Groups(es, rs), minLevels)
  {
    if rs != [] {
      var front, r := rs[..|rs| - 1], rs[|rs| - 1];
      SweepsAreLongGroups(es, front, minLevels);
      var ss := Sweeps(es, front, minLevels);
      assert (ss + [SweepOf(es, r)])[..|ss|] == ss;
      assert ss + [] == ss;
      var gs := Groups(es, rs);
      assert gs[..|gs| - 1] == Groups(es, front);
    }
  }
}

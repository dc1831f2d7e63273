/** The sweep tool on a feed: the executions of the tracked symbol's orders, and the detector fed with them. */
module SweepFeed {
  import opened Itch
  import opened Levels
  import opened BookModel
  import opened MinMax
  import opened Runs
  import opened SweepDetector

  /** An execution of a live order, at the order's price, never for more than it still has; consuming an ask is a
      buy. */
  ghost function ExecOf(m: Orders, msg: Msg): seq<Exec> {
    if msg.Reduce? && msg.exec && msg.ref in m
    then [Exec(msg.ts, !m[msg.ref].buy, m[msg.ref].price, Min(msg.shares, m[msg.ref].qty))]
    else []
  }

  ghost function Execs(loc: nat, msgs: seq<Msg>): seq<Exec> {
    if msgs == [] then []
    else
      var front := msgs[..|msgs| - 1];
      Execs(loc, front) + ExecOf(After(loc, front), msgs[|msgs| - 1])
  }

  lemma {:induction false} ExecsPrefix(loc: nat, msgs: seq<Msg>, k: nat)
    requires k <= |msgs|
    ensures Execs(loc, msgs[..k]) <= Execs(loc, msgs)
  {
    if k < |msgs| {
      assert msgs[..|msgs| - 1][..k] == msgs[..k];
      ExecsPrefix(loc, msgs[..|msgs| - 1], k);
    } else {
      assert msgs[..k] == msgs;
    }
  }

  lemma NextExec(loc: nat, msgs: seq<Msg>, k: nat)
    requires k < |msgs|
    ensures var e := ExecOf(After(loc, msgs[..k]), msgs[k]);
      && Execs(loc, msgs[..k + 1]) == Execs(loc, msgs[..k]) + e
      && After(loc, msgs[..k + 1]) == Step(After(loc, msgs[..k]), loc, msgs[k])
      && |Execs(loc, msgs[..k])| + |e| <= |Execs(loc, msgs)|
      && (e != [] ==> Execs(loc, msgs)[|Execs(loc, msgs[..k])|] == e[0])
  {
    hide ExecOf, Step;
    assert msgs[..k + 1][..k] == msgs[..k];
    ExecsPrefix(loc, msgs, k + 1);
  }

  /** `dump_sweep.main`: the orders map and the detector in one pass; the sweeps are those of the feed's executions. */
  method DumpSweep(loc: nat, msgs: seq<Msg>, minLevels: int, gap: int) returns (sweeps: seq<Sweep>, nonMono: nat)
    ensures var es := Execs(loc, msgs);
      && Within(es, AllRuns(es, gap, |es|)) && sweeps == Sweeps(es, AllRuns(es, gap, |es|), minLevels)
      && nonMono == Miscounted(es, AllRuns(es, gap, |es|))
  {
    hide Within, Sweeps, Miscounted, Execs, After;
    ghost var es := Execs(loc, msgs);
    var t := new Detector(minLevels, gap, es);
    var orders: Orders := map[];
    RunsWithin(es, gap, |es|);
    NoGroups(es);
    NoMessages(loc);
    for k := 0 to |msgs|
      invariant t.gap == gap && t.minLevels == minLevels && orders == After(loc, msgs[..k])
      invariant |Execs(loc, msgs[..k])| <= |es| && t.Sees(es, |Execs(loc, msgs[..k])|)
    {
      NextExec(loc, msgs, k);
      match msgs[k]
      case Add(_, l, _, ref, buy, shares, price) =>
        if l == loc {
          orders := orders[ref := Order(buy, price, shares)];
        }
      case Reduce(ts, _, ref, shares, exec) =>
        if ref in orders {
          var o := orders[ref];
          var delta := Min(shares, o.qty);
          if o.qty - shares <= 0 {
            orders := orders - {ref};
          } else {
            orders := orders[ref := o.(qty := o.qty - shares)];
          }
          if exec {
            t.OnExec(es, |Execs(loc, msgs[..k])|, ts, if o.buy then -1 else 1, o.price, delta);
          }
        }
      case Delete(_, _, ref) =>
        orders := orders - {ref};
      case Replace(_, _, ref, newRef, shares, price) =>
        if ref in orders {
          var buy := orders[ref].buy;
          orders := orders - {ref};
          orders := orders[newRef := Order(buy, price, shares)];
        }
      case _ =>
    }
    assert msgs[..|msgs|] == msgs;
    t.CloseRun(es, |es|);
    sweeps, nonMono := t.sweeps, t.nonMono;
  }

  lemma NoMessages(loc: nat)
    ensures Execs(loc, []) == [] && After(loc, []) == map[]
  {
  }

  // ---- executions against what was posted ----

  /** Shares ever added at a side and price, by adds and by replaces. */
  ghost function Posted(loc: nat, msgs: seq<Msg>, buy: bool, price: nat): nat {
    if msgs == [] then 0
    else
      var front, msg := msgs[..|msgs| - 1], msgs[|msgs| - 1];
      Posted(loc, front, buy, price) + PostedBy(After(loc, front), loc, msg, buy, price)
  }

  ghost function PostedBy(m: Orders, loc: nat, msg: Msg, buy: bool, price: nat): nat {
    match msg
    case Add(_, l, _, _, b, shares, p) => if l == loc then Share(Order(b, p, shares), buy, price) else 0
    case Replace(_, _, ref, _, shares, p) => if ref in m then Share(Order(m[ref].buy, p, shares), buy, price) else 0
    case _ => 0
  }

  /** Shares executed against orders of a side at a price. */
  function Executed(es: seq<Exec>, buy: bool, price: nat): int {
    if es == [] then 0
    else
      var e := es[|es| - 1];
      Executed(es[..|es| - 1], buy, price) + if e.buy != buy && e.price == price then e.shares else 0
  }

  /** Shares leaving a side and price without trading: cancelled, deleted, replaced, or, should a live ref be posted
      again, displaced. */
  ghost function Withdrawn(loc: nat, msgs: seq<Msg>, buy: bool, price: nat): nat {
    if msgs == [] then 0
    else
      var front, msg := msgs[..|msgs| - 1], msgs[|msgs| - 1];
      Withdrawn(loc, front, buy, price) + WithdrawnBy(After(loc, front), loc, msg, buy, price)
  }

  ghost function WithdrawnBy(m: Orders, loc: nat, msg: Msg, buy: bool, price: nat): nat {
    match msg
    case Add(_, l, _, ref, _, _, _) => if l == loc then ShareOf(m, ref, buy, price) else 0
    case Reduce(_, _, ref, shares, exec) =>
      if ref in m && !exec && m[ref].buy == buy && m[ref].price == price
      then if shares < m[ref].qty then shares else m[ref].qty
      else 0
    case Delete(_, _, ref) => ShareOf(m, ref, buy, price)
    case Replace(_, _, ref, newRef, _, _) =>
      if ref in m then ShareOf(m, ref, buy, price) + ShareOf(m - {ref}, newRef, buy, price) else 0
    case _ => 0
  }

  ghost function ShareOf(m: Orders, r: nat, buy: bool, price: nat): nat {
    if r in m then Share(m[r], buy, price) else 0
  }

  lemma PutLevel(m: Orders, r: nat, o: Order, buy: bool, price: nat)
    ensures LevelQty(m[r := o], buy, price) == Share(o, buy, price) + LevelQty(m - {r}, buy, price)
    ensures LevelQty(m, buy, price) == ShareOf(m, r, buy, price) + LevelQty(m - {r}, buy, price)
  {
    assert m[r := o] - {r} == m - {r};
    LevelQtySplit(m[r := o], r, buy, price);
    if r in m {
      LevelQtySplit(m, r, buy, price);
    } else {
      assert m - {r} == m;
    }
  }

  lemma StepConserves(m: Orders, loc: nat, msg: Msg, buy: bool, price: nat)
    ensures Executed(ExecOf(m, msg), buy, price) + LevelQty(Step(m, loc, msg), buy, price)
            + WithdrawnBy(m, loc, msg, buy, price)
         == LevelQty(m, buy, price) + PostedBy(m, loc, msg, buy, price)
  {
    hide LevelQty;
    var e := ExecOf(m, msg);
    assert |e| == 1 ==> e[..0] == [];
    match msg
    case Add(_, l, _, ref, b, shares, p) =>
      if l == loc {
        PutLevel(m, ref, Order(b, p, shares), buy, price);
      }
    case Reduce(_, _, ref, shares, exec) =>
      if ref in m {
        var o := m[ref];
        PutLevel(m, ref, o.(qty := if o.qty > shares then o.qty - shares else 0), buy, price);
      }
    case Delete(_, _, ref) =>
      PutLevel(m, ref, Order(true, 0, 0), buy, price);
    case Replace(_, _, ref, newRef, shares, p) =>
      if ref in m {
        PutLevel(m, ref, m[ref], buy, price);
        PutLevel(m - {ref}, newRef, Order(m[ref].buy, p, shares), buy, price);
      }
    case _ =>
  }

  lemma ExecutedJoin(a: seq<Exec>, b: seq<Exec>, buy: bool, price: nat)
    requires |b| <= 1
    ensures Executed(a + b, buy, price) == Executed(a, buy, price) + Executed(b, buy, price)
  {
    if b == [] {
      assert a + b == a;
    } else {
      assert (a + b)[..|a|] == a && b[..0] == [];
    }
  }

  /** At every side and price of every feed, the shares posted are those executed, those withdrawn and those that still
      rest. */
  lemma {:induction false} SharesConserved(loc: nat, msgs: seq<Msg>, buy: bool, price: nat)
    ensures Posted(loc, msgs, buy, price)
         == Executed(Execs(loc, msgs), buy, price) + Withdrawn(loc, msgs, buy, price)
            + LevelQty(After(loc, msgs), buy, price)
  {
    hide LevelQty, Step, ExecOf, PostedBy, WithdrawnBy;
    if msgs == [] {
      NoShares(buy, price);
    } else {
      var n := |msgs| - 1;
      SharesConserved(loc, msgs[..n], buy, price);
      StepConserves(After(loc, msgs[..n]), loc, msgs[n], buy, price);
      OneExecAtMost(After(loc, msgs[..n]), msgs[n]);
      ExecutedJoin(Execs(loc, msgs[..n]), ExecOf(After(loc, msgs[..n]), msgs[n]), buy, price);
    }
  }

  lemma NoShares(buy: bool, price: nat)
    ensures LevelQty(map[], buy, price) == 0
  {
  }

  lemma OneExecAtMost(m: Orders, msg: Msg)
    ensures |ExecOf(m, msg)| <= 1
  {
  }

  /** So what the executions take and what still rests never exceed what was posted. */
  lemma ExecutionsWithinPosted(loc: nat, msgs: seq<Msg>, buy: bool, price: nat)
    ensures Executed(Execs(loc, msgs), buy, price) + LevelQty(After(loc, msgs), buy, price)
         <= Posted(loc, msgs, buy, price)
  {
    SharesConserved(loc, msgs, buy, price);
  }

  // ---- execution by execution ----

  /** Message `k` executes shares of an order then live. */
  ghost predicate Trades(loc: nat, msgs: seq<Msg>, k: nat)
    requires k < |msgs|
  {
    msgs[k].Reduce? && msgs[k].exec && msgs[k].ref in After(loc, msgs[..k])
  }

  /** Execution `e` is message `k`'s: at its time, at the order's price, against the order's side, for the shares named
      or all that the order had left. */
  ghost predicate IsTradeOf(loc: nat, msgs: seq<Msg>, k: nat, e: Exec)
    requires k < |msgs|
  {
    && Trades(loc, msgs, k)
    && var o := After(loc, msgs[..k])[msgs[k].ref];
       && e.ts == msgs[k].ts && e.price == o.price && e.buy == !o.buy
       && e.shares <= msgs[k].shares && e.shares <= o.qty && (e.shares == msgs[k].shares || e.shares == o.qty)
  }

  /** Messages `ks` trade, in order, and their executions are `es`. */
  ghost predicate AreTrades(loc: nat, msgs: seq<Msg>, ks: seq<nat>, es: seq<Exec>) {
    && |ks| == |es|
    && (forall i :: 0 <= i < |ks| ==> ks[i] < |msgs| && IsTradeOf(loc, msgs, ks[i], es[i]))
    && (forall i, j :: 0 <= i < j < |ks| ==> ks[i] < ks[j])
    && (forall k :: 0 <= k < |msgs| && Trades(loc, msgs, k) ==> k in ks)
  }

  lemma TradesMore(loc: nat, msgs: seq<Msg>, n: nat, ks: seq<nat>, es: seq<Exec>)
    requires |msgs| == n + 1 && AreTrades(loc, msgs[..n], ks, es)
    ensures Trades(loc, msgs, n) ==>
      forall e :: IsTradeOf(loc, msgs, n, e) ==> AreTrades(loc, msgs, ks + [n], es + [e])
    ensures !Trades(loc, msgs, n) ==> AreTrades(loc, msgs, ks, es)
  {
    hide Trades, IsTradeOf;
    forall k | 0 <= k < n
      ensures Trades(loc, msgs, k) <==> Trades(loc, msgs[..n], k)
    {
      TradePrefix(loc, msgs, n, k);
    }
    forall i | 0 <= i < |ks|
      ensures ks[i] < n && IsTradeOf(loc, msgs, ks[i], es[i])
    {
      TradePrefix(loc, msgs, n, ks[i]);
    }
  }

  lemma TradePrefix(loc: nat, msgs: seq<Msg>, n: nat, k: nat)
    requires k < n <= |msgs|
    ensures Trades(loc, msgs, k) <==> Trades(loc, msgs[..n], k)
    ensures forall e :: IsTradeOf(loc, msgs, k, e) <==> IsTradeOf(loc, msgs[..n], k, e)
  {
    assert msgs[..n][..k] == msgs[..k];
  }

  /** The executions are those of the trading messages, one each and in order. */
  lemma {:induction false} ExecsAreTrades(loc: nat, msgs: seq<Msg>) returns (ks: seq<nat>)
    ensures AreTrades(loc, msgs, ks, Execs(loc, msgs))
  {
    ks := [];
    if msgs != [] {
      hide After, ExecOf, Trades, IsTradeOf, AreTrades;
      var n := |msgs| - 1;
      ks := ExecsAreTrades(loc, msgs[..n]);
      LastTrade(loc, msgs, n);
      TradesMore(loc, msgs, n, ks, Execs(loc, msgs[..n]));
      if Trades(loc, msgs, n) {
        ks := ks + [n];
        var e := ExecOf(After(loc, msgs[..n]), msgs[n]);
        assert e == [e[0]];
      } else {
        assert Execs(loc, msgs[..n]) + [] == Execs(loc, msgs[..n]);
      }
    }
  }

  lemma LastTrade(loc: nat, msgs: seq<Msg>, n: nat)
    requires |msgs| == n + 1
    ensures var e := ExecOf(After(loc, msgs[..n]), msgs[n]);
      if Trades(loc, msgs, n) then |e| == 1 && IsTradeOf(loc, msgs, n, e[0]) else e == []
  {
  }
}

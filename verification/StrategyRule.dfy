/** The strategy's rule on the quotes' own numbers: which order an event sends, and when it sends one. */
module StrategyRule {
  import opened Strategy
  import opened StrategyEdges
  import opened StrategySafety

  /** A power of two is one doubled. */
  lemma {:induction false} Pow2Sum(a: nat, b: nat)
    ensures Pow2(0) == 1 && Pow2(1) == 2 && Pow2(a + b) == Pow2(a) * Pow2(b)
  {
    if a > 0 {
      Pow2Sum(a - 1, b);
      assert Pow2(a + b) == 2 * Pow2((a - 1) + b) == 2 * (Pow2(a - 1) * Pow2(b)) == (2 * Pow2(a - 1)) * Pow2(b);
    }
  }

  predicate Complete(q: Quote) {
    q.bidPx != 0 && q.askPx != 0
  }

  /** The quote is complete and tight, and its bid outweighs an ask of a worthwhile size (to buy), or the reverse. */
  predicate Meets(p: Params, q: Quote, buy: bool) {
    && Complete(q) && q.askPx - q.bidPx <= p.maxSpread
    && (buy ==> q.bidQty >= q.askQty * Pow2(p.ratioShift) && q.askQty >= p.minQty)
    && (!buy ==> q.askQty >= q.bidQty * Pow2(p.ratioShift) && q.bidQty >= p.minQty)
  }

  /** The last record before event `j` met the condition. */
  ghost predicate MetBefore(p: Params, es: seq<Event>, j: nat, buy: bool)
    requires j <= |es|
  {
    exists i :: 0 <= i < j && es[i].Bbo? && Meets(p, es[i].q, buy) && forall k :: i < k < j ==> !es[k].Bbo?
  }

  /** Event `j` is a record on which the condition turns true. */
  ghost predicate Turns(p: Params, es: seq<Event>, j: nat, buy: bool)
    requires j < |es|
  {
    es[j].Bbo? && Meets(p, es[j].q, buy) && !MetBefore(p, es, j, buy)
  }

  /** `q` is the last complete quote before event `j`. */
  ghost predicate LastComplete(es: seq<Event>, j: nat, q: Quote)
    requires j <= |es|
  {
    exists i :: 0 <= i < j && es[i].Bbo? && es[i].q == q && Complete(q)
      && forall k :: i < k < j && es[k].Bbo? ==> !Complete(es[k].q)
  }

  /** Order `o` takes what quote `q` shows on the other side, up to the configured size. */
  predicate TakesFrom(p: Params, q: Quote, o: Order) {
    && o.px == (if o.buy then q.askPx else q.bidPx)
    && o.qty <= p.orderQty && o.qty <= (if o.buy then q.askQty else q.bidQty)
    && (o.qty == p.orderQty || o.qty == if o.buy then q.askQty else q.bidQty)
  }

  /** The order event `j` calls for: on a record whose condition turns true, buying before selling; on a sweep, from
      the last complete quote. */
  ghost predicate Calls(p: Params, es: seq<Event>, j: nat, o: Order)
    requires j < |es|
  {
    && o.ts == es[j].ts
    && match es[j]
       case Bbo(_, q) => Turns(p, es, j, o.buy) && (!o.buy ==> !Turns(p, es, j, true)) && TakesFrom(p, q, o)
       case Sweep(_, buy) => o.buy == buy && exists q :: LastComplete(es, j, q) && TakesFrom(p, q, o)
  }

  /** Records among the events. */
  function Records(es: seq<Event>): nat {
    if es == [] then 0 else Records(es[..|es| - 1]) + if es[|es| - 1].Bbo? then 1 else 0
  }

  /** Orders not yet acknowledged at event `j`: those sent in the last `ackGap` records. */
  function Unacked(p: Params, es: seq<Event>, j: nat): nat
    requires j < |es|
  {
    CountIn(Sent(p, es[..j]), Records(es[..j + 1]) - p.ackGap, Records(es[..j + 1]))
  }

  /** The size is valid, fewer orders than the limit are in flight, and the position stays within its limit. */
  predicate Allows(p: Params, es: seq<Event>, j: nat, o: Order)
    requires j < |es|
  {
    && 0 < o.qty < 1000000 && Unacked(p, es, j) < p.maxInflight
    && -p.posLimit <= Position(After(p, es[..j]).out) + (if o.buy then o.qty else -o.qty) <= p.posLimit
  }

  // ---- the definitions agree with what the strategy remembers ----

  lemma SignalMeets(p: Params, q: Quote, buy: bool)
    ensures Signal(p, q, buy) <==> Meets(p, q, buy)
  {
    hide Pow2;
  }

  lemma {:induction false} MetIsLast(p: Params, es: seq<Event>, buy: bool)
    ensures LastSignal(p, es, buy) <==> MetBefore(p, es, |es|, buy)
  {
    if es != [] {
      var n := |es| - 1;
      var front := es[..n];
      MetIsLast(p, front, buy);
      SignalMeets(p, if es[n].Bbo? then es[n].q else Quote(0, 0, 0, 0), buy);
      hide Signal, Meets;
      if es[n].Bbo? {
        if MetBefore(p, es, n + 1, buy) {
          var i :| 0 <= i < n + 1 && es[i].Bbo? && Meets(p, es[i].q, buy) && forall k :: i < k < n + 1 ==> !es[k].Bbo?;
          assert i == n;
        }
      } else {
        if MetBefore(p, front, n, buy) {
          var i :| 0 <= i < n && front[i].Bbo? && Meets(p, front[i].q, buy) && forall k :: i < k < n ==> !front[k].Bbo?;
          assert es[i] == front[i];
        }
        if MetBefore(p, es, n + 1, buy) {
          var i :| 0 <= i < n + 1 && es[i].Bbo? && Meets(p, es[i].q, buy) && forall k :: i < k < n + 1 ==> !es[k].Bbo?;
          assert front[i] == es[i];
        }
      }
    }
  }

  lemma {:induction false} HeldIsLast(es: seq<Event>, q: Quote)
    ensures HadTwoSided(es) && LastTwoSided(es) == q <==> LastComplete(es, |es|, q)
  {
    if es != [] {
      var n := |es| - 1;
      var front := es[..n];
      HeldIsLast(front, q);
      TwoSidedSnoc(front, es[n]);
      assert es == front + [es[n]];
      hide HadTwoSided;
      if es[n].Bbo? && Complete(es[n].q) {
        if LastComplete(es, n + 1, q) {
          var i :| 0 <= i < n + 1 && es[i].Bbo? && es[i].q == q && Complete(q)
            && forall k :: i < k < n + 1 && es[k].Bbo? ==> !Complete(es[k].q);
          assert i == n;
        }
      } else {
        if LastComplete(front, n, q) {
          var i :| 0 <= i < n && front[i].Bbo? && front[i].q == q && Complete(q)
            && forall k :: i < k < n && front[k].Bbo? ==> !Complete(front[k].q);
          assert es[i] == front[i];
        }
        if LastComplete(es, n + 1, q) {
          var i :| 0 <= i < n + 1 && es[i].Bbo? && es[i].q == q && Complete(q)
            && forall k :: i < k < n + 1 && es[k].Bbo? ==> !Complete(es[k].q);
          assert front[i] == es[i];
        }
      }
    }
  }

  lemma MetPrefix(p: Params, es: seq<Event>, j: nat, buy: bool)
    requires j <= |es|
    ensures MetBefore(p, es, j, buy) <==> MetBefore(p, es[..j], j, buy)
  {
    hide Meets;
    if MetBefore(p, es, j, buy) {
      var i :| 0 <= i < j && es[i].Bbo? && Meets(p, es[i].q, buy) && forall k :: i < k < j ==> !es[k].Bbo?;
      assert es[..j][i] == es[i];
    }
    if MetBefore(p, es[..j], j, buy) {
      var i :| 0 <= i < j && es[..j][i].Bbo? && Meets(p, es[..j][i].q, buy) && forall k :: i < k < j ==> !es[..j][k].Bbo?;
      assert forall k :: i < k < j ==> es[..j][k] == es[k];
    }
  }

  lemma HeldPrefix(es: seq<Event>, j: nat, q: Quote)
    requires j <= |es|
    ensures LastComplete(es, j, q) <==> LastComplete(es[..j], j, q)
  {
    hide Complete;
    if LastComplete(es, j, q) {
      var i :| 0 <= i < j && es[i].Bbo? && es[i].q == q && Complete(q)
        && forall k :: i < k < j && es[k].Bbo? ==> !Complete(es[k].q);
      assert es[..j][i] == es[i];
    }
    if LastComplete(es[..j], j, q) {
      var i :| 0 <= i < j && es[..j][i].Bbo? && es[..j][i].q == q && Complete(q)
        && forall k :: i < k < j && es[..j][k].Bbo? ==> !Complete(es[..j][k].q);
      assert forall k :: i < k < j ==> es[..j][k] == es[k];
    }
  }

  lemma {:induction false} RecIs(p: Params, es: seq<Event>)
    ensures After(p, es).rec == Records(es)
  {
    hide Signal, Passes;
    if es != [] {
      RecIs(p, es[..|es| - 1]);
    }
  }

  /** `out` is `before` with order `o` sent. */
  ghost predicate Sends(before: seq<Order>, out: seq<Order>, o: Order) {
    |out| > |before| && out[|out| - 1] == o
  }

  lemma TakeSends(p: Params, s: State, ts: int, buy: bool, q: Quote, o: Order)
    ensures Sends(s.out, Take(p, s, ts, buy, q).out, o)
       <==> o.ts == ts && o.buy == buy && TakesFrom(p, q, o) && Passes(p, s, buy, o.qty)
  {
  }

  lemma PassesIff(p: Params, es: seq<Event>, j: nat, s: State, o: Order)
    requires j < |es| && s.out == After(p, es[..j]).out && s.pos == Position(s.out) && s.inflight == Unacked(p, es, j)
    ensures Passes(p, s, o.buy, o.qty) <==> Allows(p, es, j, o)
  {
    hide After, Unacked, Position;
  }

  lemma SweepSends(p: Params, es: seq<Event>, j: nat, o: Order)
    requires j < |es| && es[j].Sweep? && 1 <= p.ackGap
    ensures Sends(After(p, es[..j]).out, Step(p, After(p, es[..j]), es[j]).out, o)
       <==> Calls(p, es, j, o) && Allows(p, es, j, o)
  {
    var s := After(p, es[..j]);
    MemoryIs(p, es[..j]);
    FlowHolds(p, es[..j]);
    PositionBounded(p, es[..j]);
    RecIs(p, es[..j]);
    assert es[..j + 1][..j] == es[..j];
    hide After, Take, Passes, Allows, Position, TakesFrom, CountIn, Sent, HadTwoSided, LastTwoSided, LastSignal, Scheduled, Paced;
    PassesIff(p, es, j, s, o);
    TakeSends(p, s, es[j].ts, es[j].buy, s.held, o);
    HeldIsLast(es[..j], s.held);
    HeldPrefix(es, j, s.held);
    hide LastComplete;
    forall q | LastComplete(es, j, q)
      ensures q == s.held && s.ok
    {
      HeldIsLast(es[..j], q);
      HeldPrefix(es, j, q);
    }
  }

  lemma RecordSends(p: Params, es: seq<Event>, j: nat, o: Order)
    requires j < |es| && es[j].Bbo? && 1 <= p.ackGap
    ensures Sends(After(p, es[..j]).out, Step(p, After(p, es[..j]), es[j]).out, o)
       <==> Calls(p, es, j, o) && Allows(p, es, j, o)
  {
    var s, q := After(p, es[..j]), es[j].q;
    var t := Note(p, s, q);
    MemoryIs(p, es[..j]);
    FlowHolds(p, es[..j]);
    PositionBounded(p, es[..j]);
    RecIs(p, es[..j]);
    NoteFlows(p, s, q, Sent(p, es[..j]));
    assert es[..j + 1][..j] == es[..j];
    forall buy
      ensures Signal(p, q, buy) <==> Meets(p, q, buy)
      ensures LastSignal(p, es[..j], buy) <==> MetBefore(p, es, j, buy)
    {
      SignalMeets(p, q, buy);
      MetIsLast(p, es[..j], buy);
      MetPrefix(p, es, j, buy);
    }
    hide After, Take, Passes, Allows, Position, TakesFrom, CountIn, Sent, HadTwoSided, LastTwoSided, LastSignal, Scheduled,
      Paced, Signal, Meets, MetBefore;
    PassesIff(p, es, j, t, o);
    TakeSends(p, t, es[j].ts, true, q, o);
    TakeSends(p, t, es[j].ts, false, q, o);
  }

  /** On every stream, with acknowledgements at least one record later: an event sends exactly the order it calls for,
      and sends it exactly when its size, the orders in flight and the position allow it. */
  lemma SendsIff(p: Params, es: seq<Event>, j: nat, o: Order)
    requires j < |es| && 1 <= p.ackGap
    ensures Emits(p, es, j) && Emitted(p, es, j) == o <==> Calls(p, es, j, o) && Allows(p, es, j, o)
  {
    assert es[..j + 1][..j] == es[..j];
    hide Step, Calls, Allows;
    if es[j].Bbo? {
      RecordSends(p, es, j, o);
    } else {
      SweepSends(p, es, j, o);
    }
  }

  /** No event sends more than one order, and none takes one back. */
  lemma OutGrows(p: Params, es: seq<Event>, j: nat)
    requires j < |es|
    ensures After(p, es[..j + 1]).out == After(p, es[..j]).out + if Emits(p, es, j) then [Emitted(p, es, j)] else []
  {
    assert es[..j + 1][..j] == es[..j];
    var s := After(p, es[..j]);
    hide After, Signal, Passes;
    assert s.out + [] == s.out;
  }
}

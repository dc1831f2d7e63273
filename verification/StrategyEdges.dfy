/** When the strategy fires: the edge detector, and the quote an order is priced at. */
module StrategyEdges {
  import opened MinMax
  import opened Strategy

  /** Event `j` sends an order. */
  predicate Emits(p: Params, es: seq<Event>, j: nat)
    requires j < |es|
  {
    |After(p, es[..j + 1]).out| > |After(p, es[..j]).out|
  }

  function Emitted(p: Params, es: seq<Event>, j: nat): Order
    requires j < |es| && Emits(p, es, j)
  {
    var out := After(p, es[..j + 1]).out;
    out[|out| - 1]
  }

  /** The last complete quote of a stream, if it had one. */
  predicate HadTwoSided(es: seq<Event>) {
    exists i :: 0 <= i < |es| && es[i].Bbo? && TwoSided(es[i].q)
  }

  function LastTwoSided(es: seq<Event>): Quote {
    if es == [] then Quote(0, 0, 0, 0)
    else
      var e := es[|es| - 1];
      if e.Bbo? && TwoSided(e.q) then e.q else LastTwoSided(es[..|es| - 1])
  }

  /** Whether the condition held at the last record. */
  function LastSignal(p: Params, es: seq<Event>, buy: bool): bool {
    if es == [] then false
    else
      var e := es[|es| - 1];
      if e.Bbo? then Signal(p, e.q, buy) else LastSignal(p, es[..|es| - 1], buy)
  }

  lemma TwoSidedSnoc(es: seq<Event>, e: Event)
    ensures HadTwoSided(es + [e]) <==> HadTwoSided(es) || (e.Bbo? && TwoSided(e.q))
  {
    if HadTwoSided(es) {
      var i :| 0 <= i < |es| && es[i].Bbo? && TwoSided(es[i].q);
      assert (es + [e])[i] == es[i];
    }
    if e.Bbo? && TwoSided(e.q) {
      assert (es + [e])[|es|] == e;
    }
  }

  /** The edge detectors remember the last record, and the held quote is the last complete one. */
  lemma {:induction false} MemoryIs(p: Params, es: seq<Event>)
    ensures After(p, es).prevBuy == LastSignal(p, es, true) && After(p, es).prevSell == LastSignal(p, es, false)
    ensures After(p, es).ok == HadTwoSided(es) && After(p, es).held == LastTwoSided(es)
    ensures HadTwoSided(es) ==> TwoSided(LastTwoSided(es))
  {
    hide Signal, Min, Passes;
    if es != [] {
      var front, e := es[..|es| - 1], es[|es| - 1];
      MemoryIs(p, front);
      TwoSidedSnoc(front, e);
      assert es == front + [e];
    }
  }

  lemma TakeEmits(p: Params, s: State, ts: int, buy: bool, q: Quote)
    ensures var t := Take(p, s, ts, buy, q);
      t.out == s.out
      || t.out == s.out + [Order(ts, buy, Min(p.orderQty, if buy then q.askQty else q.bidQty), if buy then q.askPx else q.bidPx)]
  {
  }

  /** Each order is the intended one: at a record, its own quote on a side whose condition has just become true; at a
      sweep, the last complete quote on the sweep's side. Never a missing side's zero price. */
  lemma OrdersPriced(p: Params, es: seq<Event>, j: nat)
    requires j < |es| && Emits(p, es, j)
    ensures var o, e := Emitted(p, es, j), es[j];
      var q := if e.Bbo? then e.q else LastTwoSided(es[..j]);
      && o.ts == e.ts && TwoSided(q) && o.px == (if o.buy then q.askPx else q.bidPx)
      && o.qty == Min(p.orderQty, if o.buy then q.askQty else q.bidQty)
      && (e.Bbo? ==> Signal(p, q, o.buy) && !LastSignal(p, es[..j], o.buy))
      && (e.Sweep? ==> o.buy == e.buy)
  {
    var s, e := After(p, es[..j]), es[j];
    assert es[..j + 1][..j] == es[..j];
    MemoryIs(p, es[..j]);
    hide Gate, Take, After, LastSignal, HadTwoSided, Min;
    match e
    case Bbo(ts, q) =>
      var t := Note(p, s, q);
      TakeEmits(p, t, ts, true, q);
      TakeEmits(p, t, ts, false, q);
    case Sweep(ts, buy) =>
      TakeEmits(p, s, ts, buy, s.held);
  }

  lemma {:induction false} WentFalse(p: Params, es: seq<Event>, i: nat, buy: bool)
    requires i < |es| && es[i].Bbo? && Signal(p, es[i].q, buy) && !LastSignal(p, es, buy)
    ensures exists k :: i < k < |es| && es[k].Bbo? && !Signal(p, es[k].q, buy)
  {
    var last := |es| - 1;
    if !es[last].Bbo? {
      WentFalse(p, es[..last], i, buy);
      var k :| i < k < last && es[..last][k].Bbo? && !Signal(p, es[..last][k].q, buy);
      assert es[k].Bbo?;
    }
  }

  /** Between two imbalance orders on one side, the condition was false at some record. */
  lemma RisingEdge(p: Params, es: seq<Event>, i: nat, j: nat)
    requires i < j < |es| && es[i].Bbo? && es[j].Bbo? && Emits(p, es, i) && Emits(p, es, j)
    requires Emitted(p, es, i).buy == Emitted(p, es, j).buy
    ensures exists k :: i < k < j && es[k].Bbo? && !Signal(p, es[k].q, Emitted(p, es, j).buy)
  {
    var buy := Emitted(p, es, j).buy;
    OrdersPriced(p, es, i);
    OrdersPriced(p, es, j);
    hide After, Emits, Emitted, LastSignal, Signal;
    WentFalse(p, es[..j], i, buy);
    var k :| i < k < j && es[..j][k].Bbo? && !Signal(p, es[..j][k].q, buy);
    assert es[k] == es[..j][k];
  }
}

/** The order-book imbalance strategy and its risk gate. */
module Strategy {
  import opened MinMax

  datatype Params = Params(maxSpread: int, ratioShift: nat, minQty: int, orderQty: int, posLimit: int, maxInflight: int,
                           ackGap: int)

  datatype Quote = Quote(bidPx: int, bidQty: int, askPx: int, askQty: int)

  /** One event of the merged stream: a BBO record, or a sweep pulse. */
  datatype Event = Bbo(ts: int, q: Quote) | Sweep(ts: int, buy: bool)

  datatype Order = Order(ts: int, buy: bool, qty: int, px: int)

  const OUCH_MAX_SHARES := 1000000

  /** `acks` maps a record number to the orders acknowledged just before it. */
  datatype State = State(pos: int, inflight: int, prevBuy: bool, prevSell: bool, ok: bool, held: Quote, out: seq<Order>,
                         acks: map<int, int>, rec: int)

  const START := State(0, 0, false, false, false, Quote(0, 0, 0, 0), [], map[], 0)

  function Get(m: map<int, int>, k: int): int {
    if k in m then m[k] else 0
  }

  function Pow2(k: nat): nat {
    if k == 0 then 1 else 2 * Pow2(k - 1)
  }

  predicate TwoSided(q: Quote) {
    q.bidPx != 0 && q.askPx != 0
  }

  /** The imbalance condition on one record, for either side. */
  predicate Signal(p: Params, q: Quote, buy: bool) {
    && TwoSided(q) && q.askPx - q.bidPx <= p.maxSpread
    && if buy then q.bidQty >= q.askQty * Pow2(p.ratioShift) && q.askQty >= p.minQty
       else q.askQty >= q.bidQty * Pow2(p.ratioShift) && q.bidQty >= p.minQty
  }

  function Signed(buy: bool, qty: int): int {
    if buy then qty else -qty
  }

  /** The order passes: valid first, then in flight, then position. */
  predicate Passes(p: Params, s: State, buy: bool, qty: int) {
    && 0 < qty < OUCH_MAX_SHARES && s.inflight < p.maxInflight
    && -p.posLimit <= s.pos + Signed(buy, qty) <= p.posLimit
  }

  function Gate(p: Params, s: State, ts: int, buy: bool, qty: int, px: int): State {
    if !Passes(p, s, buy, qty) then s
    else s.(pos := s.pos + Signed(buy, qty), inflight := s.inflight + 1, out := s.out + [Order(ts, buy, qty, px)],
            acks := s.acks[s.rec + p.ackGap := Get(s.acks, s.rec + p.ackGap) + 1])
  }

  /** What a record does before any order: the acknowledgements due, the held quote, the edge detectors. */
  function Note(p: Params, s: State, q: Quote): State {
    s.(rec := s.rec + 1, inflight := s.inflight - Get(s.acks, s.rec + 1), acks := s.acks - {s.rec + 1},
       ok := s.ok || TwoSided(q), held := if TwoSided(q) then q else s.held,
       prevBuy := Signal(p, q, true), prevSell := Signal(p, q, false))
  }

  function Take(p: Params, s: State, ts: int, buy: bool, q: Quote): State {
    if buy then Gate(p, s, ts, true, Min(p.orderQty, q.askQty), q.askPx)
    else Gate(p, s, ts, false, Min(p.orderQty, q.bidQty), q.bidPx)
  }

  function Step(p: Params, s: State, e: Event): State {
    match e
    case Bbo(ts, q) =>
      var t := Note(p, s, q);
      if Signal(p, q, true) && !s.prevBuy then Take(p, t, ts, true, q)
      else if Signal(p, q, false) && !s.prevSell then Take(p, t, ts, false, q)
      else t
    case Sweep(ts, buy) => if !s.ok then s else Take(p, s, ts, buy, s.held)
  }

  function After(p: Params, es: seq<Event>): State {
    if es == [] then START else Step(p, After(p, es[..|es| - 1]), es[|es| - 1])
  }

  // ---- the running strategy ----

  class Trader {
    const p: Params
    var pos: int
    var inflight: int
    var prevBuy: bool
    var prevSell: bool
    var ok: bool
    var held: Quote
    var out: seq<Order>
    var acks: map<int, int>
    var rec: int

    constructor (p: Params)
      ensures this.p == p && View() == START
    {
      this.p := p;
      pos, inflight, prevBuy, prevSell, ok := 0, 0, false, false, false;
      held, out, acks, rec := Quote(0, 0, 0, 0), [], map[], 0;
    }

    function View(): State
      reads this
    {
      State(pos, inflight, prevBuy, prevSell, ok, held, out, acks, rec)
    }

    method GateAndEmit(ts: int, buy: bool, qty: int, px: int)
      modifies this
      ensures View() == Gate(p, old(View()), ts, buy, qty, px)
    {
      if qty <= 0 || qty >= OUCH_MAX_SHARES {
        return;
      }
      if inflight >= p.maxInflight {
        return;
      }
      var newPos := if buy then pos + qty else pos - qty;
      if newPos > p.posLimit || newPos < -p.posLimit {
        return;
      }
      out := out + [Order(ts, buy, qty, px)];
      pos := newPos;
      inflight := inflight + 1;
      acks := acks[rec + p.ackGap := Get(acks, rec + p.ackGap) + 1];
    }

    method OnBbo(ts: int, q: Quote)
      modifies this
      ensures View() == Step(p, old(View()), Bbo(ts, q))
    {
      hide Gate, Min, Pow2;
      rec := rec + 1;
      inflight := inflight - Get(acks, rec);
      acks := acks - {rec};
      var twoSided := q.bidPx != 0 && q.askPx != 0;
      if twoSided {
        ok := true;
        held := q;
      }
      var tight := twoSided && q.askPx - q.bidPx <= p.maxSpread;
      var buy := tight && q.bidQty >= q.askQty * Pow2(p.ratioShift) && q.askQty >= p.minQty;
      var sell := tight && q.askQty >= q.bidQty * Pow2(p.ratioShift) && q.bidQty >= p.minQty;
      var fireBuy := buy && !prevBuy;
      var fireSell := sell && !prevSell;
      prevBuy, prevSell := buy, sell;
      assert buy == Signal(p, q, true) && sell == Signal(p, q, false);
      hide Signal, TwoSided;
      if fireBuy {
        GateAndEmit(ts, true, Min(p.orderQty, q.askQty), q.askPx);
      } else if fireSell {
        GateAndEmit(ts, false, Min(p.orderQty, q.bidQty), q.bidPx);
      }
    }

    method OnSweep(ts: int, buy: bool)
      modifies this
      ensures View() == Step(p, old(View()), Sweep(ts, buy))
    {
      if !ok {
        return;
      }
      if buy {
        GateAndEmit(ts, true, Min(p.orderQty, held.askQty), held.askPx);
      } else {
        GateAndEmit(ts, false, Min(p.orderQty, held.bidQty), held.bidPx);
      }
    }
  }

  /** The event loop of `main`. */
  method Run(p: Params, es: seq<Event>) returns (out: seq<Order>, pos: int, inflight: int)
    ensures out == After(p, es).out && pos == After(p, es).pos && inflight == After(p, es).inflight
  {
    hide Step;
    var t := new Trader(p);
    for i := 0 to |es|
      invariant t.p == p && t.View() == After(p, es[..i])
    {
      assert es[..i + 1][..i] == es[..i];
      match es[i]
      case Bbo(ts, q) => t.OnBbo(ts, q);
      case Sweep(ts, buy) => t.OnSweep(ts, buy);
    }
    assert es[..|es|] == es;
    out, pos, inflight := t.out, t.pos, t.inflight;
  }
}

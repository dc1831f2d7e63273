/** The order book as a map of live orders, its aggregated price levels, and the top of book. */
module Levels {

  datatype Order = Order(buy: bool, price: nat, qty: nat)
  type Orders = map<nat, Order>
  type Ladder = map<nat, nat>  // price -> aggregated quantity

  /** Empty sides read 0:0. */
  datatype Bbo = Bbo(bidPx: nat, bidQty: nat, askPx: nat, askQty: nat)

  ghost function Pick(m: Orders): (r: nat)
    requires m != map[]
    ensures r in m
  {
    assert exists r :: r in m by {
      assert m.Keys != {};
    }
    var r :| r in m;
    r
  }

  function Share(o: Order, buy: bool, price: nat): nat {
    if o.buy == buy && o.price == price then o.qty else 0
  }

  /** The shares resting at one side and price: the sum over the live orders there. */
  ghost function LevelQty(m: Orders, buy: bool, price: nat): nat
    decreases |m|
  {
    if m == map[] then 0
    else
      var r := Pick(m);
      Smaller(m, r);
      Share(m[r], buy, price) + LevelQty(m - {r}, buy, price)
  }

  lemma Smaller(m: Orders, r: nat)
    requires r in m
    ensures |m - {r}| < |m|
  {
    assert (m - {r}).Keys == m.Keys - {r};
  }

  /** The sum does not depend on the order in which it is taken. */
  lemma {:induction false} LevelQtySplit(m: Orders, r: nat, buy: bool, price: nat)
    requires r in m
    ensures LevelQty(m, buy, price) == Share(m[r], buy, price) + LevelQty(m - {r}, buy, price)
    decreases |m|
  {
    var k := Pick(m);
    if k != r {
      Smaller(m, k);
      Smaller(m, r);
      LevelQtySplit(m - {k}, r, buy, price);
      LevelQtySplit(m - {r}, k, buy, price);
      assert m - {k} - {r} == m - {r} - {k};
    }
  }

  ghost function Prices(m: Orders, buy: bool): set<nat> {
    set r | r in m && m[r].buy == buy :: m[r].price
  }

  /** The aggregated ladder of one side: a level per price with live orders, holding their sum. */
  ghost function LadderOf(m: Orders, buy: bool): Ladder {
    map p | p in Prices(m, buy) :: LevelQty(m, buy, p)
  }

  ghost predicate Positive(m: Orders) {
    forall r :: r in m ==> m[r].qty > 0
  }

  lemma {:induction false} EmptyLevel(m: Orders, buy: bool, price: nat)
    requires price !in Prices(m, buy)
    ensures LevelQty(m, buy, price) == 0
    decreases |m|
  {
    if m != map[] {
      var r := Pick(m);
      Smaller(m, r);
      EmptyLevel(m - {r}, buy, price);
    }
  }

  lemma LiveLevel(m: Orders, buy: bool, price: nat)
    requires Positive(m) && price in Prices(m, buy)
    ensures LevelQty(m, buy, price) > 0
  {
    var r :| r in m && m[r].buy == buy && m[r].price == price;
    LevelQtySplit(m, r, buy, price);
  }

  function AddLvl(d: Ladder, price: nat, qty: nat): Ladder {
    d[price := (if price in d then d[price] else 0) + qty]
  }

  /** A level that would reach zero or less goes away. */
  function RemLvl(d: Ladder, price: nat, qty: nat): Ladder {
    if price in d && d[price] > qty then d[price := d[price] - qty] else d - {price}
  }

  /** A level is present exactly when it has shares, and shows their sum. */
  lemma LadderAt(m: Orders, buy: bool, p: nat)
    requires Positive(m)
    ensures p in LadderOf(m, buy) <==> LevelQty(m, buy, p) > 0
    ensures p in LadderOf(m, buy) ==> LadderOf(m, buy)[p] == LevelQty(m, buy, p)
  {
    if p in Prices(m, buy) {
      LiveLevel(m, buy, p);
    } else {
      EmptyLevel(m, buy, p);
    }
  }

  /** Adding a fresh order is adding its shares at its level. */
  lemma AddOrder(m: Orders, r: nat, o: Order, buy: bool)
    requires r !in m && Positive(m) && o.qty > 0
    ensures LadderOf(m[r := o], buy) == if o.buy == buy then AddLvl(LadderOf(m, buy), o.price, o.qty) else LadderOf(m, buy)
  {
    hide LevelQty, LadderOf;
    var m' := m[r := o];
    assert m' - {r} == m;
    forall p: nat
      ensures LevelQty(m', buy, p) == Share(o, buy, p) + LevelQty(m, buy, p)
      ensures p in LadderOf(m, buy) <==> LevelQty(m, buy, p) > 0
      ensures p in LadderOf(m, buy) ==> LadderOf(m, buy)[p] == LevelQty(m, buy, p)
      ensures p in LadderOf(m', buy) <==> LevelQty(m', buy, p) > 0
      ensures p in LadderOf(m', buy) ==> LadderOf(m', buy)[p] == LevelQty(m', buy, p)
    {
      LevelQtySplit(m', r, buy, p);
      LadderAt(m, buy, p);
      LadderAt(m', buy, p);
    }
  }

  /** Taking shares off an order, all of them if it goes away, takes them off its level, which
      survives exactly if shares remain there. */
  lemma TakeFromOrder(m: Orders, m': Orders, r: nat, d: nat, buy: bool)
    requires r in m && Positive(m)
    requires (d == m[r].qty && m' == m - {r}) || (d < m[r].qty && m' == m[r := m[r].(qty := m[r].qty - d)])
    ensures LadderOf(m', buy) == if m[r].buy == buy then RemLvl(LadderOf(m, buy), m[r].price, d) else LadderOf(m, buy)
  {
    hide LevelQty, LadderOf;
    assert r in m' ==> m' - {r} == m - {r};
    forall p: nat
      ensures LevelQty(m, buy, p) == LevelQty(m', buy, p) + if m[r].buy == buy && m[r].price == p then d else 0
      ensures p in LadderOf(m, buy) <==> LevelQty(m, buy, p) > 0
      ensures p in LadderOf(m, buy) ==> LadderOf(m, buy)[p] == LevelQty(m, buy, p)
      ensures p in LadderOf(m', buy) <==> LevelQty(m', buy, p) > 0
      ensures p in LadderOf(m', buy) ==> LadderOf(m', buy)[p] == LevelQty(m', buy, p)
    {
      LevelQtySplit(m, r, buy, p);
      if r in m' {
        LevelQtySplit(m', r, buy, p);
      }
      LadderAt(m, buy, p);
      LadderAt(m', buy, p);
    }
  }

  ghost predicate IsBest(keys: set<nat>, high: bool, p: nat) {
    p in keys && forall q :: q in keys ==> if high then q <= p else p <= q
  }

  lemma {:induction false} HasBest(keys: set<nat>, high: bool) returns (p: nat)
    requires keys != {}
    ensures IsBest(keys, high, p)
  {
    var k :| k in keys;
    p := k;
    if keys != {k} {
      var rest := HasBest(keys - {k}, high);
      if if high then k < rest else rest < k {
        p := rest;
      }
      forall q | q in keys
        ensures q == k || q in keys - {k}
      {
      }
    }
  }

  /** The best price of a side: the highest bid or the lowest ask. */
  function BestPx(d: Ladder, high: bool): (p: nat)
    requires d != map[]
    ensures p in d
    ensures forall q :: q in d ==> if high then q <= p else p <= q
  {
    assert exists p :: p in d && forall q :: q in d ==> if high then q <= p else p <= q by {
      assert d.Keys != {};
      var best := HasBest(d.Keys, high);
      assert best in d;
    }
    var p :| p in d && forall q :: q in d ==> if high then q <= p else p <= q;
    p
  }

  function Top(bid: Ladder, ask: Ladder): Bbo {
    var bp := if bid == map[] then 0 else BestPx(bid, true);
    var ap := if ask == map[] then 0 else BestPx(ask, false);
    Bbo(bp, if bid == map[] then 0 else bid[bp], ap, if ask == map[] then 0 else ask[ap])
  }

  ghost function TopOfBook(m: Orders): Bbo {
    Top(LadderOf(m, true), LadderOf(m, false))
  }
}

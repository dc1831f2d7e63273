/** The dictionary book of dump_bbo: orders by ref, one price ladder per side, and a record
    whenever the top of book differs from the last one seen. */
module BboDump {
  import opened Itch
  import opened Levels
  import opened BookModel

  class Dump {
    var orders: Orders
    var bid: Ladder
    var ask: Ladder
    var lb: Bbo
    var out: seq<Record>

    /** Each level's quantity is the sum over the live orders resting there. */
    ghost predicate Valid()
      reads this
    {
      Positive(orders) && bid == LadderOf(orders, true) && ask == LadderOf(orders, false)
    }

    constructor ()
      ensures Valid() && orders == map[] && lb == NO_BOOK && out == []
    {
      orders, bid, ask, lb, out := map[], map[], map[], NO_BOOK, [];
    }

    method AddLevel(buy: bool, price: nat, qty: nat)
      modifies this`bid, this`ask
      ensures bid == if buy then AddLvl(old(bid), price, qty) else old(bid)
      ensures ask == if buy then old(ask) else AddLvl(old(ask), price, qty)
    {
      var d := if buy then bid else ask;
      d := d[price := (if price in d then d[price] else 0) + qty];
      if buy {
        bid := d;
      } else {
        ask := d;
      }
    }

    method RemLevel(buy: bool, price: nat, qty: nat)
      modifies this`bid, this`ask
      ensures bid == if buy then RemLvl(old(bid), price, qty) else old(bid)
      ensures ask == if buy then old(ask) else RemLvl(old(ask), price, qty)
    {
      var d := if buy then bid else ask;
      var left: int := (if price in d then d[price] else 0) - qty;
      if left <= 0 {
        d := d - {price};
      } else {
        d := d[price := left];
      }
      if buy {
        bid := d;
      } else {
        ask := d;
      }
    }

    method Emit(ts: nat)
      modifies this`lb, this`out
      ensures lb == Top(bid, ask)
      ensures out == old(out) + if lb != old(lb) then [Record(ts, lb)] else []
    {
      var cur := Top(bid, ask);
      if cur != lb {
        lb := cur;
        out := out + [Record(ts, cur)];
      }
    }

    /** One message: the orders and levels follow its meaning, and a look at the book is recorded
        exactly if the top moved. */
    method Feed(loc: nat, msg: Msg)
      requires Valid() && Sane(orders, loc, msg)
      modifies this
      ensures Valid() && orders == Step(old(orders), loc, msg)
      ensures lb == if Touches(old(orders), loc, msg) then TopOfBook(orders) else old(lb)
      ensures out == old(out) + if lb != old(lb) then [Record(msg.ts, lb)] else []
    {
      hide LadderOf;
      ghost var m := orders;
      if Touches(m, loc, msg) {
        LevelsFollowOrders(m, loc, msg, true);
        LevelsFollowOrders(m, loc, msg, false);
      } else {
        UntouchedIsUnchanged(m, loc, msg);
      }
      match msg
      case Add(ts, l, _, ref, buy, shares, price) =>
        if l != loc {
          return;
        }
        orders := orders[ref := Order(buy, price, shares)];
        AddLevel(buy, price, shares);
        Emit(ts);
      case Reduce(ts, _, ref, shares, _) =>
        if ref !in orders {
          return;
        }
        var o := orders[ref];
        RemLevel(o.buy, o.price, if shares < o.qty then shares else o.qty);
        if o.qty - shares <= 0 {
          orders := orders - {ref};
        } else {
          orders := orders[ref := o.(qty := o.qty - shares)];
        }
        Emit(ts);
      case Delete(ts, _, ref) =>
        if ref !in orders {
          return;
        }
        RemLevel(orders[ref].buy, orders[ref].price, orders[ref].qty);
        orders := orders - {ref};
        Emit(ts);
      case Replace(ts, _, ref, newRef, shares, price) =>
        if ref !in orders {
          return;
        }
        var o := orders[ref];
        RemLevel(o.buy, o.price, o.qty);
        orders := orders - {ref};
        orders := orders[newRef := Order(o.buy, price, shares)];
        AddLevel(o.buy, price, shares);
        Emit(ts);
      case _ =>
    }
  }

  /** The whole dump prints the change-detected top of book of the live orders. */
  method Run(loc: nat, msgs: seq<Msg>) returns (d: Dump)
    requires SaneFeed(loc, msgs)
    ensures d.Valid() && d.orders == After(loc, msgs) && d.out == Records(loc, msgs)
  {
    hide LadderOf;
    d := new Dump();
    for i := 0 to |msgs|
      invariant fresh(d) && d.Valid() && d.orders == After(loc, msgs[..i])
      invariant d.lb == Seen(loc, msgs[..i]) && d.out == Records(loc, msgs[..i])
    {
      OneMore(loc, msgs, i);
      d.Feed(loc, msgs[i]);
    }
    assert msgs[..|msgs|] == msgs;
  }
}

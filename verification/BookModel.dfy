/** The meaning of a feed for one stock locate: the live orders after every message and the
    change-detected stream of top-of-book records. */
module BookModel {
  import opened Itch
  import opened Levels

  datatype Record = Record(ts: nat, bbo: Bbo)

  const NO_BOOK := Bbo(0, 0, 0, 0)

  ghost function Reduced(m: Orders, ref: nat, shares: nat): Orders {
    if ref !in m then m
    else if m[ref].qty > shares then m[ref := m[ref].(qty := m[ref].qty - shares)]
    else m - {ref}
  }

  /** Only adds are filtered by locate; the rest go by ref. A replace keeps the side. */
  ghost function Step(m: Orders, loc: nat, msg: Msg): Orders {
    match msg
    case Add(_, l, _, ref, buy, shares, price) => if l == loc then m[ref := Order(buy, price, shares)] else m
    case Reduce(_, _, ref, shares, _) => Reduced(m, ref, shares)
    case Delete(_, _, ref) => m - {ref}
    case Replace(_, _, ref, newRef, shares, price) =>
      if ref in m then (m - {ref})[newRef := Order(m[ref].buy, price, shares)] else m
    case _ => m
  }

  /** The messages after which the book is looked at. */
  ghost predicate Touches(m: Orders, loc: nat, msg: Msg) {
    match msg
    case Add(_, l, _, _, _, _, _) => l == loc
    case Reduce(_, _, ref, _, _) => ref in m
    case Delete(_, _, ref) => ref in m
    case Replace(_, _, ref, _, _, _) => ref in m
    case _ => false
  }

  ghost function After(loc: nat, msgs: seq<Msg>): Orders {
    if msgs == [] then map[] else Step(After(loc, msgs[..|msgs| - 1]), loc, msgs[|msgs| - 1])
  }

  /** The top of book when it was last looked at. */
  ghost function Seen(loc: nat, msgs: seq<Msg>): Bbo {
    if msgs == [] then NO_BOOK
    else
      var front := msgs[..|msgs| - 1];
      if Touches(After(loc, front), loc, msgs[|msgs| - 1]) then TopOfBook(After(loc, msgs)) else Seen(loc, front)
  }

  /** One record per look that differs from the one before. */
  ghost function Records(loc: nat, msgs: seq<Msg>): seq<Record> {
    if msgs == [] then []
    else
      var front, msg := msgs[..|msgs| - 1], msgs[|msgs| - 1];
      Records(loc, front) +
      (if Touches(After(loc, front), loc, msg) && TopOfBook(After(loc, msgs)) != Seen(loc, front)
       then [Record(msg.ts, TopOfBook(After(loc, msgs)))] else [])
  }

  lemma OneMore(loc: nat, msgs: seq<Msg>, i: nat)
    requires i < |msgs|
    ensures After(loc, msgs[..i + 1]) == Step(After(loc, msgs[..i]), loc, msgs[i])
    ensures Seen(loc, msgs[..i + 1])
         == if Touches(After(loc, msgs[..i]), loc, msgs[i]) then TopOfBook(After(loc, msgs[..i + 1])) else Seen(loc, msgs[..i])
    ensures Records(loc, msgs[..i + 1]) == Records(loc, msgs[..i]) +
      if Seen(loc, msgs[..i + 1]) != Seen(loc, msgs[..i]) then [Record(msgs[i].ts, Seen(loc, msgs[..i + 1]))] else []
  {
    hide TopOfBook, Touches, Step;
    assert msgs[..i + 1][..i] == msgs[..i];
  }

  /** Fresh refs while live, and positive shares. */
  ghost predicate Sane(m: Orders, loc: nat, msg: Msg) {
    match msg
    case Add(_, l, _, ref, _, shares, _) => l == loc ==> ref !in m && shares > 0
    case Replace(_, _, ref, newRef, shares, _) => ref in m ==> newRef !in m - {ref} && shares > 0
    case _ => true
  }

  ghost predicate SaneFeed(loc: nat, msgs: seq<Msg>) {
    forall k :: 0 <= k < |msgs| ==> Sane(After(loc, msgs[..k]), loc, msgs[k])
  }

  /** What a message that touches the book does to one side's ladder: quantity leaves the level of
      the order named, never more than it still has, and a new order's quantity joins its level. */
  ghost function LadderStep(d: Ladder, m: Orders, msg: Msg, buy: bool): Ladder {
    match msg
    case Add(_, _, _, _, b, shares, price) => if b == buy then AddLvl(d, price, shares) else d
    case Reduce(_, _, ref, shares, _) =>
      if ref in m && m[ref].buy == buy then RemLvl(d, m[ref].price, if shares < m[ref].qty then shares else m[ref].qty) else d
    case Delete(_, _, ref) => if ref in m && m[ref].buy == buy then RemLvl(d, m[ref].price, m[ref].qty) else d
    case Replace(_, _, ref, _, shares, price) =>
      if ref in m && m[ref].buy == buy then AddLvl(RemLvl(d, m[ref].price, m[ref].qty), price, shares) else d
    case _ => d
  }

  /** Working on the levels keeps them equal to the sums over the live orders. */
  lemma LevelsFollowOrders(m: Orders, loc: nat, msg: Msg, buy: bool)
    requires Positive(m) && Sane(m, loc, msg) && Touches(m, loc, msg)
    ensures LadderOf(Step(m, loc, msg), buy) == LadderStep(LadderOf(m, buy), m, msg, buy)
    ensures Positive(Step(m, loc, msg))
  {
    hide LadderOf;
    match msg
    case Add(_, _, _, ref, b, shares, price) => AddOrder(m, ref, Order(b, price, shares), buy);
    case Reduce(_, _, ref, shares, _) =>
      TakeFromOrder(m, Reduced(m, ref, shares), ref, if shares < m[ref].qty then shares else m[ref].qty, buy);
    case Delete(_, _, ref) => TakeFromOrder(m, m - {ref}, ref, m[ref].qty, buy);
    case Replace(_, _, ref, newRef, shares, price) =>
      TakeFromOrder(m, m - {ref}, ref, m[ref].qty, buy);
      AddOrder(m - {ref}, newRef, Order(m[ref].buy, price, shares), buy);
    case _ =>
  }

  lemma UntouchedIsUnchanged(m: Orders, loc: nat, msg: Msg)
    requires !Touches(m, loc, msg)
    ensures Step(m, loc, msg) == m
  {
    if msg.Delete? {
      assert m - {msg.ref} == m;
    }
  }
}

/** The delta stream of dump_book: one table of orders shared by several tracked locates, printing
    per message the level that loses quantity and the level that gains it; and the second stage
    that folds one locate's deltas back into ladders. */
module BookDelta {
  import opened Wrappers
  import opened Itch
  import opened Levels
  import opened BookModel

  datatype Entry = Entry(loc: nat, order: Order)
  type Book = map<nat, Entry>

  /** `rem` and `add` read 0:0 when the message moves nothing that way. */
  datatype Delta = Delta(loc: nat, buy: bool, remPx: nat, remQty: nat, addPx: nat, addQty: nat)

  ghost function StepBook(b: Book, tracked: set<nat>, msg: Msg): Book {
    match msg
    case Add(_, loc, _, ref, buy, shares, price) =>
      if loc in tracked then b[ref := Entry(loc, Order(buy, price, shares))] else b
    case Reduce(_, _, ref, shares, _) =>
      if ref !in b then b
      else if b[ref].order.qty > shares
      then b[ref := Entry(b[ref].loc, b[ref].order.(qty := b[ref].order.qty - shares))]
      else b - {ref}
    case Delete(_, _, ref) => b - {ref}
    case Replace(_, _, ref, newRef, shares, price) =>
      if ref in b then (b - {ref})[newRef := Entry(b[ref].loc, Order(b[ref].order.buy, price, shares))] else b
    case _ => b
  }

  ghost function DeltaOf(b: Book, tracked: set<nat>, msg: Msg): Option<Delta> {
    match msg
    case Add(_, loc, _, _, buy, shares, price) =>
      if loc in tracked then Some(Delta(loc, buy, 0, 0, price, shares)) else None
    case Reduce(_, _, ref, shares, _) =>
      if ref !in b then None
      else
        var o := b[ref].order;
        Some(Delta(b[ref].loc, o.buy, o.price, if shares < o.qty then shares else o.qty, 0, 0))
    case Delete(_, _, ref) =>
      if ref !in b then None
      else Some(Delta(b[ref].loc, b[ref].order.buy, b[ref].order.price, b[ref].order.qty, 0, 0))
    case Replace(_, _, ref, _, shares, price) =>
      if ref !in b then None
      else Some(Delta(b[ref].loc, b[ref].order.buy, b[ref].order.price, b[ref].order.qty, price, shares))
    case _ => None
  }

  ghost function BookAfter(tracked: set<nat>, msgs: seq<Msg>): Book {
    if msgs == [] then map[] else StepBook(BookAfter(tracked, msgs[..|msgs| - 1]), tracked, msgs[|msgs| - 1])
  }

  ghost function LastDelta(tracked: set<nat>, msgs: seq<Msg>): Option<Delta>
    requires msgs != []
  {
    DeltaOf(BookAfter(tracked, msgs[..|msgs| - 1]), tracked, msgs[|msgs| - 1])
  }

  ghost function Deltas(tracked: set<nat>, msgs: seq<Msg>): seq<Delta> {
    if msgs == [] then []
    else
      Deltas(tracked, msgs[..|msgs| - 1]) +
      match LastDelta(tracked, msgs)
      case None => []
      case Some(d) => [d]
  }

  /** Fresh refs across all tracked locates, and positive shares. */
  ghost predicate SaneBook(b: Book, tracked: set<nat>, msg: Msg) {
    match msg
    case Add(_, loc, _, ref, _, shares, _) => loc in tracked ==> ref !in b && shares > 0
    case Replace(_, _, ref, newRef, shares, _) => ref in b ==> newRef !in b - {ref} && shares > 0
    case _ => true
  }

  ghost predicate SaneShared(tracked: set<nat>, msgs: seq<Msg>) {
    forall k :: 0 <= k < |msgs| ==> SaneBook(BookAfter(tracked, msgs[..k]), tracked, msgs[k])
  }

  /** The orders of one locate in the shared table. */
  ghost function OrdersOf(b: Book, loc: nat): Orders {
    map r | r in b && b[r].loc == loc :: b[r].order
  }

  lemma OneMessage(b: Book, tracked: set<nat>, msg: Msg, loc: nat)
    requires loc in tracked && SaneBook(b, tracked, msg)
    ensures OrdersOf(StepBook(b, tracked, msg), loc) == Step(OrdersOf(b, loc), loc, msg)
    ensures Sane(OrdersOf(b, loc), loc, msg)
    ensures DeltaOf(b, tracked, msg).Some? && DeltaOf(b, tracked, msg).value.loc == loc
       <==> Touches(OrdersOf(b, loc), loc, msg)
  {
  }

  lemma DropLast(tracked: set<nat>, msgs: seq<Msg>)
    requires SaneShared(tracked, msgs) && msgs != []
    ensures SaneShared(tracked, msgs[..|msgs| - 1])
    ensures SaneBook(BookAfter(tracked, msgs[..|msgs| - 1]), tracked, msgs[|msgs| - 1])
  {
    forall k | 0 <= k < |msgs| - 1
      ensures msgs[..|msgs| - 1][..k] == msgs[..k]
    {
    }
  }

  /** One table shared by many symbols holds, for each, exactly the book the symbol has alone. */
  lemma {:induction false} SharedTableIsEachBook(tracked: set<nat>, msgs: seq<Msg>, loc: nat)
    requires loc in tracked && SaneShared(tracked, msgs)
    ensures OrdersOf(BookAfter(tracked, msgs), loc) == After(loc, msgs)
    ensures Positive(After(loc, msgs))
  {
    if msgs != [] {
      DropLast(tracked, msgs);
      var front, msg := msgs[..|msgs| - 1], msgs[|msgs| - 1];
      SharedTableIsEachBook(tracked, front, loc);
      hide StepBook, SaneBook, Step;
      OneMessage(BookAfter(tracked, front), tracked, msg, loc);
      StepPositive(After(loc, front), loc, msg);
    }
  }

  lemma StepPositive(m: Orders, loc: nat, msg: Msg)
    requires Positive(m) && Sane(m, loc, msg)
    ensures Positive(Step(m, loc, msg))
  {
  }

  /** The second stage: a delta of `loc` taken off and put onto the ladder of its side. */
  ghost function Apply(d: Ladder, delta: Delta, buy: bool): Ladder {
    if delta.buy != buy then d
    else
      var less := if delta.remQty > 0 then RemLvl(d, delta.remPx, delta.remQty) else d;
      if delta.addQty > 0 then AddLvl(less, delta.addPx, delta.addQty) else less
  }

  ghost predicate IsFor(d: Option<Delta>, loc: nat) {
    d.Some? && d.value.loc == loc
  }

  ghost function Folded(loc: nat, tracked: set<nat>, msgs: seq<Msg>, buy: bool): Ladder {
    if msgs == [] then map[]
    else
      var before, d := Folded(loc, tracked, msgs[..|msgs| - 1], buy), LastDelta(tracked, msgs);
      if IsFor(d, loc) then Apply(before, d.value, buy) else before
  }

  ghost function FoldedTop(loc: nat, tracked: set<nat>, msgs: seq<Msg>): Bbo {
    Top(Folded(loc, tracked, msgs, true), Folded(loc, tracked, msgs, false))
  }

  /** The second stage looks at its ladders whenever a delta of its locate arrives. */
  ghost function FoldedSeen(loc: nat, tracked: set<nat>, msgs: seq<Msg>): Bbo {
    if msgs == [] then NO_BOOK
    else if IsFor(LastDelta(tracked, msgs), loc) then FoldedTop(loc, tracked, msgs)
    else FoldedSeen(loc, tracked, msgs[..|msgs| - 1])
  }

  ghost function FoldedRecords(loc: nat, tracked: set<nat>, msgs: seq<Msg>): seq<Record> {
    if msgs == [] then []
    else
      var front := msgs[..|msgs| - 1];
      var before, now := FoldedSeen(loc, tracked, front), FoldedSeen(loc, tracked, msgs);
      FoldedRecords(loc, tracked, front) + if now != before then [Record(msgs[|msgs| - 1].ts, now)] else []
  }

  lemma ApplyIsLadderStep(b: Book, tracked: set<nat>, msg: Msg, loc: nat, d: Ladder, buy: bool)
    requires loc in tracked && SaneBook(b, tracked, msg) && IsFor(DeltaOf(b, tracked, msg), loc)
    requires Positive(OrdersOf(b, loc)) && d == LadderOf(OrdersOf(b, loc), buy)
    ensures Apply(d, DeltaOf(b, tracked, msg).value, buy) == LadderStep(d, OrdersOf(b, loc), msg, buy)
  {
    if !msg.Add? {
      var m := OrdersOf(b, loc);
      assert msg.ref in m && m[msg.ref] == b[msg.ref].order;
      hide SaneBook, LevelQty;
      if m[msg.ref].buy == buy {
        LevelQtySplit(m, msg.ref, buy, m[msg.ref].price);
        LadderAt(m, buy, m[msg.ref].price);
      }
    }
  }

  /** Folding the deltas of any one symbol rebuilds, after every message, the ladders of its live
      orders: the split pipeline keeps the levels of the fused one. */
  lemma {:induction false} FoldIsLadder(loc: nat, tracked: set<nat>, msgs: seq<Msg>, buy: bool)
    requires loc in tracked && SaneShared(tracked, msgs)
    ensures Folded(loc, tracked, msgs, buy) == LadderOf(After(loc, msgs), buy)
  {
    if msgs == [] {
      assert LadderOf(map[], buy) == map[];
    } else {
      DropLast(tracked, msgs);
      var front, msg := msgs[..|msgs| - 1], msgs[|msgs| - 1];
      FoldIsLadder(loc, tracked, front, buy);
      SharedTableIsEachBook(tracked, front, loc);
      var b := BookAfter(tracked, front);
      OneMessage(b, tracked, msg, loc);
      hide StepBook, SaneBook, DeltaOf, OrdersOf, LadderOf, LadderStep, Apply, Step, Touches, Sane;
      if IsFor(DeltaOf(b, tracked, msg), loc) {
        LevelsFollowOrders(After(loc, front), loc, msg, buy);
        ApplyIsLadderStep(b, tracked, msg, loc, LadderOf(After(loc, front), buy), buy);
      } else {
        UntouchedIsUnchanged(After(loc, front), loc, msg);
      }
    }
  }

  /** Hence the two stages print the records that the fused book prints. */
  lemma {:induction false} TwoStagesPrintTheSame(loc: nat, tracked: set<nat>, msgs: seq<Msg>)
    requires loc in tracked && SaneShared(tracked, msgs)
    ensures FoldedSeen(loc, tracked, msgs) == Seen(loc, msgs)
    ensures FoldedRecords(loc, tracked, msgs) == Records(loc, msgs)
  {
    if msgs != [] {
      DropLast(tracked, msgs);
      var front, msg := msgs[..|msgs| - 1], msgs[|msgs| - 1];
      TwoStagesPrintTheSame(loc, tracked, front);
      SharedTableIsEachBook(tracked, front, loc);
      OneMessage(BookAfter(tracked, front), tracked, msg, loc);
      FoldIsLadder(loc, tracked, msgs, true);
      FoldIsLadder(loc, tracked, msgs, false);
    }
  }

  // ---- each delta against the levels ----

  function Gain(d: Delta, loc: nat, buy: bool, price: nat): int {
    if d.loc != loc || d.buy != buy then 0
    else (if d.addPx == price then d.addQty else 0) - (if d.remPx == price then d.remQty else 0)
  }

  lemma OrdersOfPut(b: Book, ref: nat, e: Entry, loc: nat)
    ensures OrdersOf(b[ref := e], loc)
         == if e.loc == loc then OrdersOf(b - {ref}, loc)[ref := e.order] else OrdersOf(b - {ref}, loc)
  {
  }

  lemma LevelOfPut(b: Book, ref: nat, e: Entry, loc: nat, buy: bool, price: nat)
    ensures LevelQty(OrdersOf(b[ref := e], loc), buy, price)
         == LevelQty(OrdersOf(b - {ref}, loc), buy, price) + if e.loc == loc then Share(e.order, buy, price) else 0
  {
    hide LevelQty;
    OrdersOfPut(b, ref, e, loc);
    var m := OrdersOf(b - {ref}, loc);
    if e.loc == loc {
      assert m[ref := e.order] - {ref} == m;
      LevelQtySplit(m[ref := e.order], ref, buy, price);
    }
  }

  lemma LevelOfRemove(b: Book, ref: nat, loc: nat, buy: bool, price: nat)
    requires ref in b
    ensures LevelQty(OrdersOf(b, loc), buy, price)
         == LevelQty(OrdersOf(b - {ref}, loc), buy, price) + if b[ref].loc == loc then Share(b[ref].order, buy, price) else 0
  {
    assert b[ref := b[ref]] == b;
    LevelOfPut(b, ref, b[ref], loc, buy, price);
  }

  /** Every message moves the shares resting at each locate, side and price by exactly what its delta says, and by
      nothing if it has none. */
  lemma DeltaMoves(b: Book, tracked: set<nat>, msg: Msg, loc: nat, buy: bool, price: nat)
    requires SaneBook(b, tracked, msg)
    ensures LevelQty(OrdersOf(StepBook(b, tracked, msg), loc), buy, price) - LevelQty(OrdersOf(b, loc), buy, price)
         == match DeltaOf(b, tracked, msg)
            case None => 0
            case Some(d) => Gain(d, loc, buy, price)
  {
    hide LevelQty, OrdersOf;
    match msg
    case Add(_, l, _, ref, side, shares, px) =>
      if l in tracked {
        assert b - {ref} == b;
        LevelOfPut(b, ref, Entry(l, Order(side, px, shares)), loc, buy, price);
      }
    case Reduce(_, _, ref, shares, _) =>
      if ref in b {
        LevelOfRemove(b, ref, loc, buy, price);
        var left := if b[ref].order.qty > shares then b[ref].order.qty - shares else 0;
        LevelOfPut(b, ref, b[ref].(order := b[ref].order.(qty := left)), loc, buy, price);
      }
    case Delete(_, _, ref) =>
      if ref in b {
        LevelOfRemove(b, ref, loc, buy, price);
      } else {
        assert b - {ref} == b;
      }
    case Replace(_, _, ref, newRef, shares, px) =>
      if ref in b {
        LevelOfRemove(b, ref, loc, buy, price);
        assert b - {ref} - {newRef} == b - {ref};
        LevelOfPut(b - {ref}, newRef, Entry(b[ref].loc, Order(b[ref].order.buy, px, shares)), loc, buy, price);
      }
    case _ =>
  }

  class Dump {
    var book: Book
    var out: seq<Delta>

    constructor ()
      ensures book == map[] && out == []
    {
      book, out := map[], [];
    }

    method Feed(tracked: set<nat>, msg: Msg)
      modifies this
      ensures book == StepBook(old(book), tracked, msg)
      ensures out == old(out) + match DeltaOf(old(book), tracked, msg) case None => [] case Some(d) => [d]
    {
      match msg
      case Add(_, loc, _, ref, buy, shares, price) =>
        if loc !in tracked {
          return;
        }
        book := book[ref := Entry(loc, Order(buy, price, shares))];
        out := out + [Delta(loc, buy, 0, 0, price, shares)];
      case Reduce(_, _, ref, shares, _) =>
        if ref !in book {
          return;
        }
        var e := book[ref];
        var delta := if shares < e.order.qty then shares else e.order.qty;
        out := out + [Delta(e.loc, e.order.buy, e.order.price, delta, 0, 0)];
        if e.order.qty - shares <= 0 {
          book := book - {ref};
        } else {
          book := book[ref := e.(order := e.order.(qty := e.order.qty - shares))];
        }
      case Delete(_, _, ref) =>
        if ref !in book {
          assert book - {ref} == book;
          return;
        }
        var e := book[ref];
        out := out + [Delta(e.loc, e.order.buy, e.order.price, e.order.qty, 0, 0)];
        book := book - {ref};
      case Replace(_, _, ref, newRef, shares, price) =>
        if ref !in book {
          return;
        }
        var e := book[ref];
        book := book - {ref};
        out := out + [Delta(e.loc, e.order.buy, e.order.price, e.order.qty, price, shares)];
        book := book[newRef := Entry(e.loc, Order(e.order.buy, price, shares))];
      case _ =>
    }
  }

  method Run(tracked: set<nat>, msgs: seq<Msg>) returns (d: Dump)
    ensures d.book == BookAfter(tracked, msgs) && d.out == Deltas(tracked, msgs)
  {
    d := new Dump();
    for i := 0 to |msgs|
      invariant d.book == BookAfter(tracked, msgs[..i]) && d.out == Deltas(tracked, msgs[..i])
    {
      assert msgs[..i + 1][..i] == msgs[..i];
      d.Feed(tracked, msgs[i]);
    }
    assert msgs[..|msgs|] == msgs;
  }
}

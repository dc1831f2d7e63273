/** What the printed top-of-book records say about the live orders. */
module BookTop {
  import opened Itch
  import opened Levels
  import opened BookModel

  /** A level's quantity is the sum of the shares of the live orders at that side and price, taken in any order. */
  lemma LevelSum(m: Orders, r: nat, buy: bool, price: nat)
    ensures LevelQty(map[], buy, price) == 0
    ensures r in m ==>
      LevelQty(m, buy, price)
      == LevelQty(m - {r}, buy, price) + if m[r].buy == buy && m[r].price == price then m[r].qty else 0
  {
    if r in m {
      LevelQtySplit(m, r, buy, price);
    }
  }

  ghost predicate HasSide(m: Orders, buy: bool) {
    exists r :: r in m && m[r].buy == buy
  }

  /** `px` is the price of a live order of the side that no other of the side betters, with all the shares resting
      there; a side without live orders reads 0:0. */
  ghost predicate IsSideTop(m: Orders, buy: bool, px: nat, qty: nat) {
    if HasSide(m, buy) then
      && (exists r :: r in m && m[r].buy == buy && m[r].price == px)
      && (forall r :: r in m && m[r].buy == buy ==> if buy then m[r].price <= px else px <= m[r].price)
      && qty == LevelQty(m, buy, px)
    else px == 0 && qty == 0
  }

  ghost predicate IsTop(m: Orders, b: Bbo) {
    IsSideTop(m, true, b.bidPx, b.bidQty) && IsSideTop(m, false, b.askPx, b.askQty)
  }

  lemma SideTop(m: Orders, buy: bool)
    ensures LadderOf(m, buy) == map[] <==> !HasSide(m, buy)
    ensures LadderOf(m, buy) != map[] ==>
      var px := BestPx(LadderOf(m, buy), buy);
      IsSideTop(m, buy, px, LadderOf(m, buy)[px])
  {
    hide LevelQty;
    var d := LadderOf(m, buy);
    if r :| r in m && m[r].buy == buy {
      assert m[r].price in d;
    }
    if d != map[] {
      var px := BestPx(d, buy);
      assert px in Prices(m, buy);
      forall r | r in m && m[r].buy == buy
        ensures if buy then m[r].price <= px else px <= m[r].price
      {
        assert m[r].price in d;
      }
    }
  }

  /** The top of book is the only reading that says so of both sides. */
  lemma TopIs(m: Orders, b: Bbo)
    ensures IsTop(m, b) <==> b == TopOfBook(m)
  {
    hide LevelQty, LadderOf, HasSide;
    SideTop(m, true);
    SideTop(m, false);
  }

  /** What a reader of the records takes the top of book to be. */
  function Shown(rs: seq<Record>): Bbo {
    if rs == [] then NO_BOOK else rs[|rs| - 1].bbo
  }

  lemma {:induction false} ShownIsSeen(loc: nat, msgs: seq<Msg>)
    ensures Shown(Records(loc, msgs)) == Seen(loc, msgs) == TopOfBook(After(loc, msgs))
  {
    if msgs == [] {
      TopIs(map[], NO_BOOK);
    } else {
      var front, msg := msgs[..|msgs| - 1], msgs[|msgs| - 1];
      ShownIsSeen(loc, front);
      hide TopOfBook, Touches, Step;
      if !Touches(After(loc, front), loc, msg) {
        UntouchedIsUnchanged(After(loc, front), loc, msg);
      }
    }
  }

  /** After every message of every feed the last record printed is the top of the live orders, or nothing has been
      printed and there are none; and a message prints one record, with its own time, exactly if it moves the top. */
  lemma PrintedIsTop(loc: nat, msgs: seq<Msg>)
    ensures IsTop(After(loc, msgs), Shown(Records(loc, msgs)))
    ensures msgs != [] ==>
      var before, now := Records(loc, msgs[..|msgs| - 1]), Records(loc, msgs);
      if IsTop(After(loc, msgs), Shown(before)) then now == before
      else now == before + [Record(msgs[|msgs| - 1].ts, Shown(now))]
  {
    hide IsTop, TopOfBook, Touches, Step;
    ShownIsSeen(loc, msgs);
    TopIs(After(loc, msgs), Shown(Records(loc, msgs)));
    if msgs != [] {
      var front := msgs[..|msgs| - 1];
      ShownIsSeen(loc, front);
      TopIs(After(loc, msgs), Shown(Records(loc, front)));
    }
  }

  /** Every record of a run is the top of the live orders after some message, with that message's time, and was not
      before it. */
  lemma {:induction false} EveryRecordIsTop(loc: nat, msgs: seq<Msg>, i: nat) returns (k: nat)
    requires i < |Records(loc, msgs)|
    ensures k < |msgs| && Records(loc, msgs)[..i] == Records(loc, msgs[..k])
    ensures Records(loc, msgs)[i].ts == msgs[k].ts
    ensures IsTop(After(loc, msgs[..k + 1]), Records(loc, msgs)[i].bbo)
    ensures !IsTop(After(loc, msgs[..k]), Records(loc, msgs)[i].bbo)
  {
    hide IsTop, After, Records, Shown;
    NoRecords(loc);
    var n := |msgs| - 1;
    PrintedIsTop(loc, msgs);
    PrintedIsTop(loc, msgs[..n]);
    if i < |Records(loc, msgs[..n])| {
      k := EveryRecordIsTop(loc, msgs[..n], i);
      assert msgs[..n][..k] == msgs[..k] && msgs[..n][..k + 1] == msgs[..k + 1];
    } else {
      k := n;
      assert msgs[..n + 1] == msgs;
      LastShown(Records(loc, msgs));
      TopIs(After(loc, msgs[..n]), Shown(Records(loc, msgs)));
      TopIs(After(loc, msgs[..n]), Shown(Records(loc, msgs[..n])));
    }
  }

  lemma NoRecords(loc: nat)
    ensures Records(loc, []) == []
  {
  }

  lemma LastShown(rs: seq<Record>)
    requires rs != []
    ensures Shown(rs) == rs[|rs| - 1].bbo
  {
  }
}

/** The parser's book: the tombstone order table feeding two sorted price ladders, and the
    change-detected BBO print. */
module ItchParser {
  import opened Itch
  import opened Levels
  import opened BookModel
  import BboDump
  import opened PriceLadders
  import opened TombTables

  /** The "nothing printed yet" marks: UINT32_MAX and UINT64_MAX. */
  const UNPRINTED := Bbo(0xFFFF_FFFF, 0xFFFF_FFFF_FFFF_FFFF, 0xFFFF_FFFF, 0xFFFF_FFFF_FFFF_FFFF)

  /** The symbol field names the target exactly on the target's locate. */
  ghost predicate Labelled(loc: nat, msg: Msg) {
    msg.Add? || msg.Directory? ==> (msg.stock <==> msg.loc == loc)
  }

  /** Taking the raw amount off the level of a live order leaves the sum of the orders there. */
  ghost predicate Leaves(m: Orders, ref: nat, shares: nat)
    requires ref in m
  {
    shares <= m[ref].qty || LevelQty(m, m[ref].buy, m[ref].price) == m[ref].qty
  }

  /** What the parser needs of a message beyond a sane feed: a message on a live order carries that
      order's locate, and takes no more shares than the order has unless it is alone on its level. */
  ghost predicate Exact(m: Orders, loc: nat, msg: Msg) {
    && Labelled(loc, msg)
    && ((msg.Reduce? || msg.Delete? || msg.Replace?) && msg.ref in m ==> msg.loc == loc)
    && (msg.Reduce? && msg.ref in m ==> Leaves(m, msg.ref, msg.shares))
  }

  ghost predicate ExactFeed(loc: nat, msgs: seq<Msg>) {
    forall k :: 0 <= k < |msgs| ==> Sane(After(loc, msgs[..k]), loc, msgs[k]) && Exact(After(loc, msgs[..k]), loc, msgs[k])
  }

  /** Neither side needs more levels than the ladder arrays have. */
  ghost predicate Fits(m: Orders, maxLevels: nat) {
    |LadderOf(m, true)| <= maxLevels && |LadderOf(m, false)| <= maxLevels
  }

  /** Where the source subtracts the raw executed amount from the level, the level stays the sum of
      its orders exactly when the amount does not exceed the order or the order rests there alone. */
  lemma RawReduceExactIff(m: Orders, ref: nat, shares: nat)
    requires Positive(m) && ref in m
    ensures RemLvl(LadderOf(m, m[ref].buy), m[ref].price, shares) == LadderOf(Reduced(m, ref, shares), m[ref].buy)
       <==> Leaves(m, ref, shares)
  {
    var o, buy := m[ref], m[ref].buy;
    var d := if shares < o.qty then shares else o.qty;
    TakeFromOrder(m, Reduced(m, ref, shares), ref, d, buy);
    LevelQtySplit(m, ref, buy, o.price);
    LadderAt(m, buy, o.price);
    hide LadderOf, LevelQty;
    var before := LadderOf(m, buy);
    if o.qty < shares && o.qty < before[o.price] {
      assert RemLvl(before, o.price, d)[o.price] == before[o.price] - o.qty;
    }
  }

  /** Every book of the first `n` messages fits the ladder arrays. */
  ghost predicate AllFit(loc: nat, msgs: seq<Msg>, n: nat, maxLevels: nat)
    requires n <= |msgs|
  {
    forall k :: 0 <= k <= n ==> Fits(After(loc, msgs[..k]), maxLevels)
  }

  lemma OneMoreFits(loc: nat, msgs: seq<Msg>, i: nat, maxLevels: nat)
    requires i < |msgs|
    ensures AllFit(loc, msgs, i + 1, maxLevels)
       <==> AllFit(loc, msgs, i, maxLevels) && Fits(After(loc, msgs[..i + 1]), maxLevels)
    ensures AllFit(loc, msgs, |msgs|, maxLevels) ==> AllFit(loc, msgs, i + 1, maxLevels)
  {
  }

  /** The first look at a book finds one empty side and one level with shares. */
  lemma FirstTop(r: nat, o: Order)
    requires o.qty > 0
    ensures TopOfBook(map[][r := o]) != NO_BOOK && TopOfBook(map[][r := o]) != UNPRINTED
  {
    var m: Orders := map[];
    assert Positive(m);
    assert LadderOf(m, true) == map[] && LadderOf(m, false) == map[];
    AddOrder(m, r, o, true);
    AddOrder(m, r, o, false);
    var one := map[o.price := o.qty];
    assert LadderOf(m[r := o], o.buy) == one && LadderOf(m[r := o], !o.buy) == map[];
    assert BestPx(one, o.buy) in one;
  }

  class Parser {
    const table: TombTable<Order>
    const bids: PriceLadder
    const asks: PriceLadder
    var last: Bbo
    var haveLocate: bool
    var targetLocate: nat
    var out: seq<Record>

    ghost predicate Valid()
      reads this, table, table.otab, bids, bids.arr, asks, asks.arr
    {
      && bids != asks && bids.arr != asks.arr && bids.desc && !asks.desc
      && bids.arr.Length == asks.arr.Length
      && table.Valid() && bids.Valid() && asks.Valid()
    }

    /** The parser's state after it has seen orders `m` of locate `loc`, last looked at as `seen`. */
    ghost predicate Shows(m: Orders, loc: nat, seen: Bbo)
      requires Valid()
      reads this, table, table.otab, bids, bids.arr, asks, asks.arr
    {
      && Positive(m)
      && table.Contents == m
      && bids.Contents == LadderOf(m, true) && asks.Contents == LadderOf(m, false)
      && (haveLocate ==> targetLocate == loc)
      && (!haveLocate ==> m == map[])
      && (last == seen || (last == UNPRINTED && seen == NO_BOOK && m == map[]))
    }

    constructor (cap: nat, hash: nat -> nat, maxLevels: nat)
      requires 4 <= cap
      ensures Valid() && fresh(table) && fresh(table.otab) && fresh(bids) && fresh(bids.arr)
      ensures fresh(asks) && fresh(asks.arr)
      ensures bids.arr.Length == maxLevels && out == [] && !haveLocate
      ensures forall loc :: Shows(map[], loc, NO_BOOK)
    {
      hide LadderOf, TombTable.Valid, PriceLadder.Valid;
      table := new TombTable(cap, hash);
      bids := new PriceLadder(maxLevels, true);
      asks := new PriceLadder(maxLevels, false);
      last, haveLocate, targetLocate, out := UNPRINTED, false, 0, [];
      new;
      EmptyBook();
    }

    lemma EmptyBook()
      ensures LadderOf(map[], true) == map[] && LadderOf(map[], false) == map[]
    {
    }

    method BookAdd(buy: bool, price: nat, qty: nat) returns (ok: bool)
      requires Valid()
      modifies bids, bids.arr, asks, asks.arr
      ensures Valid()
      ensures ok <==> |AddLvl(old(if buy then bids.Contents else asks.Contents), price, qty)| <= bids.arr.Length
      ensures ok ==> bids.Contents == if buy then AddLvl(old(bids.Contents), price, qty) else old(bids.Contents)
      ensures ok ==> asks.Contents == if buy then old(asks.Contents) else AddLvl(old(asks.Contents), price, qty)
    {
      hide PriceLadders.Sound, TombTables.Sound;
      if buy {
        ok := bids.Add(price, qty);
      } else {
        ok := asks.Add(price, qty);
      }
    }

    method BookReduce(buy: bool, price: nat, qty: nat)
      requires Valid()
      modifies bids, bids.arr, asks, asks.arr
      ensures Valid()
      ensures bids.Contents == if buy then RemLvl(old(bids.Contents), price, qty) else old(bids.Contents)
      ensures asks.Contents == if buy then old(asks.Contents) else RemLvl(old(asks.Contents), price, qty)
    {
      hide PriceLadders.Sound, TombTables.Sound;
      if buy {
        bids.Reduce(price, qty);
      } else {
        asks.Reduce(price, qty);
      }
    }

    lemma Capacities()
      requires Valid()
      ensures bids.arr.Length == asks.arr.Length
      ensures |bids.Contents| <= bids.arr.Length && |asks.Contents| <= asks.arr.Length
    {
      bids.Capacity();
      asks.Capacity();
    }

    /** `print_bbo`: index 0 of each side, printed if it differs from the last print. */
    method PrintBbo(ts: nat)
      requires Valid()
      modifies this`last, this`out
      ensures last == Top(bids.Contents, asks.Contents)
      ensures out == old(out) + if last != old(last) then [Record(ts, last)] else []
    {
      FirstIsBest(bids.arr[..bids.n], true, bids.Contents);
      FirstIsBest(asks.arr[..asks.n], false, asks.Contents);
      hide PriceLadders.Sound, TombTables.Sound;
      var bp := if bids.n > 0 then bids.arr[0].price else 0;
      var bq := if bids.n > 0 then bids.arr[0].qty else 0;
      var ap := if asks.n > 0 then asks.arr[0].price else 0;
      var aq := if asks.n > 0 then asks.arr[0].qty else 0;
      if Bbo(bp, bq, ap, aq) != last {
        last := Bbo(bp, bq, ap, aq);
        out := out + [Record(ts, last)];
      }
    }

    /** Insert a fresh order and its shares; not `ok` is the overflow exit. */
    method AddOrder(ts: nat, ref: nat, o: Order) returns (ok: bool)
      requires Valid() && ref !in table.Contents
      modifies this`last, this`out, table, table.otab, bids, bids.arr, asks, asks.arr
      ensures Valid() && (table.otab == old(table.otab) || fresh(table.otab))
      ensures table.Contents == old(table.Contents)[ref := o]
      ensures ok <==> |AddLvl(old(if o.buy then bids.Contents else asks.Contents), o.price, o.qty)| <= bids.arr.Length
      ensures ok ==> bids.Contents == if o.buy then AddLvl(old(bids.Contents), o.price, o.qty) else old(bids.Contents)
      ensures ok ==> asks.Contents == if o.buy then old(asks.Contents) else AddLvl(old(asks.Contents), o.price, o.qty)
      ensures ok ==> last == Top(bids.Contents, asks.Contents)
      ensures ok ==> out == old(out) + if last != old(last) then [Record(ts, last)] else []
    {
      hide PriceLadders.Sound, TombTables.Sound;
      table.Insert(ref, o);
      ok := BookAdd(o.buy, o.price, o.qty);
      if ok {
        PrintBbo(ts);
      }
    }

    /** Take `d` shares off a live order, all of them if it goes away. */
    method TakeShares(i: nat, d: nat)
      requires Valid() && i < table.otab.Length && table.otab[i].Used?
      requires table.otab[i].ref in table.Contents && table.otab[i].val == table.Contents[table.otab[i].ref]
      modifies table, table.otab, bids, bids.arr, asks, asks.arr
      ensures Valid() && table.otab == old(table.otab)
      ensures table.Contents == Reduced(old(table.Contents), old(table.otab[i].ref), d)
      ensures bids.Contents == if old(table.otab[i].val.buy) then RemLvl(old(bids.Contents), old(table.otab[i].val.price), d)
                               else old(bids.Contents)
      ensures asks.Contents == if old(table.otab[i].val.buy) then old(asks.Contents)
                               else RemLvl(old(asks.Contents), old(table.otab[i].val.price), d)
    {
      hide PriceLadders.Sound, TombTables.Sound;
      var o := table.otab[i].val;
      BookReduce(o.buy, o.price, d);
      if o.qty <= d {
        table.Remove(i);
      } else {
        table.SetVal(i, o.(qty := o.qty - d));
      }
    }

    /** What one message of a sane, exact feed must leave behind. */
    ghost predicate Follows(msg: Msg, m: Orders, loc: nat, seen: Bbo, before: seq<Record>)
      requires Valid()
      reads this, table, table.otab, bids, bids.arr, asks, asks.arr
    {
      var m' := Step(m, loc, msg);
      var seen' := if Touches(m, loc, msg) then TopOfBook(m') else seen;
      Shows(m', loc, seen') && out == before + if seen' != seen then [Record(msg.ts, seen')] else []
    }

    method OnAdd(msg: Msg, ghost m: Orders, ghost loc: nat, ghost seen: Bbo) returns (ok: bool)
      requires Valid() && Shows(m, loc, seen) && Sane(m, loc, msg) && Exact(m, loc, msg) && msg.Add?
      modifies this, table, table.otab, bids, bids.arr, asks, asks.arr
      ensures Valid() && (table.otab == old(table.otab) || fresh(table.otab))
      ensures ok <==> (Touches(m, loc, msg) ==> Fits(Step(m, loc, msg), bids.arr.Length))
      ensures ok ==> Follows(msg, m, loc, seen, old(out))
    {
      hide LadderOf, AddLvl, RemLvl, Top, PriceLadders.Sound, TombTables.Sound;
      if !haveLocate && msg.stock {
        targetLocate, haveLocate := msg.loc, true;
      }
      if !(haveLocate && msg.loc == targetLocate) {
        return true;
      }
      LevelsFollowOrders(m, loc, msg, true);
      LevelsFollowOrders(m, loc, msg, false);
      bids.Capacity();
      asks.Capacity();
      var o := Order(msg.buy, msg.price, msg.shares);
      if m == map[] {
        FirstTop(msg.ref, o);
      }
      ok := AddOrder(msg.ts, msg.ref, o);
    }

    method TakeLive(i: nat, d: nat, msg: Msg, ghost m: Orders, ghost loc: nat, ghost seen: Bbo)
      requires Valid() && Shows(m, loc, seen) && Sane(m, loc, msg) && Touches(m, loc, msg)
      requires (msg.Reduce? && d == msg.shares) || (msg.Delete? && d == m[msg.ref].qty)
      requires Leaves(m, msg.ref, d) && haveLocate
      requires i < table.otab.Length && table.otab[i] == TombTables.Used(msg.ref, m[msg.ref])
      modifies this`last, this`out, table, table.otab, bids, bids.arr, asks, asks.arr
      ensures Valid() && table.otab == old(table.otab)
      ensures Follows(msg, m, loc, seen, old(out))
      ensures Fits(Step(m, loc, msg), bids.arr.Length)
    {
      hide LadderOf, AddLvl, RemLvl, Top, PriceLadders.Sound, TombTables.Sound;
      LevelsFollowOrders(m, loc, msg, true);
      LevelsFollowOrders(m, loc, msg, false);
      RawReduceExactIff(m, msg.ref, d);
      assert Step(m, loc, msg) == Reduced(m, msg.ref, d);
      TakeShares(i, d);
      PrintBbo(msg.ts);
      bids.Capacity();
      asks.Capacity();
    }

    /** 'E', 'C', 'X' and 'D': shares leave a live order. */
    method OnTake(msg: Msg, ghost m: Orders, ghost loc: nat, ghost seen: Bbo)
      requires Valid() && Shows(m, loc, seen) && Sane(m, loc, msg) && Exact(m, loc, msg)
      requires msg.Reduce? || msg.Delete?
      modifies this, table, table.otab, bids, bids.arr, asks, asks.arr
      ensures Valid() && table.otab == old(table.otab)
      ensures Follows(msg, m, loc, seen, old(out))
      ensures Touches(m, loc, msg) ==> Fits(Step(m, loc, msg), bids.arr.Length)
    {
      hide LadderOf, AddLvl, RemLvl, Top, PriceLadders.Sound, TombTables.Sound;
      if !Touches(m, loc, msg) {
        UntouchedIsUnchanged(m, loc, msg);
      }
      if !(haveLocate && msg.loc == targetLocate) {
        return;
      }
      var i := table.Find(msg.ref);
      if i < 0 {
        return;
      }
      TakeLive(i, if msg.Delete? then table.otab[i].val.qty else msg.shares, msg, m, loc, seen);
    }

    method ReplaceLive(i: nat, msg: Msg, ghost m: Orders, ghost loc: nat, ghost seen: Bbo) returns (ok: bool)
      requires Valid() && Shows(m, loc, seen) && Sane(m, loc, msg) && Touches(m, loc, msg) && msg.Replace?
      requires haveLocate && i < table.otab.Length && table.otab[i] == TombTables.Used(msg.ref, m[msg.ref])
      modifies this`last, this`out, table, table.otab, bids, bids.arr, asks, asks.arr
      ensures Valid() && (table.otab == old(table.otab) || fresh(table.otab))
      ensures ok <==> Fits(Step(m, loc, msg), bids.arr.Length)
      ensures ok ==> Follows(msg, m, loc, seen, old(out))
    {
      hide LadderOf, AddLvl, RemLvl, Top, Parser.Valid;
      LevelsFollowOrders(m, loc, msg, true);
      LevelsFollowOrders(m, loc, msg, false);
      var o := table.otab[i].val;
      TakeShares(i, o.qty);
      Capacities();
      ok := AddOrder(msg.ts, msg.newRef, Order(o.buy, msg.price, msg.shares));
    }

    method OnReplace(msg: Msg, ghost m: Orders, ghost loc: nat, ghost seen: Bbo) returns (ok: bool)
      requires Valid() && Shows(m, loc, seen) && Sane(m, loc, msg) && Exact(m, loc, msg) && msg.Replace?
      modifies this, table, table.otab, bids, bids.arr, asks, asks.arr
      ensures Valid() && (table.otab == old(table.otab) || fresh(table.otab))
      ensures ok <==> (Touches(m, loc, msg) ==> Fits(Step(m, loc, msg), bids.arr.Length))
      ensures ok ==> Follows(msg, m, loc, seen, old(out))
    {
      hide LadderOf, AddLvl, RemLvl, Top, PriceLadders.Sound, TombTables.Sound;
      if !Touches(m, loc, msg) {
        UntouchedIsUnchanged(m, loc, msg);
      }
      if !(haveLocate && msg.loc == targetLocate) {
        return true;
      }
      var i := table.Find(msg.ref);
      if i < 0 {
        return true;
      }
      ok := ReplaceLive(i, msg, m, loc, seen);
    }

    /** One message: not `ok`, the overflow exit, exactly if a side outgrew its array; otherwise the
        state shows the message's meaning and one record is printed exactly if the top moved. */
    method Feed(msg: Msg, ghost m: Orders, ghost loc: nat, ghost seen: Bbo) returns (ok: bool)
      requires Valid() && Shows(m, loc, seen) && Sane(m, loc, msg) && Exact(m, loc, msg)
      modifies this, table, table.otab, bids, bids.arr, asks, asks.arr
      ensures Valid() && (table.otab == old(table.otab) || fresh(table.otab))
      ensures ok <==> (Touches(m, loc, msg) ==> Fits(Step(m, loc, msg), bids.arr.Length))
      ensures ok ==> Follows(msg, m, loc, seen, old(out))
    {
      hide LadderOf, AddLvl, RemLvl, Top, PriceLadders.Sound, TombTables.Sound;
      match msg
      case Add(_, _, _, _, _, _, _) => ok := OnAdd(msg, m, loc, seen);
      case Reduce(_, _, _, _, _) =>
        OnTake(msg, m, loc, seen);
        ok := true;
      case Delete(_, _, _) =>
        OnTake(msg, m, loc, seen);
        ok := true;
      case Replace(_, _, _, _, _, _) => ok := OnReplace(msg, m, loc, seen);
      case Directory(_, l, stock) =>
        if stock {
          targetLocate, haveLocate := l, true;
        }
        ok := true;
      case Other(_, _) => ok := true;
    }
  }

  /** The whole parse: it ends with the overflow exit exactly if some book of the run needs more
      levels than a ladder holds, and otherwise prints the change-detected top of book. */
  method Run(cap: nat, hash: nat -> nat, maxLevels: nat, loc: nat, msgs: seq<Msg>) returns (p: Parser, ok: bool)
    requires 4 <= cap && ExactFeed(loc, msgs)
    ensures ok <==> AllFit(loc, msgs, |msgs|, maxLevels)
    ensures ok ==> p.out == Records(loc, msgs)
  {
    p := new Parser(cap, hash, maxLevels);
    p.EmptyBook();
    hide Parser.Shows;
    for i := 0 to |msgs|
      invariant fresh(p) && fresh(p.table) && fresh(p.table.otab) && fresh(p.bids) && fresh(p.bids.arr)
      invariant fresh(p.asks) && fresh(p.asks.arr)
      invariant p.Valid() && p.bids.arr.Length == maxLevels
      invariant p.Shows(After(loc, msgs[..i]), loc, Seen(loc, msgs[..i]))
      invariant p.out == Records(loc, msgs[..i])
      invariant AllFit(loc, msgs, i, maxLevels)
    {
      hide Parser.Valid, Parser.Shows, Step, Touches, TopOfBook, Fits, AllFit, After, Seen, Records;
      OneMoreFits(loc, msgs, i, maxLevels);
      OneMore(loc, msgs, i);
      ghost var m := After(loc, msgs[..i]);
      if !Touches(m, loc, msgs[i]) {
        UntouchedIsUnchanged(m, loc, msgs[i]);
      }
      ok := p.Feed(msgs[i], m, loc, Seen(loc, msgs[..i]));
      if !ok {
        return;
      }
    }
    assert msgs[..|msgs|] == msgs;
    ok := true;
  }

  lemma ExactIsSane(loc: nat, msgs: seq<Msg>)
    requires ExactFeed(loc, msgs)
    ensures SaneFeed(loc, msgs)
  {
  }

  /** The sorted-array book and the dictionary book print the same records. */
  method PrintBoth(cap: nat, hash: nat -> nat, maxLevels: nat, loc: nat, msgs: seq<Msg>)
    returns (parsed: seq<Record>, dumped: seq<Record>, ok: bool)
    requires 4 <= cap && ExactFeed(loc, msgs)
    ensures ok <==> AllFit(loc, msgs, |msgs|, maxLevels)
    ensures ok ==> parsed == dumped
    ensures dumped == Records(loc, msgs)
  {
    ExactIsSane(loc, msgs);
    hide ExactFeed, SaneFeed, AllFit;
    var p, fit := Run(cap, hash, maxLevels, loc, msgs);
    var d := BboDump.Run(loc, msgs);
    return p.out, d.out, fit;
  }
}

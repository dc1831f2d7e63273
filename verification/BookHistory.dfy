/** The live orders of one locate, told from the messages alone. */
module BookHistory {
  import opened Itch
  import opened Levels
  import opened BookModel
  import opened History
  import Shares

  /** The book keeps the adds of its locate and the replaces of orders it holds. */
  ghost predicate Joins(m: Orders, loc: nat, msg: Msg) {
    (msg.Add? && msg.loc == loc) || (msg.Replace? && msg.ref in m)
  }

  ghost function Joined(loc: nat, msgs: seq<Msg>): (joined: seq<bool>)
    ensures |joined| == |msgs|
    ensures forall k :: 0 <= k < |msgs| ==> joined[k] == Joins(After(loc, msgs[..k]), loc, msgs[k])
  {
    seq(|msgs|, (k: nat) => k < |msgs| && Joins(After(loc, msgs[..k]), loc, msgs[k]))
  }

  lemma JoinedPrefix(loc: nat, msgs: seq<Msg>, n: nat)
    requires n <= |msgs|
    ensures Joined(loc, msgs)[..n] == Joined(loc, msgs[..n])
  {
    hide Joins, After;
    forall k | 0 <= k < n
      ensures msgs[..n][..k] == msgs[..k]
    {
    }
  }

  ghost predicate SameShares(m: Orders, h: Shares.Orders) {
    m.Keys == h.Keys && forall r :: r in m ==> m[r].qty == h[r]
  }

  lemma StepIsApply(m: Orders, h: Shares.Orders, loc: nat, msg: Msg)
    requires SameShares(m, h)
    ensures SameShares(Step(m, loc, msg), Apply(h, msg, Joins(m, loc, msg)))
  {
  }

  lemma {:induction false} BookIsHeld(loc: nat, msgs: seq<Msg>)
    ensures SameShares(After(loc, msgs), Held(Joined(loc, msgs), msgs))
  {
    if msgs != [] {
      var n := |msgs| - 1;
      BookIsHeld(loc, msgs[..n]);
      hide SameShares, Step, Apply, Joins;
      JoinedPrefix(loc, msgs, n);
      StepIsApply(After(loc, msgs[..n]), Held(Joined(loc, msgs[..n]), msgs[..n]), loc, msgs[n]);
    }
  }

  /** The order a post brings, given the orders before it: a replace keeps the side of the order it replaces. */
  ghost predicate Brings(m: Orders, msg: Msg, o: Order) {
    match msg
    case Add(_, _, _, _, buy, _, price) => o.buy == buy && o.price == price
    case Replace(_, _, ref, _, _, price) => ref in m && o.buy == m[ref].buy && o.price == price
    case _ => false
  }

  lemma StepBrings(m: Orders, loc: nat, msg: Msg, r: nat)
    ensures Joins(m, loc, msg) && Posts(msg, r) ==> r in Step(m, loc, msg) && Brings(m, msg, Step(m, loc, msg)[r])
    ensures !(Joins(m, loc, msg) && Posts(msg, r)) && r in Step(m, loc, msg) ==>
      r in m && Step(m, loc, msg)[r].buy == m[r].buy && Step(m, loc, msg)[r].price == m[r].price
  {
  }

  lemma {:induction false} SidePriceKept(loc: nat, msgs: seq<Msg>, k: nat, r: nat)
    requires k < |msgs| && Stands(Joined(loc, msgs), msgs, k, r)
    ensures r in After(loc, msgs) && Brings(After(loc, msgs[..k]), msgs[k], After(loc, msgs)[r])
  {
    hide Stands, Step, Posts, Joins, Held, Taken, Joined, SameShares;
    var n := |msgs| - 1;
    StandsIsHeld(loc, msgs, k, r);
    StepBrings(After(loc, msgs[..n]), loc, msgs[n], r);
    if k < n {
      StandsNext(Joined(loc, msgs), msgs, k, r);
      JoinedPrefix(loc, msgs, n);
      SidePriceKept(loc, msgs[..n], k, r);
      assert msgs[..n][..k] == msgs[..k];
    } else {
      StandsLast(Joined(loc, msgs), msgs, r);
    }
  }

  lemma StandsIsHeld(loc: nat, msgs: seq<Msg>, k: nat, r: nat)
    requires k < |msgs| && Stands(Joined(loc, msgs), msgs, k, r)
    ensures r in After(loc, msgs)
  {
    hide Stands, Joined;
    BookIsHeld(loc, msgs);
    HeldIff(Joined(loc, msgs), msgs, r);
  }

  /** On every feed an order is in the book exactly if it stands on a message that the book keeps; it has the side and
      price that message brought, and the shares left of it. */
  lemma BookIff(loc: nat, msgs: seq<Msg>, r: nat)
    ensures r in After(loc, msgs) <==> exists k :: 0 <= k < |msgs| && Stands(Joined(loc, msgs), msgs, k, r)
    ensures forall k :: 0 <= k < |msgs| && Stands(Joined(loc, msgs), msgs, k, r) ==>
      && r in After(loc, msgs) && Brings(After(loc, msgs[..k]), msgs[k], After(loc, msgs)[r])
      && After(loc, msgs)[r].qty == msgs[k].shares - Taken(msgs[k + 1..], r)
  {
    BookIsHeld(loc, msgs);
    HeldIff(Joined(loc, msgs), msgs, r);
    hide Stands, Brings, Taken, Held, Joined, After;
    forall k | 0 <= k < |msgs| && Stands(Joined(loc, msgs), msgs, k, r)
      ensures r in After(loc, msgs) && Brings(After(loc, msgs[..k]), msgs[k], After(loc, msgs)[r])
    {
      SidePriceKept(loc, msgs, k, r);
    }
  }
}

/** What a feed leaves of each order, told from its messages alone: the post an order stands on, and the shares
    taken off it since. */
module History {
  import opened Itch
  import opened Shares

  /** The message brings order `r`, by an add or as the new ref of a replace. */
  predicate Posts(msg: Msg, r: nat) {
    (msg.Add? && msg.ref == r) || (msg.Replace? && msg.newRef == r)
  }

  predicate Ends(msg: Msg, r: nat) {
    (msg.Delete? || msg.Replace?) && msg.ref == r
  }

  predicate Cuts(msg: Msg, r: nat) {
    msg.Reduce? && msg.ref == r
  }

  /** The shares that executions and cancels take off `r`. */
  function Taken(msgs: seq<Msg>, r: nat): nat {
    if msgs == [] then 0
    else Taken(msgs[..|msgs| - 1], r) + if Cuts(msgs[|msgs| - 1], r) then msgs[|msgs| - 1].shares else 0
  }

  /** Order `r` stands on message `k`: that post landed, nothing since has posted, deleted or replaced it, and the
      reductions since leave shares of it. (An order posted with no shares is there until it is first reduced.) */
  ghost predicate Stands(landed: seq<bool>, msgs: seq<Msg>, k: nat, r: nat)
    requires k < |msgs| == |landed|
  {
    && landed[k] && Posts(msgs[k], r)
    && (forall j :: k < j < |msgs| ==> !Ends(msgs[j], r) && !(landed[j] && Posts(msgs[j], r)))
    && (Taken(msgs[k + 1..], r) < msgs[k].shares || forall j :: k < j < |msgs| ==> !Cuts(msgs[j], r))
  }

  /** The orders that result when message `k` may post exactly if `landed[k]`. */
  ghost function Held(landed: seq<bool>, msgs: seq<Msg>): Orders
    requires |landed| == |msgs|
  {
    if msgs == [] then map[]
    else
      var n := |msgs| - 1;
      Apply(Held(landed[..n], msgs[..n]), msgs[n], landed[n])
  }

  ghost function Apply(m: Orders, msg: Msg, lands: bool): Orders {
    match msg
    case Add(_, _, _, ref, _, shares, _) => if lands then m[ref := shares] else m
    case Reduce(_, _, ref, shares, _) => Reduced(m, ref, shares)
    case Delete(_, _, ref) => m - {ref}
    case Replace(_, _, ref, newRef, shares, _) => if lands then (m - {ref})[newRef := shares] else m - {ref}
    case _ => m
  }

  lemma TakenNext(msgs: seq<Msg>, k: nat, r: nat)
    requires k < |msgs| - 1
    ensures Taken(msgs[k + 1..], r)
         == Taken(msgs[..|msgs| - 1][k + 1..], r) + if Cuts(msgs[|msgs| - 1], r) then msgs[|msgs| - 1].shares else 0
  {
    var n := |msgs| - 1;
    assert msgs[k + 1..][..n - k - 1] == msgs[..n][k + 1..];
  }

  /** How the last message changes what stands. */
  lemma StandsNext(landed: seq<bool>, msgs: seq<Msg>, k: nat, r: nat)
    requires k < |msgs| - 1 && |landed| == |msgs|
    ensures var n := |msgs| - 1;
      Stands(landed, msgs, k, r)
      <==> Stands(landed[..n], msgs[..n], k, r) && !Ends(msgs[n], r) && !(landed[n] && Posts(msgs[n], r))
           && (Cuts(msgs[n], r) ==> Taken(msgs[k + 1..], r) < msgs[k].shares)
  {
    var n := |msgs| - 1;
    TakenNext(msgs, k, r);
    hide Taken, Posts, Ends, Cuts;
    forall j | k < j < n
      ensures msgs[..n][j] == msgs[j] && landed[..n][j] == landed[j]
    {
    }
  }

  lemma StandsLast(landed: seq<bool>, msgs: seq<Msg>, r: nat)
    requires msgs != [] && |landed| == |msgs|
    ensures Stands(landed, msgs, |msgs| - 1, r) <==> landed[|msgs| - 1] && Posts(msgs[|msgs| - 1], r)
  {
    assert msgs[|msgs|..] == [];
  }

  /** An order stands on one message only. */
  lemma StandsOnce(landed: seq<bool>, msgs: seq<Msg>, i: nat, k: nat, r: nat)
    requires i < |msgs| == |landed| && k < |msgs| && Stands(landed, msgs, i, r) && Stands(landed, msgs, k, r)
    ensures i == k
  {
    hide Posts, Ends, Cuts, Taken;
  }

  lemma ApplyAt(m: Orders, msg: Msg, lands: bool, r: nat)
    ensures lands && Posts(msg, r) ==> r in Apply(m, msg, lands) && Apply(m, msg, lands)[r] == msg.shares
    ensures !(lands && Posts(msg, r)) && Ends(msg, r) ==> r !in Apply(m, msg, lands)
    ensures !(lands && Posts(msg, r)) && !Ends(msg, r) ==>
      if r !in m then r !in Apply(m, msg, lands)
      else if Cuts(msg, r) && m[r] <= msg.shares then r !in Apply(m, msg, lands)
      else r in Apply(m, msg, lands) && Apply(m, msg, lands)[r] == m[r] - if Cuts(msg, r) then msg.shares else 0
  {
  }

  lemma {:induction false} StandingIsHeld(landed: seq<bool>, msgs: seq<Msg>, k: nat, r: nat)
    requires k < |msgs| == |landed| && Stands(landed, msgs, k, r)
    ensures r in Held(landed, msgs) && Held(landed, msgs)[r] == msgs[k].shares - Taken(msgs[k + 1..], r)
  {
    hide Posts, Ends, Cuts, Stands, Apply, Taken;
    var n := |msgs| - 1;
    ApplyAt(Held(landed[..n], msgs[..n]), msgs[n], landed[n], r);
    if k < n {
      StandsNext(landed, msgs, k, r);
      TakenNext(msgs, k, r);
      StandingIsHeld(landed[..n], msgs[..n], k, r);
    } else {
      StandsLast(landed, msgs, r);
      NothingTaken(r);
      assert msgs[n + 1..] == [];
    }
  }

  lemma NothingTaken(r: nat)
    ensures Taken([], r) == 0
  {
  }

  lemma {:induction false} HeldStands(landed: seq<bool>, msgs: seq<Msg>, r: nat) returns (k: nat)
    requires |landed| == |msgs| && r in Held(landed, msgs)
    ensures k < |msgs| && Stands(landed, msgs, k, r)
  {
    hide Posts, Ends, Cuts, Stands, Apply, Taken;
    var n := |msgs| - 1;
    ApplyAt(Held(landed[..n], msgs[..n]), msgs[n], landed[n], r);
    StandsLast(landed, msgs, r);
    if landed[n] && Posts(msgs[n], r) {
      k := n;
    } else {
      k := HeldStands(landed[..n], msgs[..n], r);
      StandingIsHeld(landed[..n], msgs[..n], k, r);
      StandsNext(landed, msgs, k, r);
      TakenNext(msgs, k, r);
    }
  }

  /** An order is held exactly if it stands on some message, and then with the shares posted there less those taken
      since. */
  lemma HeldIff(landed: seq<bool>, msgs: seq<Msg>, r: nat)
    requires |landed| == |msgs|
    ensures r in Held(landed, msgs) <==> exists k :: 0 <= k < |msgs| && Stands(landed, msgs, k, r)
    ensures forall k :: 0 <= k < |msgs| && Stands(landed, msgs, k, r) ==>
      r in Held(landed, msgs) && Held(landed, msgs)[r] == msgs[k].shares - Taken(msgs[k + 1..], r)
  {
    hide Ends, Cuts, Taken, Held;
    forall k | 0 <= k < |msgs| && Stands(landed, msgs, k, r)
      ensures r in Held(landed, msgs) && Held(landed, msgs)[r] == msgs[k].shares - Taken(msgs[k + 1..], r)
    {
      StandingIsHeld(landed, msgs, k, r);
    }
    if r in Held(landed, msgs) {
      var k := HeldStands(landed, msgs, r);
    }
  }
}

/** The live-order counters of itch_hist and sym_conc, told from the messages alone. */
module LiveHistory {
  import opened Itch
  import opened History
  import LiveOrders
  import SymbolPeaks

  /** Both tools keep every post. */
  function AllLand(n: nat): (landed: seq<bool>)
    ensures |landed| == n && forall k :: 0 <= k < n ==> landed[k]
  {
    seq(n, _ => true)
  }

  lemma {:induction false} LiveIsHeld(msgs: seq<Msg>)
    ensures LiveOrders.After(msgs) == Held(AllLand(|msgs|), msgs)
  {
    if msgs != [] {
      var n := |msgs| - 1;
      LiveIsHeld(msgs[..n]);
      assert AllLand(n) == AllLand(n + 1)[..n];
    }
  }

  /** On every feed: a ref is live exactly if some add or replace posted it, nothing later posted, deleted or replaced
      it, and later reductions left shares of it; it then has the shares posted less those reductions. */
  lemma LiveIff(msgs: seq<Msg>, r: nat)
    ensures r in LiveOrders.After(msgs) <==> exists k :: 0 <= k < |msgs| && Stands(AllLand(|msgs|), msgs, k, r)
    ensures forall k :: 0 <= k < |msgs| && Stands(AllLand(|msgs|), msgs, k, r) ==>
      r in LiveOrders.After(msgs) && LiveOrders.After(msgs)[r] == msgs[k].shares - Taken(msgs[k + 1..], r)
  {
    LiveIsHeld(msgs);
    HeldIff(AllLand(|msgs|), msgs, r);
  }

  /** The messages that name a ref without a standing post. */
  ghost function Missed(msgs: seq<Msg>): set<nat> {
    set k | 0 <= k < |msgs| && MissesAt(msgs, k)
  }

  ghost predicate MissesAt(msgs: seq<Msg>, k: nat)
    requires k < |msgs|
  {
    && (msgs[k].Reduce? || msgs[k].Delete? || msgs[k].Replace?)
    && !exists i :: 0 <= i < k && Stands(AllLand(k), msgs[..k], i, msgs[k].ref)
  }

  lemma MissedNext(msgs: seq<Msg>, n: nat)
    requires |msgs| == n + 1
    ensures |Missed(msgs)| == |Missed(msgs[..n])| + if MissesAt(msgs, n) then 1 else 0
  {
    hide MissesAt;
    forall k | 0 <= k < n
      ensures MissesAt(msgs, k) <==> MissesAt(msgs[..n], k)
    {
      MissPrefix(msgs, n, k);
    }
    assert Missed(msgs) == Missed(msgs[..n]) + if MissesAt(msgs, n) then {n} else {};
  }

  lemma MissPrefix(msgs: seq<Msg>, n: nat, k: nat)
    requires k < n <= |msgs|
    ensures MissesAt(msgs, k) <==> MissesAt(msgs[..n], k)
  {
    hide Stands;
    assert msgs[..n][..k] == msgs[..k];
  }

  lemma MissIff(msgs: seq<Msg>, n: nat)
    requires |msgs| == n + 1
    ensures LiveOrders.Miss(LiveOrders.After(msgs[..n]), msgs[n]) == if MissesAt(msgs, n) then 1 else 0
  {
    hide Stands, LiveOrders.After, Taken;
    LiveIff(msgs[..n], if msgs[n].Reduce? || msgs[n].Delete? || msgs[n].Replace? then msgs[n].ref else 0);
  }

  /** The miss counter is the number of those messages. */
  lemma {:induction false} MissesAreCounted(msgs: seq<Msg>)
    ensures LiveOrders.Misses(msgs) == |Missed(msgs)|
  {
    hide MissesAt;
    if msgs != [] {
      var n := |msgs| - 1;
      MissesAreCounted(msgs[..n]);
      MissedNext(msgs, n);
      MissIff(msgs, n);
    }
  }

  // ---- per locate ----

  lemma {:induction false} SameOrders(msgs: seq<Msg>)
    ensures SymbolPeaks.After(msgs).Keys == LiveOrders.After(msgs).Keys
    ensures forall r :: r in SymbolPeaks.After(msgs) ==> SymbolPeaks.After(msgs)[r].qty == LiveOrders.After(msgs)[r]
  {
    if msgs != [] {
      SameOrders(msgs[..|msgs| - 1]);
    }
  }

  /** The locate a post gives its order: an add's own; a replace's is that of the order replaced, if that was live. */
  ghost function LocateOf(msgs: seq<Msg>, k: nat): nat
    requires k < |msgs|
  {
    var before := SymbolPeaks.After(msgs[..k]);
    if msgs[k].Replace? && msgs[k].ref in before then before[msgs[k].ref].loc else msgs[k].loc
  }

  lemma {:induction false} LocateKept(msgs: seq<Msg>, k: nat, r: nat)
    requires k < |msgs| && Stands(AllLand(|msgs|), msgs, k, r)
    ensures r in SymbolPeaks.After(msgs) && SymbolPeaks.After(msgs)[r].loc == LocateOf(msgs, k)
  {
    hide Stands, AllLand, LiveOrders.After;
    SameOrders(msgs);
    LiveIff(msgs, r);
    var n := |msgs| - 1;
    assert AllLand(n) == AllLand(n + 1)[..n];
    if k < n {
      StandsNext(AllLand(n + 1), msgs, k, r);
      LocateKept(msgs[..n], k, r);
      assert msgs[..n][..k] == msgs[..k];
    } else {
      StandsLast(AllLand(n + 1), msgs, r);
    }
  }

  /** On every feed: the per-locate table holds the same orders, each under the locate its post gave it. */
  lemma SymbolLiveIff(msgs: seq<Msg>, r: nat)
    ensures r in SymbolPeaks.After(msgs) <==> exists k :: 0 <= k < |msgs| && Stands(AllLand(|msgs|), msgs, k, r)
    ensures forall k :: 0 <= k < |msgs| && Stands(AllLand(|msgs|), msgs, k, r) ==>
      && r in SymbolPeaks.After(msgs) && SymbolPeaks.After(msgs)[r].loc == LocateOf(msgs, k)
      && SymbolPeaks.After(msgs)[r].qty == msgs[k].shares - Taken(msgs[k + 1..], r)
  {
    hide Stands, Taken, LocateOf, LiveOrders.After, SymbolPeaks.After;
    SameOrders(msgs);
    LiveIff(msgs, r);
    forall k | 0 <= k < |msgs| && Stands(AllLand(|msgs|), msgs, k, r)
      ensures r in SymbolPeaks.After(msgs) && SymbolPeaks.After(msgs)[r].loc == LocateOf(msgs, k)
    {
      LocateKept(msgs, k, r);
    }
  }
}

/** The set-associative table at two associativities: when more ways lose no more orders. */
module MoreWays {
  import opened Itch
  import opened SetAssoc
  import opened Shares

  /** A table with more ways holds all the narrower one does, is ahead in no set by more than the
      extra ways, and has lost no more inserts. */
  ghost predicate Nested(a: Sim, wa: nat, b: Sim, wb: nat, setOf: nat -> nat) {
    && SubMap(a.m, b.m)
    && b.overflow <= a.overflow
    && (forall s :: |InSet(b.m, setOf, s)| - |InSet(a.m, setOf, s)| <= wb - wa)
  }

  lemma InsNested(a: Sim, wa: nat, b: Sim, wb: nat, setOf: nat -> nat, ref: nat, q: nat)
    requires Nested(a, wa, b, wb, setOf) && wa <= wb && ref !in b.m
    requires |InSet(a.m, setOf, setOf(ref))| <= wa
    ensures Nested(Ins(a, setOf, wa, ref, q), wa, Ins(b, setOf, wb, ref, q), wb, setOf)
  {
    forall s
      ensures |InSet(a.m[ref := q], setOf, s)| == |InSet(a.m, setOf, s)| + if setOf(ref) == s then 1 else 0
      ensures |InSet(b.m[ref := q], setOf, s)| == |InSet(b.m, setOf, s)| + if setOf(ref) == s then 1 else 0
    {
      InSetPut(a.m, setOf, ref, q, s);
      InSetPut(b.m, setOf, ref, q, s);
    }
    hide InSet;
    assert |InSet(b.m, setOf, setOf(ref))| - |InSet(a.m, setOf, setOf(ref))| <= wb - wa;
  }

  lemma ReducedNested(a: Sim, wa: nat, b: Sim, wb: nat, setOf: nat -> nat, ref: nat, q: nat)
    requires Nested(a, wa, b, wb, setOf)
    ensures Nested(Dec(a, ref, q), wa, Dec(b, ref, q), wb, setOf)
  {
    forall s
      ensures |InSet(Dec(b, ref, q).m, setOf, s)| - |InSet(Dec(a, ref, q).m, setOf, s)| <= wb - wa
    {
      InSetReduced(a.m, setOf, ref, q, s);
      InSetReduced(b.m, setOf, ref, q, s);
    }
  }

  lemma DelNested(a: Sim, wa: nat, b: Sim, wb: nat, setOf: nat -> nat, ref: nat)
    requires Nested(a, wa, b, wb, setOf)
    ensures Nested(Del(a, ref), wa, Del(b, ref), wb, setOf)
  {
    forall s
      ensures |InSet(Del(b, ref).m, setOf, s)| - |InSet(Del(a, ref).m, setOf, s)| <= wb - wa
    {
      InSetRemove(a.m, setOf, ref, s);
      InSetRemove(b.m, setOf, ref, s);
    }
  }

  /** A replace whose old ref only the wider table tracks moves an order there alone. There is room for it when its
      new set stays within the extra ways or, that set being full, the wider table has a lost insert in hand. */
  ghost predicate Room(a: Sim, wa: nat, b: Sim, wb: nat, setOf: nat -> nat, ref: nat, newRef: nat) {
    var s := setOf(newRef);
    var left := |InSet(b.m - {ref}, setOf, s)|;
    if left < wb then left - |InSet(a.m, setOf, s)| < wb - wa else b.overflow < a.overflow
  }

  ghost predicate Uneven(a: Sim, b: Sim, msg: Msg) {
    msg.Replace? && msg.ref in b.m && msg.ref !in a.m
  }

  lemma UnevenSizes(b: Sim, wb: nat, setOf: nat -> nat, ref: nat, newRef: nat, q: nat, s: nat)
    requires newRef !in b.m - {ref}
    ensures |InSet(Ins(Del(b, ref), setOf, wb, newRef, q).m, setOf, s)|
         == |InSet(b.m - {ref}, setOf, s)|
            + if s == setOf(newRef) && |InSet(b.m - {ref}, setOf, s)| < wb then 1 else 0
    ensures |InSet(b.m - {ref}, setOf, s)| <= |InSet(b.m, setOf, s)|
  {
    InSetRemove(b.m, setOf, ref, s);
    InSetPut(b.m - {ref}, setOf, newRef, q, s);
    hide InSet;
    assert ref !in b.m ==> b.m - {ref} == b.m;
  }

  lemma UnevenSubMap(a: Orders, b: Orders, ref: nat, newRef: nat, q: nat)
    requires SubMap(a, b) && ref !in a && newRef !in b - {ref}
    ensures SubMap(a, b - {ref}) && SubMap(a, (b - {ref})[newRef := q])
  {
  }

  lemma UnevenNested(a: Sim, wa: nat, b: Sim, wb: nat, setOf: nat -> nat, ref: nat, newRef: nat, q: nat)
    requires Nested(a, wa, b, wb, setOf) && wa <= wb
    requires ref in b.m && ref !in a.m && newRef !in b.m - {ref}
    ensures Nested(Del(a, ref), wa, Ins(Del(b, ref), setOf, wb, newRef, q), wb, setOf)
       <==> Room(a, wa, b, wb, setOf, ref, newRef)
  {
    hide InSet, SubMap;
    var b' := Ins(Del(b, ref), setOf, wb, newRef, q);
    UnevenSubMap(a.m, b.m, ref, newRef, q);
    forall s
      ensures |InSet(b'.m, setOf, s)| - |InSet(a.m, setOf, s)| <= wb - wa
         <==> s != setOf(newRef) || |InSet(b.m - {ref}, setOf, s)| >= wb
              || |InSet(b.m - {ref}, setOf, s)| - |InSet(a.m, setOf, s)| < wb - wa
    {
      UnevenSizes(b, wb, setOf, ref, newRef, q, s);
      assert |InSet(b.m, setOf, s)| - |InSet(a.m, setOf, s)| <= wb - wa;
    }
  }

  /** Every other message keeps the tables nested. */
  lemma EvenNested(a: Sim, wa: nat, b: Sim, wb: nat, setOf: nat -> nat, tracks: nat -> bool, msg: Msg)
    requires Nested(a, wa, b, wb, setOf) && wa <= wb && !Uneven(a, b, msg)
    requires Fresh(b.m, tracks, msg) && forall s :: Counted(a, setOf, wa, s)
    ensures Nested(Step(a, setOf, wa, tracks, msg), wa, Step(b, setOf, wb, tracks, msg), wb, setOf)
  {
    hide InSet;
    match msg
    case Add(_, loc, _, ref, _, shares, _) =>
      if tracks(loc) {
        assert Counted(a, setOf, wa, setOf(ref));
        InsNested(a, wa, b, wb, setOf, ref, shares);
      }
    case Reduce(_, _, ref, shares, _) => ReducedNested(a, wa, b, wb, setOf, ref, shares);
    case Delete(_, _, ref) => DelNested(a, wa, b, wb, setOf, ref);
    case Replace(_, _, ref, newRef, shares, _) =>
      DelNested(a, wa, b, wb, setOf, ref);
      assert Counted(a, setOf, wa, setOf(newRef));
      DelCounted(a, setOf, wa, ref, setOf(newRef));
      if ref in a.m {
        InsNested(Del(a, ref), wa, Del(b, ref), wb, setOf, newRef, shares);
      }
    case _ =>
  }

  ghost predicate NestedAt(setOf: nat -> nat, wa: nat, wb: nat, tracks: nat -> bool, msgs: seq<Msg>) {
    Nested(After(setOf, wa, tracks, msgs), wa, After(setOf, wb, tracks, msgs), wb, setOf)
  }

  /** The last message, if it is an uneven replace, finds room. */
  ghost predicate RoomAt(setOf: nat -> nat, wa: nat, wb: nat, tracks: nat -> bool, before: seq<Msg>, msg: Msg) {
    var a, b := After(setOf, wa, tracks, before), After(setOf, wb, tracks, before);
    Uneven(a, b, msg) ==> Room(a, wa, b, wb, setOf, msg.ref, msg.newRef)
  }

  lemma OneMessage(setOf: nat -> nat, wa: nat, wb: nat, tracks: nat -> bool, before: seq<Msg>, msg: Msg)
    requires wa <= wb && WellFormed(tracks, before + [msg]) && NestedAt(setOf, wa, wb, tracks, before)
    ensures NestedAt(setOf, wa, wb, tracks, before + [msg]) <==> RoomAt(setOf, wa, wb, tracks, before, msg)
  {
    var all := before + [msg];
    assert all[..|all| - 1] == before;
    Prefix(all, tracks);
    TracksASubMap(setOf, wb, tracks, before);
    var a, b := After(setOf, wa, tracks, before), After(setOf, wb, tracks, before);
    FreshInSubMap(b.m, Exact(tracks, before), tracks, msg);
    if Uneven(a, b, msg) {
      hide InSet, Room, Nested;
      UnevenNested(a, wa, b, wb, setOf, msg.ref, msg.newRef, msg.shares);
    } else {
      forall s
        ensures Counted(a, setOf, wa, s)
      {
        CountersBound(setOf, wa, tracks, before, s);
      }
      hide InSet, Nested, Counted;
      EvenNested(a, wa, b, wb, setOf, tracks, msg);
    }
  }

  lemma FreshInSubMap(m: Orders, e: Orders, tracks: nat -> bool, msg: Msg)
    requires SubMap(m, e) && Fresh(e, tracks, msg)
    ensures Fresh(m, tracks, msg)
  {
  }

  /** At equal hash the wider table stays a superset of the narrower one, ahead in no set by more than the extra ways
      and with no more lost inserts, after every message of a feed, if and only if every replace that moves an order in
      the wider table alone finds room. */
  lemma {:induction false} MoreWaysNeverWorseIff(setOf: nat -> nat, wa: nat, wb: nat, tracks: nat -> bool, msgs: seq<Msg>)
    requires wa <= wb && WellFormed(tracks, msgs)
    ensures (forall k :: 0 <= k <= |msgs| ==> NestedAt(setOf, wa, wb, tracks, msgs[..k]))
       <==> (forall k :: 0 <= k < |msgs| ==> RoomAt(setOf, wa, wb, tracks, msgs[..k], msgs[k]))
  {
    hide NestedAt, RoomAt, WellFormed;
    if msgs == [] {
      StartNested(setOf, wa, wb, tracks);
      assert msgs[..0] == [];
    } else {
      var front, n := msgs[..|msgs| - 1], |msgs| - 1;
      Prefix(msgs, tracks);
      MoreWaysNeverWorseIff(setOf, wa, wb, tracks, front);
      forall k | 0 <= k <= n
        ensures msgs[..k] == front[..k]
      {
      }
      assert msgs[..n] == front && msgs[..n + 1] == msgs == front + [msgs[n]] && front[..n] == front;
      if NestedAt(setOf, wa, wb, tracks, front) {
        OneMessage(setOf, wa, wb, tracks, front, msgs[n]);
      }
    }
  }

  lemma StartNested(setOf: nat -> nat, wa: nat, wb: nat, tracks: nat -> bool)
    requires wa <= wb
    ensures NestedAt(setOf, wa, wb, tracks, [])
  {
  }

  /** A replace is even when both tables track its old ref or neither does. */
  ghost predicate Even(setOf: nat -> nat, wa: nat, wb: nat, tracks: nat -> bool, msgs: seq<Msg>) {
    forall k :: 0 <= k < |msgs| && msgs[k].Replace? ==>
      (msgs[k].ref in After(setOf, wa, tracks, msgs[..k]).m <==> msgs[k].ref in After(setOf, wb, tracks, msgs[..k]).m)
  }

  /** In particular on every feed whose replaces are all even ... */
  lemma MoreWaysNeverWorse(setOf: nat -> nat, wa: nat, wb: nat, tracks: nat -> bool, msgs: seq<Msg>)
    requires wa <= wb && WellFormed(tracks, msgs) && Even(setOf, wa, wb, tracks, msgs)
    ensures Nested(After(setOf, wa, tracks, msgs), wa, After(setOf, wb, tracks, msgs), wb, setOf)
  {
    hide After, Room, Nested;
    MoreWaysNeverWorseIff(setOf, wa, wb, tracks, msgs);
    forall k | 0 <= k < |msgs|
      ensures RoomAt(setOf, wa, wb, tracks, msgs[..k], msgs[k])
    {
    }
    assert NestedAt(setOf, wa, wb, tracks, msgs[..|msgs|]) && msgs[..|msgs|] == msgs;
  }

  /** ... and so on every feed without replaces, which a caller can see. */
  lemma NoReplacesNeverWorse(setOf: nat -> nat, wa: nat, wb: nat, tracks: nat -> bool, msgs: seq<Msg>)
    requires wa <= wb && WellFormed(tracks, msgs) && forall k :: 0 <= k < |msgs| ==> !msgs[k].Replace?
    ensures After(setOf, wb, tracks, msgs).overflow <= After(setOf, wa, tracks, msgs).overflow
    ensures SubMap(After(setOf, wa, tracks, msgs).m, After(setOf, wb, tracks, msgs).m)
  {
    hide After;
    MoreWaysNeverWorse(setOf, wa, wb, tracks, msgs);
  }
}

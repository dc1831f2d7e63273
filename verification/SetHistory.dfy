/** What the set-associative table and its golden model hold, and what the table's counters count, told from the
    messages. */
module SetHistory {
  import opened Itch
  import opened Shares
  import opened History
  import opened SetAssoc

  // ---- the golden model ----

  /** A message asks for an insert: an add of a tracked locate, or a replace of an order that is held. The golden
      model keeps every post so asked for. */
  ghost predicate Asks(tracks: nat -> bool, before: Orders, msg: Msg) {
    (msg.Add? && tracks(msg.loc)) || (msg.Replace? && msg.ref in before)
  }

  ghost function ExactLanded(tracks: nat -> bool, msgs: seq<Msg>): (landed: seq<bool>)
    ensures |landed| == |msgs|
    ensures forall k :: 0 <= k < |msgs| ==> landed[k] == Asks(tracks, Exact(tracks, msgs[..k]), msgs[k])
  {
    seq(|msgs|, (k: nat) => k < |msgs| && Asks(tracks, Exact(tracks, msgs[..k]), msgs[k]))
  }

  lemma ExactLandedPrefix(tracks: nat -> bool, msgs: seq<Msg>, n: nat)
    requires n <= |msgs|
    ensures ExactLanded(tracks, msgs)[..n] == ExactLanded(tracks, msgs[..n])
  {
    hide Asks;
    forall k | 0 <= k < n
      ensures msgs[..n][..k] == msgs[..k]
    {
    }
  }

  lemma {:induction false} ExactIsHeld(tracks: nat -> bool, msgs: seq<Msg>)
    ensures Exact(tracks, msgs) == Held(ExactLanded(tracks, msgs), msgs)
  {
    if msgs != [] {
      var n := |msgs| - 1;
      ExactIsHeld(tracks, msgs[..n]);
      ExactLandedPrefix(tracks, msgs, n);
      UnknownIsAbsent(Exact(tracks, msgs[..n]), msgs[n]);
    }
  }

  lemma UnknownIsAbsent(m: Orders, msg: Msg)
    ensures (msg.Delete? || msg.Replace?) && msg.ref !in m ==> m - {msg.ref} == m
  {
  }

  /** On every feed the golden model holds exactly the orders that stand, with the shares left of them. */
  lemma ExactIff(tracks: nat -> bool, msgs: seq<Msg>, r: nat)
    ensures r in Exact(tracks, msgs) <==> exists k :: 0 <= k < |msgs| && Stands(ExactLanded(tracks, msgs), msgs, k, r)
    ensures forall k :: 0 <= k < |msgs| && Stands(ExactLanded(tracks, msgs), msgs, k, r) ==>
      r in Exact(tracks, msgs) && Exact(tracks, msgs)[r] == msgs[k].shares - Taken(msgs[k + 1..], r)
  {
    ExactIsHeld(tracks, msgs);
    HeldIff(ExactLanded(tracks, msgs), msgs, r);
  }

  // ---- the table ----

  ghost function Asked(msg: Msg): nat
    requires msg.Add? || msg.Replace?
  {
    if msg.Add? then msg.ref else msg.newRef
  }

  /** The set of the order asked for has a way left, once the replaced order is out. */
  ghost predicate HasWay(setOf: nat -> nat, ways: nat, before: Orders, msg: Msg) {
    && (msg.Add? || msg.Replace?)
    && |InSet(if msg.Replace? then before - {msg.ref} else before, setOf, setOf(Asked(msg)))| < ways
  }

  ghost predicate Lands(setOf: nat -> nat, ways: nat, tracks: nat -> bool, before: Orders, msg: Msg) {
    Asks(tracks, before, msg) && HasWay(setOf, ways, before, msg)
  }

  ghost function Landed(setOf: nat -> nat, ways: nat, tracks: nat -> bool, msgs: seq<Msg>): (landed: seq<bool>)
    ensures |landed| == |msgs|
    ensures forall k :: 0 <= k < |msgs| ==>
      landed[k] == Lands(setOf, ways, tracks, After(setOf, ways, tracks, msgs[..k]).m, msgs[k])
  {
    seq(|msgs|, (k: nat) => k < |msgs| && Lands(setOf, ways, tracks, After(setOf, ways, tracks, msgs[..k]).m, msgs[k]))
  }

  lemma LandedPrefix(setOf: nat -> nat, ways: nat, tracks: nat -> bool, msgs: seq<Msg>, n: nat)
    requires n <= |msgs|
    ensures Landed(setOf, ways, tracks, msgs)[..n] == Landed(setOf, ways, tracks, msgs[..n])
  {
    hide Lands, After;
    forall k | 0 <= k < n
      ensures msgs[..n][..k] == msgs[..k]
    {
    }
  }

  lemma StepIsApply(t: Sim, setOf: nat -> nat, ways: nat, tracks: nat -> bool, msg: Msg)
    ensures Step(t, setOf, ways, tracks, msg).m == Apply(t.m, msg, Lands(setOf, ways, tracks, t.m, msg))
  {
    hide InSet;
    UnknownIsAbsent(t.m, msg);
  }

  lemma {:induction false} TrackedIsHeld(setOf: nat -> nat, ways: nat, tracks: nat -> bool, msgs: seq<Msg>)
    ensures After(setOf, ways, tracks, msgs).m == Held(Landed(setOf, ways, tracks, msgs), msgs)
  {
    hide Lands, Step, Apply;
    if msgs != [] {
      var n := |msgs| - 1;
      TrackedIsHeld(setOf, ways, tracks, msgs[..n]);
      LandedPrefix(setOf, ways, tracks, msgs, n);
      StepIsApply(After(setOf, ways, tracks, msgs[..n]), setOf, ways, tracks, msgs[n]);
    }
  }

  /** On every feed the table tracks exactly the orders that stand on a message that asked for an insert when the
      order's set had a way left, with the shares left of them. */
  lemma TrackedIff(setOf: nat -> nat, ways: nat, tracks: nat -> bool, msgs: seq<Msg>, r: nat)
    ensures r in After(setOf, ways, tracks, msgs).m
       <==> exists k :: 0 <= k < |msgs| && Stands(Landed(setOf, ways, tracks, msgs), msgs, k, r)
    ensures forall k :: 0 <= k < |msgs| && Stands(Landed(setOf, ways, tracks, msgs), msgs, k, r) ==>
      && r in After(setOf, ways, tracks, msgs).m
      && After(setOf, ways, tracks, msgs).m[r] == msgs[k].shares - Taken(msgs[k + 1..], r)
  {
    hide Landed, After;
    TrackedIsHeld(setOf, ways, tracks, msgs);
    HeldIff(Landed(setOf, ways, tracks, msgs), msgs, r);
  }

  // ---- the counters ----

  /** How many of the messages have a property, given what the table tracks before each. */
  ghost function CountOf(setOf: nat -> nat, ways: nat, tracks: nat -> bool, msgs: seq<Msg>, p: (Orders, Msg) -> bool): nat {
    |Counted(setOf, ways, tracks, msgs, p)|
  }

  ghost function Counted(setOf: nat -> nat, ways: nat, tracks: nat -> bool, msgs: seq<Msg>, p: (Orders, Msg) -> bool): set<nat> {
    set k | 0 <= k < |msgs| && p(After(setOf, ways, tracks, msgs[..k]).m, msgs[k])
  }

  lemma CountNext(setOf: nat -> nat, ways: nat, tracks: nat -> bool, msgs: seq<Msg>, p: (Orders, Msg) -> bool)
    requires msgs != []
    ensures var n := |msgs| - 1;
      CountOf(setOf, ways, tracks, msgs, p) == CountOf(setOf, ways, tracks, msgs[..n], p)
        + if p(After(setOf, ways, tracks, msgs[..n]).m, msgs[n]) then 1 else 0
  {
    hide After;
    var n := |msgs| - 1;
    forall k | 0 <= k < n
      ensures msgs[..n][..k] == msgs[..k] && msgs[..n][k] == msgs[k]
    {
    }
    assert Counted(setOf, ways, tracks, msgs, p)
        == Counted(setOf, ways, tracks, msgs[..n], p)
           + if p(After(setOf, ways, tracks, msgs[..n]).m, msgs[n]) then {n} else {};
  }

  ghost function Unknown(): (Orders, Msg) -> bool {
    (m: Orders, msg: Msg) => (msg.Reduce? || msg.Delete? || msg.Replace?) && msg.ref !in m
  }

  ghost function Drops(): (Orders, Msg) -> bool {
    (m: Orders, msg: Msg) => (msg.Delete? || msg.Replace?) && msg.ref in m
  }

  ghost function Decrements(): (Orders, Msg) -> bool {
    (m: Orders, msg: Msg) => msg.Reduce? && msg.ref in m
  }

  ghost function Lost(setOf: nat -> nat, ways: nat, tracks: nat -> bool): (Orders, Msg) -> bool {
    (m: Orders, msg: Msg) => Asks(tracks, m, msg) && !HasWay(setOf, ways, m, msg)
  }

  ghost function Lasting(setOf: nat -> nat, ways: nat, tracks: nat -> bool): (Orders, Msg) -> bool {
    (m: Orders, msg: Msg) => Lands(setOf, ways, tracks, m, msg)
  }

  /** Each report counter is the number of messages it stands for: inserts with a way left and without one, deletes
      and replaces of tracked orders, reductions of tracked orders, and messages that name an untracked ref. */
  lemma {:induction false} CountersCount(setOf: nat -> nat, ways: nat, tracks: nat -> bool, msgs: seq<Msg>)
    ensures var t := After(setOf, ways, tracks, msgs);
      && t.inserts == CountOf(setOf, ways, tracks, msgs, Lasting(setOf, ways, tracks))
      && t.overflow == CountOf(setOf, ways, tracks, msgs, Lost(setOf, ways, tracks))
      && t.deletes == CountOf(setOf, ways, tracks, msgs, Drops())
      && t.decs == CountOf(setOf, ways, tracks, msgs, Decrements())
      && t.miss == CountOf(setOf, ways, tracks, msgs, Unknown())
  {
    hide CountOf, InSet;
    if msgs == [] {
      NothingCounted(setOf, ways, tracks, Lasting(setOf, ways, tracks));
      NothingCounted(setOf, ways, tracks, Lost(setOf, ways, tracks));
      NothingCounted(setOf, ways, tracks, Drops());
      NothingCounted(setOf, ways, tracks, Decrements());
      NothingCounted(setOf, ways, tracks, Unknown());
    } else {
      CountersCount(setOf, ways, tracks, msgs[..|msgs| - 1]);
      CountNext(setOf, ways, tracks, msgs, Lasting(setOf, ways, tracks));
      CountNext(setOf, ways, tracks, msgs, Lost(setOf, ways, tracks));
      CountNext(setOf, ways, tracks, msgs, Drops());
      CountNext(setOf, ways, tracks, msgs, Decrements());
      CountNext(setOf, ways, tracks, msgs, Unknown());
    }
  }

  lemma NothingCounted(setOf: nat -> nat, ways: nat, tracks: nat -> bool, p: (Orders, Msg) -> bool)
    ensures CountOf(setOf, ways, tracks, [], p) == 0
  {
    assert Counted(setOf, ways, tracks, [], p) == {};
  }
}

/** A feed on which doubling the ways of the set-associative table makes it lose more inserts. */
module UnevenReplace {
  import opened Itch
  import opened SetAssoc
  import opened Shares

  lemma Extend(setOf: nat -> nat, tracks: nat -> bool, msgs: seq<Msg>, msg: Msg)
    requires WellFormed(tracks, msgs) && Fresh(Exact(tracks, msgs), tracks, msg)
    ensures WellFormed(tracks, msgs + [msg])
    ensures Exact(tracks, msgs + [msg]) == ExactStep(Exact(tracks, msgs), tracks, msg)
    ensures After(setOf, 1, tracks, msgs + [msg]) == Step(After(setOf, 1, tracks, msgs), setOf, 1, tracks, msg)
    ensures After(setOf, 2, tracks, msgs + [msg]) == Step(After(setOf, 2, tracks, msgs), setOf, 2, tracks, msg)
  {
    assert (msgs + [msg])[..|msgs|] == msgs;
    forall k | 0 <= k < |msgs| + 1
      ensures (msgs + [msg])[..k] == if k == |msgs| then msgs else msgs[..k]
    {
    }
  }

  function Parity(r: nat): nat {
    r % 2
  }

  function Everything(loc: nat): bool {
    true
  }

  function New(r: nat): Msg {
    Add(0, 0, true, r, true, 1, 1)
  }

  /** After `msgs` the live orders are `e`, one way tracks `a` and two ways track `b`. */
  ghost predicate Reached(msgs: seq<Msg>, e: Orders, a: Orders, lostA: nat, b: Orders, lostB: nat) {
    && WellFormed(Everything, msgs)
    && Exact(Everything, msgs) == e
    && After(Parity, 1, Everything, msgs).m == a && After(Parity, 1, Everything, msgs).overflow == lostA
    && After(Parity, 2, Everything, msgs).m == b && After(Parity, 2, Everything, msgs).overflow == lostB
  }

  lemma ReachNothing()
    ensures Reached([], map[], map[], 0, map[], 0)
  {
  }

  lemma ReachAdd(msgs: seq<Msg>, e: Orders, a: Orders, lostA: nat, b: Orders, lostB: nat, r: nat)
    requires Reached(msgs, e, a, lostA, b, lostB) && r != 0 && r !in e
    ensures var fa, fb := |InSet(a, Parity, r % 2)| < 1, |InSet(b, Parity, r % 2)| < 2;
      Reached(msgs + [New(r)], e[r := 1], if fa then a[r := 1] else a, if fa then lostA else lostA + 1,
              if fb then b[r := 1] else b, if fb then lostB else lostB + 1)
  {
    Extend(Parity, Everything, msgs, New(r));
  }

  /** Order `r`, which only two ways track, is replaced by `n`. */
  lemma ReachReplace(msgs: seq<Msg>, e: Orders, a: Orders, lostA: nat, b: Orders, lostB: nat, r: nat, n: nat)
    requires Reached(msgs, e, a, lostA, b, lostB) && r != 0 && n != 0 && n !in e
    requires r in e && r !in a && r in b && |InSet(b - {r}, Parity, n % 2)| < 2
    ensures Reached(msgs + [Replace(0, 0, r, n, 1, 1)], (e - {r})[n := 1], a, lostA, (b - {r})[n := 1], lostB)
  {
    Extend(Parity, Everything, msgs, Replace(0, 0, r, n, 1, 1));
  }

  lemma ReachDelete(msgs: seq<Msg>, e: Orders, a: Orders, lostA: nat, b: Orders, lostB: nat, r: nat)
    requires Reached(msgs, e, a, lostA, b, lostB) && r != 0
    ensures Reached(msgs + [Delete(0, 0, r)], e - {r}, a - {r}, lostA, b - {r}, lostB)
  {
    Extend(Parity, Everything, msgs, Delete(0, 0, r));
    assert r !in a ==> a - {r} == a;
    assert r !in b ==> b - {r} == b;
  }

  const TWO: Orders := map[2 := 1]
  const TWO_ONE: Orders := map[2 := 1, 1 := 1]
  const FULL_ODD: Orders := map[2 := 1, 1 := 1, 3 := 1]

  lemma Sizes()
    ensures |InSet(map[], Parity, 0)| == 0 && |InSet(TWO, Parity, 0)| == 1 && |InSet(TWO, Parity, 1)| == 0
    ensures |InSet(TWO_ONE, Parity, 0)| == 1 && |InSet(TWO_ONE, Parity, 1)| == 1
  {
    assert InSet(map[], Parity, 0) == map[] && InSet(TWO, Parity, 0) == TWO && InSet(TWO, Parity, 1) == map[];
    assert InSet(TWO_ONE, Parity, 0) == TWO && InSet(TWO_ONE, Parity, 1) == map[1 := 1];
  }

  lemma FullOddSize()
    ensures |InSet(FULL_ODD, Parity, 1)| == 2
  {
    assert InSet(FULL_ODD, Parity, 1) == map[1 := 1, 3 := 1];
    assert map[1 := 1, 3 := 1].Keys == {1, 3};
  }

  lemma Maps()
    ensures TWO == map[][2 := 1] && TWO_ONE == TWO[1 := 1] && FULL_ODD == TWO_ONE[3 := 1]
    ensures TWO[4 := 1] - {4} == TWO && TWO_ONE[6 := 1] - {6} == TWO_ONE
    ensures FULL_ODD[5 := 1] - {5} == FULL_ODD == FULL_ODD - {5} && TWO[5 := 1] - {5} == TWO
    ensures 6 !in TWO_ONE && 5 !in FULL_ODD && 4 !in TWO && 3 !in TWO_ONE[6 := 1] && 1 !in TWO[4 := 1]
  {
  }

  lemma StartOne() returns (msgs: seq<Msg>)
    ensures Reached(msgs, TWO, TWO, 0, TWO, 0)
  {
    hide Reached, InSet;
    ReachNothing();
    Sizes();
    Maps();
    ReachAdd([], map[], map[], 0, map[], 0, 2);
    msgs := [] + [New(2)];
  }

  lemma Start() returns (msgs: seq<Msg>)
    ensures Reached(msgs, TWO[4 := 1], TWO, 1, TWO[4 := 1], 0)
  {
    hide Reached, InSet;
    msgs := StartOne();
    Sizes();
    Maps();
    ReachAdd(msgs, TWO, TWO, 0, TWO, 0, 4);
    msgs := msgs + [New(4)];
  }

  /** Two orders are pushed into the odd set by replaces that the one-way table never saw. */
  lemma Prefix() returns (msgs: seq<Msg>)
    ensures Reached(msgs, FULL_ODD, TWO, 2, FULL_ODD, 0)
  {
    hide Reached, InSet;
    msgs := Start();
    Sizes();
    Maps();
    ReachReplace(msgs, TWO[4 := 1], TWO, 1, TWO[4 := 1], 0, 4, 1);
    msgs := msgs + [Replace(0, 0, 4, 1, 1, 1)];
    ReachAdd(msgs, TWO_ONE, TWO, 1, TWO_ONE, 0, 6);
    msgs := msgs + [New(6)];
    ReachReplace(msgs, TWO_ONE[6 := 1], TWO, 2, TWO_ONE[6 := 1], 0, 6, 3);
    msgs := msgs + [Replace(0, 0, 6, 3, 1, 1)];
  }

  /** Adding and deleting order 5 then costs the two-way table an insert each time. */
  lemma {:induction false} Rounds(n: nat) returns (msgs: seq<Msg>)
    ensures Reached(msgs, FULL_ODD, TWO, 2, FULL_ODD, n)
  {
    if n == 0 {
      msgs := Prefix();
    } else {
      hide Reached, InSet;
      msgs := Rounds(n - 1);
      Sizes();
      FullOddSize();
      Maps();
      ReachAdd(msgs, FULL_ODD, TWO, 2, FULL_ODD, n - 1, 5);
      msgs := msgs + [New(5)];
      ReachDelete(msgs, FULL_ODD[5 := 1], TWO[5 := 1], 2, FULL_ODD, n, 5);
      msgs := msgs + [Delete(0, 0, 5)];
    }
  }

  /** So an uneven replace breaks it: where one way loses two inserts, two ways lose any number. */
  lemma MoreWaysCanBeWorse(n: nat)
    ensures exists msgs :: (WellFormed(Everything, msgs)
      && After(Parity, 1, Everything, msgs).overflow == 2 && After(Parity, 2, Everything, msgs).overflow == n)
  {
    var msgs := Rounds(n);
  }
}

/** What the set-associative order table of otable_sim tracks, and how it compares with the exact
    map of live orders and with itself at other associativities. */
module SetAssoc {
  import opened Itch
  import opened MinMax
  import opened Shares

  /** The orders of `m` that hash to set `s`. */
  ghost function InSet(m: Orders, setOf: nat -> nat, s: nat): Orders {
    map r | r in m && setOf(r) == s :: m[r]
  }

  lemma InSetPut(m: Orders, setOf: nat -> nat, ref: nat, q: nat, s: nat)
    ensures InSet(m[ref := q], setOf, s) == if setOf(ref) == s then InSet(m, setOf, s)[ref := q] else InSet(m, setOf, s)
    ensures ref !in m ==> |InSet(m[ref := q], setOf, s)| == |InSet(m, setOf, s)| + if setOf(ref) == s then 1 else 0
    ensures ref in m ==> |InSet(m[ref := q], setOf, s)| == |InSet(m, setOf, s)|
  {
    var before, after := InSet(m, setOf, s), InSet(m[ref := q], setOf, s);
    assert after == if setOf(ref) == s then before[ref := q] else before;
    assert ref in m && setOf(ref) == s ==> before[ref := q].Keys == before.Keys;
  }

  lemma InSetRemove(m: Orders, setOf: nat -> nat, ref: nat, s: nat)
    ensures InSet(m - {ref}, setOf, s) == InSet(m, setOf, s) - {ref}
    ensures ref in m && setOf(ref) == s ==> |InSet(m - {ref}, setOf, s)| == |InSet(m, setOf, s)| - 1
    ensures ref !in m || setOf(ref) != s ==> |InSet(m - {ref}, setOf, s)| == |InSet(m, setOf, s)|
  {
    var before := InSet(m, setOf, s);
    assert InSet(m - {ref}, setOf, s) == before - {ref};
    if ref in m && setOf(ref) == s {
      assert (before - {ref}).Keys == before.Keys - {ref};
    } else {
      assert before - {ref} == before;
    }
  }

  /** The exact map of the golden model: every tracked order, whatever the table's capacity. */
  ghost function ExactStep(m: Orders, tracks: nat -> bool, msg: Msg): Orders {
    match msg
    case Add(_, loc, _, ref, _, shares, _) => if tracks(loc) then m[ref := shares] else m
    case Reduce(_, _, ref, shares, _) => Reduced(m, ref, shares)
    case Delete(_, _, ref) => m - {ref}
    case Replace(_, _, ref, newRef, shares, _) => if ref in m then (m - {ref})[newRef := shares] else m
    case _ => m
  }

  ghost function Exact(tracks: nat -> bool, msgs: seq<Msg>): Orders {
    if msgs == [] then map[] else ExactStep(Exact(tracks, msgs[..|msgs| - 1]), tracks, msgs[|msgs| - 1])
  }

  /** Refs are nonzero and fresh while live. */
  ghost predicate Fresh(m: Orders, tracks: nat -> bool, msg: Msg) {
    match msg
    case Add(_, loc, _, ref, _, _, _) => tracks(loc) ==> ref != 0 && ref !in m
    case Reduce(_, _, ref, _, _) => ref != 0
    case Delete(_, _, ref) => ref != 0
    case Replace(_, _, ref, newRef, _, _) => ref != 0 && newRef != 0 && newRef !in m - {ref}
    case _ => true
  }

  ghost predicate WellFormed(tracks: nat -> bool, msgs: seq<Msg>) {
    forall k :: 0 <= k < |msgs| ==> Fresh(Exact(tracks, msgs[..k]), tracks, msgs[k])
  }

  /** What the table tracks, with its report counters. */
  datatype Sim = Sim(m: Orders, overflow: nat, inserts: nat, deletes: nat, decs: nat, miss: nat,
                     maxOcc: nat, livePeak: nat)

  /** An insert lands when its set has a free way and is lost, counted, otherwise. */
  ghost function Ins(t: Sim, setOf: nat -> nat, ways: nat, ref: nat, q: nat): Sim {
    var s := setOf(ref);
    if |InSet(t.m, setOf, s)| < ways then
      var m' := t.m[ref := q];
      t.(m := m', inserts := t.inserts + 1,
         maxOcc := Max(t.maxOcc, |InSet(m', setOf, s)|), livePeak := Max(t.livePeak, |m'|))
    else
      t.(overflow := t.overflow + 1)
  }

  ghost function Del(t: Sim, ref: nat): Sim {
    if ref in t.m then t.(m := t.m - {ref}, deletes := t.deletes + 1) else t.(miss := t.miss + 1)
  }

  ghost function Dec(t: Sim, ref: nat, q: nat): Sim {
    if ref in t.m then t.(m := Reduced(t.m, ref, q), decs := t.decs + 1) else t.(miss := t.miss + 1)
  }

  /** A replace re-inserts only if the old ref was tracked. */
  ghost function Step(t: Sim, setOf: nat -> nat, ways: nat, tracks: nat -> bool, msg: Msg): Sim {
    match msg
    case Add(_, loc, _, ref, _, shares, _) => if tracks(loc) then Ins(t, setOf, ways, ref, shares) else t
    case Reduce(_, _, ref, shares, _) => Dec(t, ref, shares)
    case Delete(_, _, ref) => Del(t, ref)
    case Replace(_, _, ref, newRef, shares, _) =>
      if ref in t.m then Ins(Del(t, ref), setOf, ways, newRef, shares) else Del(t, ref)
    case _ => t
  }

  ghost function After(setOf: nat -> nat, ways: nat, tracks: nat -> bool, msgs: seq<Msg>): Sim {
    if msgs == [] then Sim(map[], 0, 0, 0, 0, 0, 0, 0)
    else Step(After(setOf, ways, tracks, msgs[..|msgs| - 1]), setOf, ways, tracks, msgs[|msgs| - 1])
  }

  ghost predicate SubMap(a: Orders, b: Orders) {
    forall r :: r in a ==> r in b && a[r] == b[r]
  }

  lemma Prefix(msgs: seq<Msg>, tracks: nat -> bool)
    requires WellFormed(tracks, msgs) && msgs != []
    ensures WellFormed(tracks, msgs[..|msgs| - 1])
    ensures Fresh(Exact(tracks, msgs[..|msgs| - 1]), tracks, msgs[|msgs| - 1])
  {
    forall k | 0 <= k < |msgs| - 1
      ensures msgs[..|msgs| - 1][..k] == msgs[..k]
    {
    }
  }

  /** The table never tracks an order that is not live, nor a wrong quantity. */
  lemma {:induction false} TracksASubMap(setOf: nat -> nat, ways: nat, tracks: nat -> bool, msgs: seq<Msg>)
    requires WellFormed(tracks, msgs)
    ensures SubMap(After(setOf, ways, tracks, msgs).m, Exact(tracks, msgs))
  {
    if msgs != [] {
      Prefix(msgs, tracks);
      TracksASubMap(setOf, ways, tracks, msgs[..|msgs| - 1]);
    }
  }

  lemma InSetReduced(m: Orders, setOf: nat -> nat, ref: nat, q: nat, s: nat)
    ensures |InSet(Reduced(m, ref, q), setOf, s)|
         == |InSet(m, setOf, s)| - if ref in m && m[ref] <= q && setOf(ref) == s then 1 else 0
    ensures Reduced(m, ref, q).Keys <= m.Keys
  {
    if ref in m {
      if m[ref] > q {
        InSetPut(m, setOf, ref, m[ref] - q, s);
      } else {
        InSetRemove(m, setOf, ref, s);
      }
    }
  }

  /** Set `s` holds at most `maxOcc` orders, and `maxOcc` never passes the ways. */
  ghost predicate Counted(t: Sim, setOf: nat -> nat, ways: nat, s: nat) {
    |InSet(t.m, setOf, s)| <= t.maxOcc <= ways && |t.m| <= t.livePeak
  }

  lemma InsCounted(t: Sim, setOf: nat -> nat, ways: nat, ref: nat, q: nat, s: nat)
    requires Counted(t, setOf, ways, s) && ref !in t.m
    ensures Counted(Ins(t, setOf, ways, ref, q), setOf, ways, s)
  {
    InSetPut(t.m, setOf, ref, q, s);
    InSetPut(t.m, setOf, ref, q, setOf(ref));
  }

  lemma DelCounted(t: Sim, setOf: nat -> nat, ways: nat, ref: nat, s: nat)
    requires Counted(t, setOf, ways, s)
    ensures Counted(Del(t, ref), setOf, ways, s)
  {
    InSetRemove(t.m, setOf, ref, s);
    if ref in t.m {
      assert t.m == (t.m - {ref})[ref := t.m[ref]];
    }
  }

  lemma DecCounted(t: Sim, setOf: nat -> nat, ways: nat, ref: nat, q: nat, s: nat)
    requires Counted(t, setOf, ways, s)
    ensures Counted(Dec(t, ref, q), setOf, ways, s)
  {
    InSetReduced(t.m, setOf, ref, q, s);
    SizeOfReduced(t.m, ref, q);
  }

  lemma SizeOfReduced(m: Orders, ref: nat, q: nat)
    ensures |Reduced(m, ref, q)| <= |m|
  {
    InSetReduced(m, (_) => 0, ref, q, 0);
    assert InSet(m, (_) => 0, 0) == m && InSet(Reduced(m, ref, q), (_) => 0, 0) == Reduced(m, ref, q);
  }

  /** No set ever holds more orders than ways; `maxOcc` and `livePeak` bound every state. */
  lemma {:induction false} CountersBound(setOf: nat -> nat, ways: nat, tracks: nat -> bool, msgs: seq<Msg>, s: nat)
    requires WellFormed(tracks, msgs)
    ensures Counted(After(setOf, ways, tracks, msgs), setOf, ways, s)
  {
    if msgs != [] {
      var front, msg := msgs[..|msgs| - 1], msgs[|msgs| - 1];
      var t := After(setOf, ways, tracks, front);
      Prefix(msgs, tracks);
      TracksASubMap(setOf, ways, tracks, front);
      CountersBound(setOf, ways, tracks, front, s);
      hide Counted;
      match msg
      case Add(_, loc, _, ref, _, shares, _) =>
        if tracks(loc) {
          InsCounted(t, setOf, ways, ref, shares, s);
        }
      case Reduce(_, _, ref, shares, _) => DecCounted(t, setOf, ways, ref, shares, s);
      case Delete(_, _, ref) => DelCounted(t, setOf, ways, ref, s);
      case Replace(_, _, ref, newRef, shares, _) =>
        DelCounted(t, setOf, ways, ref, s);
        if ref in t.m {
          InsCounted(Del(t, ref), setOf, ways, newRef, shares, s);
        }
      case _ =>
    } else {
      assert InSet(map[], setOf, s) == map[];
    }
  }

  /** `maxOcc` is reached: some set held that many orders after some message. */
  lemma {:induction false} MaxOccIsReached(setOf: nat -> nat, ways: nat, tracks: nat -> bool, msgs: seq<Msg>)
    returns (k: nat, s: nat)
    ensures k <= |msgs|
    ensures |InSet(After(setOf, ways, tracks, msgs[..k]).m, setOf, s)| == After(setOf, ways, tracks, msgs).maxOcc
  {
    if msgs == [] {
      k, s := 0, 0;
      assert InSet(map[], setOf, s) == map[];
    } else {
      var front, msg := msgs[..|msgs| - 1], msgs[|msgs| - 1];
      if After(setOf, ways, tracks, msgs).maxOcc == After(setOf, ways, tracks, front).maxOcc {
        k, s := MaxOccIsReached(setOf, ways, tracks, front);
        assert msgs[..k] == front[..k];
      } else {
        k, s := |msgs|, setOf(if msg.Replace? then msg.newRef else msg.ref);
        assert msgs[..k] == msgs;
      }
    }
  }

  /** `livePeak` is reached as well. */
  lemma {:induction false} LivePeakIsReached(setOf: nat -> nat, ways: nat, tracks: nat -> bool, msgs: seq<Msg>)
    returns (k: nat)
    ensures k <= |msgs|
    ensures |After(setOf, ways, tracks, msgs[..k]).m| == After(setOf, ways, tracks, msgs).livePeak
  {
    if msgs == [] {
      k := 0;
    } else if After(setOf, ways, tracks, msgs).livePeak == After(setOf, ways, tracks, msgs[..|msgs| - 1]).livePeak {
      k := LivePeakIsReached(setOf, ways, tracks, msgs[..|msgs| - 1]);
      assert msgs[..k] == msgs[..|msgs| - 1][..k];
    } else {
      k := |msgs|;
      assert msgs[..k] == msgs;
    }
  }

  /** The live orders of some set outnumber the ways. */
  ghost predicate Crowded(m: Orders, setOf: nat -> nat, ways: nat, s: nat) {
    |InSet(m, setOf, s)| > ways
  }

  lemma StepIsExact(t: Sim, setOf: nat -> nat, ways: nat, tracks: nat -> bool, msg: Msg)
    ensures t.overflow <= Step(t, setOf, ways, tracks, msg).overflow
    ensures Step(t, setOf, ways, tracks, msg).overflow == t.overflow
        ==> Step(t, setOf, ways, tracks, msg).m == ExactStep(t.m, tracks, msg)
  {
    if (msg.Delete? || msg.Replace?) && msg.ref !in t.m {
      assert t.m - {msg.ref} == t.m;
    }
  }

  /** Until an insert is lost the table is the exact map. */
  lemma {:induction false} NoOverflowIsExact(setOf: nat -> nat, ways: nat, tracks: nat -> bool, msgs: seq<Msg>, k: nat)
    requires k <= |msgs|
    requires After(setOf, ways, tracks, msgs).overflow == 0
    ensures After(setOf, ways, tracks, msgs[..k]).overflow == 0
    ensures After(setOf, ways, tracks, msgs[..k]).m == Exact(tracks, msgs[..k])
  {
    if msgs != [] {
      var front := msgs[..|msgs| - 1];
      StepIsExact(After(setOf, ways, tracks, front), setOf, ways, tracks, msgs[|msgs| - 1]);
      if k == |msgs| {
        assert msgs[..k] == msgs && front[..|front|] == front;
        NoOverflowIsExact(setOf, ways, tracks, front, |front|);
      } else {
        assert msgs[..k] == front[..k];
        NoOverflowIsExact(setOf, ways, tracks, front, k);
      }
    } else {
      assert msgs[..k] == msgs;
    }
  }

  /** The first lost insert crowds its set, and parts the table from the exact map. */
  lemma {:induction false} OverflowCrowds(setOf: nat -> nat, ways: nat, tracks: nat -> bool, msgs: seq<Msg>)
    returns (k: nat, s: nat)
    requires WellFormed(tracks, msgs)
    requires After(setOf, ways, tracks, msgs).overflow > 0
    ensures k <= |msgs| && Crowded(Exact(tracks, msgs[..k]), setOf, ways, s)
    ensures After(setOf, ways, tracks, msgs[..k]).m != Exact(tracks, msgs[..k])
  {
    hide InSet, Step, ExactStep, Fresh, WellFormed;
    var front, msg := msgs[..|msgs| - 1], msgs[|msgs| - 1];
    Prefix(msgs, tracks);
    if After(setOf, ways, tracks, front).overflow > 0 {
      k, s := OverflowCrowds(setOf, ways, tracks, front);
      assert msgs[..k] == front[..k];
    } else {
      k := |msgs|;
      assert msgs[..k] == msgs && front[..|front|] == front;
      NoOverflowIsExact(setOf, ways, tracks, front, |front|);
      s := LostInsertCrowds(After(setOf, ways, tracks, front), setOf, ways, tracks, msg);
      CountersBound(setOf, ways, tracks, msgs, s);
    }
  }

  lemma LostInsertCrowds(t: Sim, setOf: nat -> nat, ways: nat, tracks: nat -> bool, msg: Msg) returns (s: nat)
    requires Fresh(t.m, tracks, msg) && Step(t, setOf, ways, tracks, msg).overflow > t.overflow
    ensures Crowded(ExactStep(t.m, tracks, msg), setOf, ways, s)
  {
    if msg.Add? {
      s := setOf(msg.ref);
      InSetPut(t.m, setOf, msg.ref, msg.shares, s);
    } else {
      s := setOf(msg.newRef);
      InSetPut(t.m - {msg.ref}, setOf, msg.newRef, msg.shares, s);
    }
  }

  /** Zero overflow is exactly the absence of a crowded set in any prefix ... */
  lemma OverflowIffCrowded(setOf: nat -> nat, ways: nat, tracks: nat -> bool, msgs: seq<Msg>)
    requires WellFormed(tracks, msgs)
    ensures After(setOf, ways, tracks, msgs).overflow == 0
       <==> forall k, s :: 0 <= k <= |msgs| ==> !Crowded(Exact(tracks, msgs[..k]), setOf, ways, s)
  {
    if After(setOf, ways, tracks, msgs).overflow == 0 {
      forall k, s | 0 <= k <= |msgs|
        ensures !Crowded(Exact(tracks, msgs[..k]), setOf, ways, s)
      {
        NoOverflowIsExact(setOf, ways, tracks, msgs, k);
        forall j | 0 <= j < k
          ensures msgs[..k][..j] == msgs[..j]
        {
        }
        CountersBound(setOf, ways, tracks, msgs[..k], s);
      }
    } else {
      var k, s := OverflowCrowds(setOf, ways, tracks, msgs);
    }
  }

  /** ... and exactly the table being the exact map after every message. */
  lemma OverflowIffDiffers(setOf: nat -> nat, ways: nat, tracks: nat -> bool, msgs: seq<Msg>)
    requires WellFormed(tracks, msgs)
    ensures After(setOf, ways, tracks, msgs).overflow == 0
       <==> forall k :: 0 <= k <= |msgs| ==> After(setOf, ways, tracks, msgs[..k]).m == Exact(tracks, msgs[..k])
  {
    if After(setOf, ways, tracks, msgs).overflow == 0 {
      forall k | 0 <= k <= |msgs|
        ensures After(setOf, ways, tracks, msgs[..k]).m == Exact(tracks, msgs[..k])
      {
        NoOverflowIsExact(setOf, ways, tracks, msgs, k);
      }
    } else {
      var k, s := OverflowCrowds(setOf, ways, tracks, msgs);
    }
  }
}

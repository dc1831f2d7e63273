/** The set-associative table of otable_sim: a flat array of `sets * ways` slots with its report
    counters, scanned way by way. */
module SetAssocTables {
  import opened Cyclic
  import opened Itch
  import opened SetAssoc
  import opened Shares
  import opened Slots

  /** First slot of a set. */
  function Base(st: nat, ways: nat): nat {
    st * ways
  }

  lemma RowFits(st: nat, sets: nat, ways: nat)
    requires st < sets
    ensures Base(st, ways) + ways <= Base(sets, ways)
  {
    assert (st + 1) * ways <= sets * ways;
  }

  lemma RowsApart(a: nat, b: nat, ways: nat)
    requires a < b
    ensures Base(a, ways) + ways <= Base(b, ways)
  {
    RowFits(a, b, ways);
  }

  /** The ways of one set. */
  ghost function Row(s: seq<Slot<nat>>, ways: nat, st: nat): seq<Slot<nat>>
    requires Base(st, ways) + ways <= |s|
  {
    s[Base(st, ways)..Base(st, ways) + ways]
  }

  /** Every set's ways hold exactly the tracked orders that hash to it. */
  ghost predicate Sound(s: seq<Slot<nat>>, occ: seq<nat>, setOf: nat -> nat, sets: nat, ways: nat, m: Orders) {
    && HomeInRange(setOf, sets)
    && |s| == Base(sets, ways) && |occ| == sets
    && forall st :: 0 <= st < sets ==> RowSound(s, occ, setOf, sets, ways, m, st)
  }

  ghost predicate RowSound(s: seq<Slot<nat>>, occ: seq<nat>, setOf: nat -> nat, sets: nat, ways: nat, m: Orders, st: nat)
    requires |s| == Base(sets, ways) && |occ| == sets && st < sets
  {
    RowFits(st, sets, ways);
    Represents(Row(s, ways, st), InSet(m, setOf, st)) && occ[st] == |InSet(m, setOf, st)|
  }

  /** Writing one way of one set leaves the other sets' ways alone. */
  lemma RowWrite(s: seq<Slot<nat>>, sets: nat, ways: nat, st: nat, w: nat, x: Slot<nat>, o: nat)
    requires |s| == Base(sets, ways) && st < sets && o < sets && w < ways
    ensures Base(st, ways) + w < |s| && Base(o, ways) + ways <= |s| && Base(st, ways) + ways <= |s|
    ensures Row(s[Base(st, ways) + w := x], ways, o) == if o == st then Row(s, ways, st)[w := x] else Row(s, ways, o)
  {
    RowFits(st, sets, ways);
    RowFits(o, sets, ways);
    if o < st {
      RowsApart(o, st, ways);
    } else if st < o {
      RowsApart(st, o, ways);
    }
    hide Base;
    var t, b := s[Base(st, ways) + w := x], Base(o, ways);
    forall k | 0 <= k < ways
      ensures Row(t, ways, o)[k] == if o == st && k == w then x else s[b + k]
    {
      assert Row(t, ways, o)[k] == t[b + k];
    }
  }

  /** Filling a free way adds one order to its set and touches no other. */
  lemma InsKeeps(s: seq<Slot<nat>>, occ: seq<nat>, setOf: nat -> nat, sets: nat, ways: nat, m: Orders,
                 w: nat, ref: nat, q: nat)
    requires Sound(s, occ, setOf, sets, ways, m) && w < ways && ref != 0 && ref !in m
    requires Base(setOf(ref), ways) + w < |s| && s[Base(setOf(ref), ways) + w].ref == 0
    ensures Sound(s[Base(setOf(ref), ways) + w := Slot(ref, q)], occ[setOf(ref) := occ[setOf(ref)] + 1],
                  setOf, sets, ways, m[ref := q])
  {
    var st := setOf(ref);
    var t, occ', m' := s[Base(st, ways) + w := Slot(ref, q)], occ[st := occ[st] + 1], m[ref := q];
    forall o | 0 <= o < sets
      ensures RowSound(t, occ', setOf, sets, ways, m', o)
    {
      hide Base, Represents, InSet;
      assert RowSound(s, occ, setOf, sets, ways, m, o);
      RowWrite(s, sets, ways, st, w, Slot(ref, q), o);
      PutInRow(Row(s, ways, o), m, setOf, ref, q, o, w);
    }
  }

  lemma PutInRow(row: seq<Slot<nat>>, m: Orders, setOf: nat -> nat, ref: nat, q: nat, o: nat, w: nat)
    requires Represents(row, InSet(m, setOf, o)) && ref != 0
    requires o == setOf(ref) ==> w < |row| && if ref in m then row[w].ref == ref else row[w].ref == 0
    ensures Represents(if o == setOf(ref) then row[w := Slot(ref, q)] else row, InSet(m[ref := q], setOf, o))
    ensures |InSet(m[ref := q], setOf, o)|
         == |InSet(m, setOf, o)| + if o == setOf(ref) && ref !in m then 1 else 0
  {
    hide Represents, InSet;
    InSetPut(m, setOf, ref, q, o);
    NotInSet(m, setOf, ref, o);
    if o == setOf(ref) {
      RepresentsPut(row, InSet(m, setOf, o), w, Slot(ref, q));
    }
  }

  lemma NotInSet(m: Orders, setOf: nat -> nat, ref: nat, s: nat)
    ensures ref in InSet(m, setOf, s) <==> ref in m && setOf(ref) == s
    ensures ref in InSet(m, setOf, s) ==> InSet(m, setOf, s)[ref] == m[ref]
  {
  }

  lemma ItsSetIsCounted(s: seq<Slot<nat>>, occ: seq<nat>, setOf: nat -> nat, sets: nat, ways: nat, m: Orders, ref: nat)
    requires Sound(s, occ, setOf, sets, ways, m) && ref in m
    ensures 0 < occ[setOf(ref)]
  {
    assert RowSound(s, occ, setOf, sets, ways, m, setOf(ref));
    hide Represents, Base;
    assert ref in InSet(m, setOf, setOf(ref));
  }

  lemma ClearKeeps(s: seq<Slot<nat>>, occ: seq<nat>, setOf: nat -> nat, sets: nat, ways: nat, m: Orders,
                   w: nat, ref: nat)
    requires Sound(s, occ, setOf, sets, ways, m) && w < ways && ref in m && ref != 0
    requires Base(setOf(ref), ways) + w < |s| && s[Base(setOf(ref), ways) + w].ref == ref
    ensures 0 < occ[setOf(ref)]
    ensures Sound(s[Base(setOf(ref), ways) + w := s[Base(setOf(ref), ways) + w].(ref := 0)],
                  occ[setOf(ref) := occ[setOf(ref)] - 1], setOf, sets, ways, m - {ref})
  {
    var st := setOf(ref);
    ItsSetIsCounted(s, occ, setOf, sets, ways, m, ref);
    var t := s[Base(st, ways) + w := s[Base(st, ways) + w].(ref := 0)];
    var occ', m' := occ[st := occ[st] - 1], m - {ref};
    forall o | 0 <= o < sets
      ensures RowSound(t, occ', setOf, sets, ways, m', o)
    {
      hide Base, InSet, Represents;
      assert RowSound(s, occ, setOf, sets, ways, m, o);
      RowWrite(s, sets, ways, st, w, t[Base(st, ways) + w], o);
      RemoveFromRow(Row(s, ways, o), m, setOf, ref, o, w);
    }
  }

  lemma RemoveFromRow(row: seq<Slot<nat>>, m: Orders, setOf: nat -> nat, ref: nat, o: nat, w: nat)
    requires Represents(row, InSet(m, setOf, o)) && ref in m && ref != 0
    requires o == setOf(ref) ==> w < |row| && row[w].ref == ref
    ensures Represents(if o == setOf(ref) then row[w := row[w].(ref := 0)] else row, InSet(m - {ref}, setOf, o))
    ensures |InSet(m - {ref}, setOf, o)| == |InSet(m, setOf, o)| - if o == setOf(ref) then 1 else 0
  {
    hide Represents, InSet;
    InSetRemove(m, setOf, ref, o);
    NotInSet(m, setOf, ref, o);
    if o == setOf(ref) {
      RepresentsClear(row, InSet(m, setOf, o), w);
    } else {
      assert InSet(m, setOf, o) - {ref} == InSet(m, setOf, o);
    }
  }

  lemma UpdateKeeps(s: seq<Slot<nat>>, occ: seq<nat>, setOf: nat -> nat, sets: nat, ways: nat, m: Orders,
                    w: nat, ref: nat, q: nat)
    requires Sound(s, occ, setOf, sets, ways, m) && w < ways && ref in m && ref != 0
    requires Base(setOf(ref), ways) + w < |s| && s[Base(setOf(ref), ways) + w].ref == ref
    ensures Sound(s[Base(setOf(ref), ways) + w := Slot(ref, q)], occ, setOf, sets, ways, m[ref := q])
  {
    var st := setOf(ref);
    var t, m' := s[Base(st, ways) + w := Slot(ref, q)], m[ref := q];
    forall o | 0 <= o < sets
      ensures RowSound(t, occ, setOf, sets, ways, m', o)
    {
      hide Base, Represents, InSet;
      assert RowSound(s, occ, setOf, sets, ways, m, o);
      RowWrite(s, sets, ways, st, w, Slot(ref, q), o);
      PutInRow(Row(s, ways, o), m, setOf, ref, q, o, w);
    }
  }

  /** A set has a free way exactly when it tracks fewer orders than ways. */
  lemma FreeWayIff(s: seq<Slot<nat>>, occ: seq<nat>, setOf: nat -> nat, sets: nat, ways: nat, m: Orders, st: nat)
    requires Sound(s, occ, setOf, sets, ways, m) && st < sets
    ensures Base(st, ways) + ways <= |s|
    ensures occ[st] == |InSet(m, setOf, st)| <= ways
    ensures |InSet(m, setOf, st)| < ways <==> exists w :: 0 <= w < ways && Row(s, ways, st)[w].ref == 0
  {
    RowFits(st, sets, ways);
    assert RowSound(s, occ, setOf, sets, ways, m, st);
    hide Represents;
    RoomLeft(Row(s, ways, st), InSet(m, setOf, st));
  }

  /** A ref is tracked exactly when some way of its set holds it. */
  lemma TrackedIff(s: seq<Slot<nat>>, occ: seq<nat>, setOf: nat -> nat, sets: nat, ways: nat, m: Orders, ref: nat)
    requires Sound(s, occ, setOf, sets, ways, m) && ref != 0
    ensures Base(setOf(ref), ways) + ways <= |s|
    ensures ref in m <==> exists w :: 0 <= w < ways && Row(s, ways, setOf(ref))[w].ref == ref
    ensures forall w :: 0 <= w < ways && Row(s, ways, setOf(ref))[w].ref == ref
                    ==> Row(s, ways, setOf(ref))[w] == Slot(ref, if ref in m then m[ref] else 0)
  {
    var st := setOf(ref);
    RowFits(st, sets, ways);
    assert RowSound(s, occ, setOf, sets, ways, m, st);
    NotInSet(m, setOf, ref, st);
    HeldIff(Row(s, ways, st), InSet(m, setOf, st), ref);
  }

  lemma HeldIff(row: seq<Slot<nat>>, m: Orders, ref: nat)
    requires Represents(row, m) && ref != 0
    ensures ref in m <==> exists w :: 0 <= w < |row| && row[w].ref == ref
    ensures forall w :: 0 <= w < |row| && row[w].ref == ref ==> ref in m && row[w].val == m[ref]
  {
  }

  class Table {
    const sets: nat
    const ways: nat
    const setOf: nat -> nat
    const slots: array<Slot<nat>>
    const occ: array<nat>
    var overflow: nat
    var inserts: nat
    var deletes: nat
    var decs: nat
    var miss: nat
    var maxOcc: nat
    var live: nat
    var livePeak: nat
    ghost var Contents: Orders

    ghost predicate Valid()
      reads this, slots, occ
    {
      Sound(slots[..], occ[..], setOf, sets, ways, Contents) && live == |Contents|
    }

    ghost function View(): Sim
      reads this
    {
      Sim(Contents, overflow, inserts, deletes, decs, miss, maxOcc, livePeak)
    }

    constructor (sets: nat, ways: nat, setOf: nat -> nat)
      requires HomeInRange(setOf, sets)
      ensures Valid() && fresh(slots) && fresh(occ)
      ensures this.sets == sets && this.ways == ways && this.setOf == setOf
      ensures View() == Sim(map[], 0, 0, 0, 0, 0, 0, 0)
    {
      this.sets, this.ways, this.setOf := sets, ways, setOf;
      slots := new Slot<nat>[Base(sets, ways)](_ => Slot(0, 0));
      occ := new nat[sets](_ => 0);
      overflow, inserts, deletes, decs, miss, maxOcc, live, livePeak := 0, 0, 0, 0, 0, 0, 0, 0;
      Contents := map[];
      new;
      forall st | 0 <= st < sets
        ensures RowSound(slots[..], occ[..], setOf, sets, ways, map[], st)
      {
        RowFits(st, sets, ways);
        assert InSet(map[], setOf, st) == map[];
      }
    }

    /** The first free way of a set, or `ways` exactly when the set is full. */
    method FreeWay(st: nat) returns (w: nat)
      requires Valid() && st < sets
      ensures w == ways <==> |InSet(Contents, setOf, st)| >= ways
      ensures w <= ways && Base(st, ways) + ways <= slots.Length
      ensures w < ways ==> slots[Base(st, ways) + w].ref == 0
      ensures occ.Length == sets && occ[st] == |InSet(Contents, setOf, st)|
    {
      hide Base, Sound, InSet;
      ghost var s := slots[..];
      Lengths();
      FreeWayIff(s, occ[..], setOf, sets, ways, Contents, st);
      ghost var row := Row(s, ways, st);
      var base := Base(st, ways);
      w := 0;
      while w < ways
        invariant w <= ways && forall v :: 0 <= v < w ==> row[v].ref != 0
      {
        assert slots[base + w] == s[base + w] == row[w];
        if slots[base + w].ref == 0 {
          return;
        }
        w := w + 1;
      }
    }

    /** Put a fresh order into a free way and count it in its set. */
    method Fill(w: nat, ref: nat, q: nat)
      requires Valid() && ref != 0 && ref !in Contents && w < ways
      requires Base(setOf(ref), ways) + w < slots.Length && slots[Base(setOf(ref), ways) + w].ref == 0
      modifies this`Contents, this`live, slots, occ
      ensures Valid() && Contents == old(Contents)[ref := q]
    {
      hide Base, Sound, InSet;
      Lengths();
      ghost var s, o, m := slots[..], occ[..], Contents;
      var st := setOf(ref);
      InsKeeps(s, o, setOf, sets, ways, m, w, ref, q);
      slots[Base(st, ways) + w] := Slot(ref, q);
      occ[st] := occ[st] + 1;
      assert slots[..] == s[Base(st, ways) + w := Slot(ref, q)] && occ[..] == o[st := o[st] + 1];
      Contents := m[ref := q];
      assert Contents.Keys == m.Keys + {ref};
      live := live + 1;
    }

    method Ins(ref: nat, q: nat)
      requires Valid() && ref != 0 && ref !in Contents
      modifies this, slots, occ
      ensures Valid() && View() == SetAssoc.Ins(old(View()), setOf, ways, ref, q)
    {
      hide Base, Sound, InSet;
      Lengths();
      var st := setOf(ref);
      var w := FreeWay(st);
      if w == ways {
        overflow := overflow + 1;
        return;
      }
      Fill(w, ref, q);
      SetCount(st);
      maxOcc := if occ[st] > maxOcc then occ[st] else maxOcc;
      inserts := inserts + 1;
      livePeak := if live > livePeak then live else livePeak;
    }

    lemma SetCount(st: nat)
      requires Valid() && st < sets
      ensures occ.Length == sets && occ[st] == |InSet(Contents, setOf, st)|
    {
      assert RowSound(slots[..], occ[..], setOf, sets, ways, Contents, st);
    }

    lemma Lengths()
      requires Valid()
      ensures slots.Length == Base(sets, ways) && occ.Length == sets && HomeInRange(setOf, sets)
    {
    }

    /** The way scan: the slot of a tracked ref, or -1 exactly when it is not tracked. */
    method Find(ref: nat) returns (i: int, ghost w: nat)
      requires Valid() && ref != 0
      ensures i == -1 <==> ref !in Contents
      ensures -1 <= i < slots.Length
      ensures i >= 0 ==> slots[i] == Slot(ref, Contents[ref])
      ensures i >= 0 ==> w < ways && i == Base(setOf(ref), ways) + w
    {
      hide Base, Sound;
      ghost var s := slots[..];
      TrackedIff(s, occ[..], setOf, sets, ways, Contents, ref);
      Lengths();
      ghost var row := Row(s, ways, setOf(ref));
      var base := Base(setOf(ref), ways);
      for v := 0 to ways
        invariant forall u :: 0 <= u < v ==> row[u].ref != ref
      {
        assert slots[base + v] == s[base + v] == row[v];
        if slots[base + v].ref == ref {
          return base + v, v;
        }
      }
      return -1, 0;
    }

    method Clear(i: nat, ref: nat, ghost w: nat)
      requires Valid() && i < slots.Length && ref != 0 && ref in Contents && slots[i].ref == ref
      requires w < ways && i == Base(setOf(ref), ways) + w
      modifies this`Contents, this`live, slots, occ
      ensures Valid() && Contents == old(Contents) - {ref}
    {
      hide Base, Sound, InSet;
      ghost var s, o := slots[..], occ[..];
      Lengths();
      ClearKeeps(s, o, setOf, sets, ways, Contents, w, ref);
      slots[i] := slots[i].(ref := 0);
      occ[setOf(ref)] := occ[setOf(ref)] - 1;
      assert slots[..] == s[i := s[i].(ref := 0)];
      assert occ[..] == o[setOf(ref) := o[setOf(ref)] - 1];
      assert (Contents - {ref}).Keys == Contents.Keys - {ref};
      Contents := Contents - {ref};
      live := live - 1;
    }

    method Del(ref: nat) returns (present: bool)
      requires Valid() && ref != 0
      modifies this, slots, occ
      ensures Valid() && View() == SetAssoc.Del(old(View()), ref)
      ensures present <==> ref in old(Contents)
    {
      hide Base, Sound;
      var i, w := Find(ref);
      if i < 0 {
        miss := miss + 1;
        return false;
      }
      Clear(i, ref, w);
      deletes := deletes + 1;
      return true;
    }

    method Shrink(i: nat, ref: nat, ghost w: nat, q: nat)
      requires Valid() && i < slots.Length && ref != 0 && ref in Contents && slots[i].ref == ref
      requires w < ways && i == Base(setOf(ref), ways) + w
      modifies this`Contents, slots
      ensures Valid() && Contents == old(Contents)[ref := q]
    {
      hide Base, Sound;
      ghost var s := slots[..];
      UpdateKeeps(s, occ[..], setOf, sets, ways, Contents, w, ref, q);
      Contents := Contents[ref := q];
      assert Contents.Keys == old(Contents).Keys;
      slots[i] := slots[i].(val := q);
      assert slots[..] == s[i := slots[i]];
    }

    method Dec(ref: nat, q: nat)
      requires Valid() && ref != 0
      modifies this, slots, occ
      ensures Valid() && View() == SetAssoc.Dec(old(View()), ref, q)
    {
      hide Base, Sound, Row, InSet;
      var i, w := Find(ref);
      if i < 0 {
        miss := miss + 1;
        return;
      }
      decs := decs + 1;
      if slots[i].val > q {
        Shrink(i, ref, w, slots[i].val - q);
      } else {
        Clear(i, ref, w);
      }
    }

    method Feed(tracks: nat -> bool, msg: Msg)
      requires Valid() && Fresh(Contents, tracks, msg)
      modifies this, slots, occ
      ensures Valid() && View() == Step(old(View()), setOf, ways, tracks, msg)
    {
      hide Base, Sound;
      match msg
      case Add(_, loc, _, ref, _, shares, _) =>
        if tracks(loc) {
          Ins(ref, shares);
        }
      case Reduce(_, _, ref, shares, _) => Dec(ref, shares);
      case Delete(_, _, ref) =>
        var _ := Del(ref);
      case Replace(_, _, ref, newRef, shares, _) =>
        var present := Del(ref);
        if present {
          Ins(newRef, shares);
        }
      case _ =>
    }
  }

  /** The run of one configuration over a feed whose refs are fresh while live. */
  method Replay(sets: nat, ways: nat, setOf: nat -> nat, tracks: nat -> bool, msgs: seq<Msg>) returns (t: Table)
    requires HomeInRange(setOf, sets) && WellFormed(tracks, msgs)
    ensures fresh(t) && t.Valid() && t.View() == After(setOf, ways, tracks, msgs)
    ensures t.live == |After(setOf, ways, tracks, msgs).m|
    ensures t.occ.Length == sets
    ensures forall s :: 0 <= s < sets ==> t.occ[s] == |InSet(After(setOf, ways, tracks, msgs).m, setOf, s)|
  {
    t := new Table(sets, ways, setOf);
    for i := 0 to |msgs|
      invariant fresh(t) && fresh(t.slots) && fresh(t.occ)
      invariant t.Valid() && t.ways == ways && t.setOf == setOf && t.sets == sets
      invariant t.View() == After(setOf, ways, tracks, msgs[..i])
    {
      hide Sound, Base;
      assert msgs[..i + 1][..i] == msgs[..i];
      PrefixWellFormed(tracks, msgs, i);
      TracksASubMap(setOf, ways, tracks, msgs[..i]);
      t.Feed(tracks, msgs[i]);
    }
    assert msgs[..|msgs|] == msgs;
    forall s | 0 <= s < sets
      ensures t.occ[s] == |InSet(t.Contents, setOf, s)|
    {
      FreeWayIff(t.slots[..], t.occ[..], setOf, sets, ways, t.Contents, s);
    }
  }

  lemma PrefixWellFormed(tracks: nat -> bool, msgs: seq<Msg>, i: nat)
    requires WellFormed(tracks, msgs) && i <= |msgs|
    ensures WellFormed(tracks, msgs[..i])
  {
    forall k | 0 <= k < i
      ensures msgs[..i][..k] == msgs[..k]
    {
    }
  }
}

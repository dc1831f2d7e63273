/** Peak concurrent orders per stock locate: the probing table of sym_conc with one live counter
    per locate carried beside it. */
module SymbolPeaks {
  import opened Cyclic
  import opened Itch
  import opened ProbeTables
  import opened Slots

  datatype Tracked = Tracked(loc: nat, qty: nat)
  type Orders = map<nat, Tracked>

  ghost function AtLoc(loc: nat): Tracked -> bool {
    (t: Tracked) => t.loc == loc
  }

  ghost function Reduced(m: Orders, ref: nat, shares: nat): Orders {
    if ref !in m then m
    else if m[ref].qty > shares then m[ref := m[ref].(qty := m[ref].qty - shares)]
    else m - {ref}
  }

  /** A replace inherits the locate of the order it replaces, when that order is known. */
  ghost function Step(m: Orders, msg: Msg): Orders {
    match msg
    case Add(_, loc, _, ref, _, shares, _) => m[ref := Tracked(loc, shares)]
    case Reduce(_, _, ref, shares, _) => Reduced(m, ref, shares)
    case Delete(_, _, ref) => m - {ref}
    case Replace(_, loc, ref, newRef, shares, _) =>
      (m - {ref})[newRef := Tracked(if ref in m then m[ref].loc else loc, shares)]
    case _ => m
  }

  ghost function After(msgs: seq<Msg>): Orders {
    if msgs == [] then map[] else Step(After(msgs[..|msgs| - 1]), msgs[|msgs| - 1])
  }

  ghost function Live(m: Orders, loc: nat): nat {
    |Tagged(m, AtLoc(loc))|
  }

  /** The most orders of `loc` live at once over the prefixes of the run. */
  ghost function Peak(msgs: seq<Msg>, loc: nat): nat {
    if msgs == [] then 0
    else
      var before, now := Peak(msgs[..|msgs| - 1], loc), Live(After(msgs), loc);
      if now > before then now else before
  }

  /** `Peak` bounds the count at every prefix of the run ... */
  lemma {:induction false} PeakBounds(msgs: seq<Msg>, k: nat, loc: nat)
    requires k <= |msgs|
    ensures Live(After(msgs[..k]), loc) <= Peak(msgs, loc)
  {
    if k == |msgs| {
      assert msgs[..k] == msgs;
      assert Tagged(map[], AtLoc(loc)) == {};
    } else {
      assert msgs[..k] == msgs[..|msgs| - 1][..k];
      PeakBounds(msgs[..|msgs| - 1], k, loc);
    }
  }

  /** ... and is the count at one of them. */
  lemma {:induction false} PeakIsReached(msgs: seq<Msg>, loc: nat) returns (k: nat)
    ensures k <= |msgs| && Live(After(msgs[..k]), loc) == Peak(msgs, loc)
  {
    if msgs == [] {
      k := 0;
      assert Tagged(map[], AtLoc(loc)) == {};
    } else {
      k := PeakIsReached(msgs[..|msgs| - 1], loc);
      if Peak(msgs, loc) == Peak(msgs[..|msgs| - 1], loc) {
        assert msgs[..k] == msgs[..|msgs| - 1][..k];
      } else {
        k := |msgs|;
        assert msgs[..k] == msgs;
      }
    }
  }

  /** Locates are 16-bit, below `locs`; refs are as the probing table needs them. */
  ghost predicate Admits(m: Orders, msg: Msg, n: nat, locs: nat) {
    match msg
    case Add(_, loc, _, ref, _, _, _) => loc < locs && ref != 0 && ref !in m && |m| + 1 < n
    case Reduce(_, _, ref, _, _) => ref != 0
    case Delete(_, _, ref) => ref != 0
    case Replace(_, loc, ref, newRef, _, _) =>
      loc < locs && ref != 0 && newRef != 0 && newRef !in m - {ref} && |m - {ref}| + 1 < n
    case _ => true
  }

  lemma LivePut(m: Orders, ref: nat, t: Tracked, loc: nat)
    requires ref !in m
    ensures Live(m[ref := t], loc) == Live(m, loc) + if t.loc == loc then 1 else 0
  {
    var after := Tagged(m[ref := t], AtLoc(loc));
    if t.loc == loc {
      assert after == Tagged(m, AtLoc(loc)) + {ref};
    } else {
      assert after == Tagged(m, AtLoc(loc));
    }
  }

  lemma LiveRemove(m: Orders, ref: nat, loc: nat)
    requires ref in m
    ensures Live(m - {ref}, loc) == Live(m, loc) - if m[ref].loc == loc then 1 else 0
  {
    assert Tagged(m - {ref}, AtLoc(loc)) == Tagged(m, AtLoc(loc)) - {ref};
  }

  lemma LiveUpdate(m: Orders, ref: nat, qty: nat, loc: nat)
    requires ref in m
    ensures Live(m[ref := m[ref].(qty := qty)], loc) == Live(m, loc)
  {
    assert Tagged(m[ref := m[ref].(qty := qty)], AtLoc(loc)) == Tagged(m, AtLoc(loc));
  }

  class Tracker {
    const table: ProbeTable<Tracked>
    const live: array<nat>
    const peak: array<nat>

    /** Every counter is the true count, for every locate at once. */
    ghost predicate Valid()
      reads this, table, table.slots, live, peak
    {
      && table.Valid()
      && live != peak && live.Length == peak.Length
      && (forall r :: r in table.Contents ==> table.Contents[r].loc < live.Length)
      && (forall loc :: 0 <= loc < live.Length ==> live[loc] == Live(table.Contents, loc) <= peak[loc])
    }

    constructor (n: nat, home: nat -> nat, locs: nat)
      requires 0 < n && HomeInRange(home, n)
      ensures Valid() && fresh(table) && fresh(table.slots) && fresh(live) && fresh(peak)
      ensures table.n == n && table.Contents == map[] && live.Length == locs
      ensures forall loc :: 0 <= loc < locs ==> peak[loc] == 0
    {
      table := new ProbeTable(n, home, Tracked(0, 0));
      live := new nat[locs](_ => 0);
      peak := new nat[locs](_ => 0);
      new;
      forall loc | 0 <= loc < locs
        ensures Live(table.Contents, loc) == 0
      {
        assert Tagged(table.Contents, AtLoc(loc)) == {};
      }
    }

    /** The counters count slots: moving survivors during a delete changes no count. */
    lemma CountersCountSlots(loc: nat)
      requires Valid() && loc < live.Length
      ensures live[loc] == |Occupied(table.slots[..], AtLoc(loc))|
    {
      SlotsAreEntries(table.slots[..], table.Contents, AtLoc(loc));
    }

    method Ins(ref: nat, loc: nat, qty: nat)
      requires Valid() && ref != 0 && ref !in table.Contents && table.live + 1 < table.n
      requires loc < live.Length
      modifies table, table.slots, live, peak
      ensures Valid() && table.Contents == old(table.Contents)[ref := Tracked(loc, qty)]
      ensures forall l :: 0 <= l < peak.Length ==>
        peak[l] == if l == loc && live[l] > old(peak[l]) then live[l] else old(peak[l])
    {
      hide Probes, Represents;
      ghost var m := table.Contents;
      var _ := table.Insert(ref, Tracked(loc, qty));
      live[loc] := live[loc] + 1;
      if live[loc] > peak[loc] {
        peak[loc] := live[loc];
      }
      forall l | 0 <= l < live.Length
        ensures live[l] == Live(table.Contents, l)
      {
        LivePut(m, ref, Tracked(loc, qty), l);
      }
    }

    /** The target's locate is captured before the shift reuses its slot. */
    method DelSlot(i: nat)
      requires Valid() && i < table.n && table.slots[i].ref in table.Contents
      requires table.slots[i].val == table.Contents[table.slots[i].ref]
      requires table.slots[i].ref != 0
      modifies table, table.slots, live
      ensures Valid() && table.Contents == old(table.Contents) - {old(table.slots[i].ref)}
    {
      hide Probes, Represents;
      ghost var m, ref := table.Contents, table.slots[i].ref;
      var dloc := table.slots[i].val.loc;
      LiveRemove(m, ref, dloc);
      live[dloc] := live[dloc] - 1;
      table.DeleteSlot(i);
      forall l | 0 <= l < live.Length
        ensures live[l] == Live(table.Contents, l)
      {
        LiveRemove(m, ref, l);
      }
    }

    method Del(ref: nat)
      requires Valid() && ref != 0
      modifies table, table.slots, live
      ensures Valid() && table.Contents == old(table.Contents) - {ref}
    {
      hide Probes, Represents;
      var i := table.Find(ref);
      if i >= 0 {
        DelSlot(i);
      } else {
        assert table.Contents - {ref} == table.Contents;
      }
    }

    method Dec(ref: nat, qty: nat)
      requires Valid() && ref != 0
      modifies table, table.slots, live
      ensures Valid() && table.Contents == Reduced(old(table.Contents), ref, qty)
    {
      hide Probes, Represents;
      ghost var m := table.Contents;
      var i := table.Find(ref);
      if i < 0 {
        return;
      }
      if table.slots[i].val.qty > qty {
        table.SetVal(i, table.slots[i].val.(qty := table.slots[i].val.qty - qty));
        forall l | 0 <= l < live.Length
          ensures live[l] == Live(table.Contents, l)
        {
          LiveUpdate(m, ref, m[ref].qty - qty, l);
        }
      } else {
        DelSlot(i);
      }
    }

    method Feed(msg: Msg)
      requires Valid() && Admits(table.Contents, msg, table.n, live.Length)
      modifies table, table.slots, live, peak
      ensures Valid()
      ensures table.Contents == Step(old(table.Contents), msg)
      ensures forall l :: 0 <= l < peak.Length ==>
        peak[l] == if live[l] > old(peak[l]) then live[l] else old(peak[l])
    {
      hide Probes, Represents;
      match msg
      case Add(_, loc, _, ref, _, shares, _) => Ins(ref, loc, shares);
      case Reduce(_, _, ref, shares, _) => Dec(ref, shares);
      case Delete(_, _, ref) => Del(ref);
      case Replace(_, loc, ref, newRef, shares, _) =>
        var i := table.Find(ref);
        var nl := if i >= 0 then table.slots[i].val.loc else loc;
        Del(ref);
        Ins(newRef, nl, shares);
      case _ =>
    }
  }

  /** The run: after the last message every live counter is the number of live orders of its
      locate and every peak is the maximum over the prefixes of the run. */
  method Replay(n: nat, home: nat -> nat, locs: nat, msgs: seq<Msg>) returns (t: Tracker)
    requires 0 < n && HomeInRange(home, n)
    requires forall k :: 0 <= k < |msgs| ==> Admits(After(msgs[..k]), msgs[k], n, locs)
    ensures fresh(t) && t.Valid() && t.table.Contents == After(msgs) && t.live.Length == locs
    ensures forall loc :: 0 <= loc < locs ==>
      t.live[loc] == Live(After(msgs), loc) && t.peak[loc] == Peak(msgs, loc)
  {
    hide Probes, Represents;
    t := new Tracker(n, home, locs);
    for i := 0 to |msgs|
      invariant fresh(t) && fresh(t.table) && fresh(t.table.slots) && fresh(t.live) && fresh(t.peak)
      invariant t.Valid() && t.table.n == n && t.live.Length == locs
      invariant t.table.Contents == After(msgs[..i])
      invariant forall loc :: 0 <= loc < locs ==> t.peak[loc] == Peak(msgs[..i], loc)
    {
      assert msgs[..i + 1][..i] == msgs[..i];
      t.Feed(msgs[i]);
    }
    assert msgs[..|msgs|] == msgs;
  }
}

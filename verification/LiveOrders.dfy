/** Live-order tracking over the probing table: `oins`/`odel`/`odec` and the message switch of
    itch_hist. */
module LiveOrders {
  import opened Cyclic
  import opened Itch
  import opened ProbeTables
  import opened Shares
  import opened Slots

  /** What one message means for the live orders. A replace inserts even if the old ref is unknown. */
  ghost function Step(m: Orders, msg: Msg): Orders {
    match msg
    case Add(_, _, _, ref, _, shares, _) => m[ref := shares]
    case Reduce(_, _, ref, shares, _) => Reduced(m, ref, shares)
    case Delete(_, _, ref) => m - {ref}
    case Replace(_, _, ref, newRef, shares, _) => (m - {ref})[newRef := shares]
    case _ => m
  }

  ghost function After(msgs: seq<Msg>): Orders {
    if msgs == [] then map[] else Step(After(msgs[..|msgs| - 1]), msgs[|msgs| - 1])
  }

  /** 1 when the message names a ref that is not live. */
  ghost function Miss(m: Orders, msg: Msg): nat {
    if (msg.Reduce? || msg.Delete? || msg.Replace?) && msg.ref !in m then 1 else 0
  }

  ghost function Misses(msgs: seq<Msg>): nat {
    if msgs == [] then 0
    else Misses(msgs[..|msgs| - 1]) + Miss(After(msgs[..|msgs| - 1]), msgs[|msgs| - 1])
  }

  /** The most orders ever live at once. */
  ghost function Peak(msgs: seq<Msg>): nat {
    if msgs == [] then 0
    else
      var before, now := Peak(msgs[..|msgs| - 1]), Live(After(msgs));
      if now > before then now else before
  }

  /** What the source relies on: refs are nonzero, fresh while live, and a slot stays empty. */
  ghost predicate Admits(m: Orders, msg: Msg, n: nat) {
    match msg
    case Add(_, _, _, ref, _, _, _) => ref != 0 && ref !in m && |m| + 1 < n
    case Reduce(_, _, ref, _, _) => ref != 0
    case Delete(_, _, ref) => ref != 0
    case Replace(_, _, ref, newRef, _, _) =>
      ref != 0 && newRef != 0 && newRef !in m - {ref} && |m - {ref}| + 1 < n
    case _ => true
  }

  ghost function Live(m: Orders): nat {
    |m|
  }

  /** `Peak` bounds the count at every prefix of the run ... */
  lemma {:induction false} PeakBounds(msgs: seq<Msg>, k: nat)
    requires k <= |msgs|
    ensures Live(After(msgs[..k])) <= Peak(msgs)
  {
    if k == |msgs| {
      assert msgs[..k] == msgs;
    } else {
      assert msgs[..k] == msgs[..|msgs| - 1][..k];
      PeakBounds(msgs[..|msgs| - 1], k);
    }
  }

  /** ... and is the count at one of them. */
  lemma {:induction false} PeakIsReached(msgs: seq<Msg>) returns (k: nat)
    ensures k <= |msgs| && Live(After(msgs[..k])) == Peak(msgs)
  {
    if msgs == [] {
      k := 0;
    } else {
      k := PeakIsReached(msgs[..|msgs| - 1]);
      if Peak(msgs) == Peak(msgs[..|msgs| - 1]) {
        assert msgs[..k] == msgs[..|msgs| - 1][..k];
      } else {
        k := |msgs|;
        assert msgs[..k] == msgs;
      }
    }
  }

  class Tracker {
    const table: ProbeTable<nat>
    var peak: nat
    var misses: nat

    ghost predicate Valid()
      reads this, table, table.slots
    {
      table.Valid() && table.live <= peak
    }

    constructor (n: nat, home: nat -> nat)
      requires 0 < n && HomeInRange(home, n)
      ensures Valid() && fresh(table) && fresh(table.slots)
      ensures table.n == n && table.Contents == map[] && peak == 0 && misses == 0
    {
      table := new ProbeTable(n, home, 0);
      peak, misses := 0, 0;
    }

    method Ins(ref: nat, shares: nat)
      requires Valid() && ref != 0 && ref !in table.Contents && table.live + 1 < table.n
      modifies this`peak, table, table.slots
      ensures Valid()
      ensures table.Contents == old(table.Contents)[ref := shares]
      ensures peak == if table.live > old(peak) then table.live else old(peak)
    {
      hide Probes, Represents;
      var _ := table.Insert(ref, shares);
      if table.live > peak {
        peak := table.live;
      }
    }

    method Del(ref: nat)
      requires Valid() && ref != 0
      modifies this`misses, table, table.slots
      ensures Valid() && table.Contents == old(table.Contents) - {ref}
      ensures misses == old(misses) + if ref in old(table.Contents) then 0 else 1
    {
      hide Probes, Represents;
      var i := table.Find(ref);
      if i < 0 {
        misses := misses + 1;
        assert table.Contents - {ref} == table.Contents;
        return;
      }
      table.DeleteSlot(i);
    }

    method Dec(ref: nat, shares: nat)
      requires Valid() && ref != 0
      modifies this`misses, table, table.slots
      ensures Valid()
      ensures table.Contents == Reduced(old(table.Contents), ref, shares)
      ensures misses == old(misses) + if ref in old(table.Contents) then 0 else 1
    {
      hide Probes, Represents;
      var i := table.Find(ref);
      if i < 0 {
        misses := misses + 1;
        return;
      }
      if table.slots[i].val > shares {
        table.SetVal(i, table.slots[i].val - shares);
      } else {
        table.DeleteSlot(i);
      }
    }

    lemma LiveIsSize()
      requires Valid()
      ensures table.live == |table.Contents|
    {
    }

    /** 'U': the old ref goes, known or not, and the new one comes. */
    method Move(ref: nat, newRef: nat, shares: nat)
      requires Valid() && ref != 0 && newRef != 0 && newRef !in table.Contents - {ref}
      requires |table.Contents - {ref}| + 1 < table.n
      modifies this, table, table.slots
      ensures Valid() && table.Contents == (old(table.Contents) - {ref})[newRef := shares]
      ensures misses == old(misses) + if ref in old(table.Contents) then 0 else 1
      ensures peak == if table.live > old(peak) then table.live else old(peak)
    {
      hide Probes, Represents, ProbeTable.Valid;
      Del(ref);
      LiveIsSize();
      Ins(newRef, shares);
    }

    /** One message: the table holds exactly what the message means, and the counters follow. */
    method Feed(msg: Msg)
      requires Valid() && Admits(table.Contents, msg, table.n)
      modifies this, table, table.slots
      ensures Valid()
      ensures table.Contents == Step(old(table.Contents), msg)
      ensures misses == old(misses) + Miss(old(table.Contents), msg)
      ensures peak == if table.live > old(peak) then table.live else old(peak)
    {
      hide Probes, Represents, ProbeTable.Valid;
      LiveIsSize();
      match msg {
        case Add(_, _, _, ref, _, shares, _) => Ins(ref, shares);
        case Reduce(_, _, ref, shares, _) => Dec(ref, shares);
        case Delete(_, _, ref) => Del(ref);
        case Replace(_, _, ref, newRef, shares, _) => Move(ref, newRef, shares);
        case _ =>
      }
    }
  }

  /** The run: from an empty table of any size and hash, the table is the map of live orders after
      every message, and the printed counters are those of the map. */
  method Replay(n: nat, home: nat -> nat, msgs: seq<Msg>) returns (t: Tracker)
    requires 0 < n && HomeInRange(home, n)
    requires forall k :: 0 <= k < |msgs| ==> Admits(After(msgs[..k]), msgs[k], n)
    ensures fresh(t) && t.Valid()
    ensures t.table.Contents == After(msgs) && t.table.live == |After(msgs)|
    ensures t.peak == Peak(msgs) && t.misses == Misses(msgs)
  {
    hide Probes, Represents;
    t := new Tracker(n, home);
    for i := 0 to |msgs|
      invariant fresh(t) && fresh(t.table) && fresh(t.table.slots)
      invariant t.Valid() && t.table.n == n
      invariant t.table.Contents == After(msgs[..i])
      invariant t.peak == Peak(msgs[..i]) && t.misses == Misses(msgs[..i])
    {
      assert msgs[..i + 1][..i] == msgs[..i];
      t.Feed(msgs[i]);
    }
    assert msgs[..|msgs|] == msgs;
  }
}

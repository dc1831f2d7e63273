/** The circular linear-probing table with backward-shift delete that both measurement tools
    carry. The payload and the hash are parameters. */
module ProbeTables {
  import opened Cyclic
  import opened Slots

  /** Every slot a probe for `s[p]` meets before `p`, except perhaps `hole`, is in use. */
  ghost predicate Reachable<V>(s: seq<Slot<V>>, home: nat -> nat, hole: int, p: nat)
    requires HomeInRange(home, |s|)
    requires p < |s|
  {
    forall q :: 0 <= q < |s| && q != hole && Before(home(s[p].ref), q, p, |s|) ==> s[q].ref != 0
  }

  /** Probing finds every entry, if `hole` is read as in use; -1 stands for no hole. */
  ghost predicate Probes<V>(s: seq<Slot<V>>, home: nat -> nat, hole: int)
    requires HomeInRange(home, |s|)
  {
    forall p :: 0 <= p < |s| && s[p].ref != 0 ==> Reachable(s, home, hole, p)
  }

  /** A probe from `h` has met only other entries on its way to `i`. */
  ghost predicate Walked<V>(s: seq<Slot<V>>, h: nat, i: nat, ref: nat)
    requires h < |s| && i < |s|
  {
    forall q :: 0 <= q < |s| && Before(h, q, i, |s|) ==> s[q].ref != 0 && s[q].ref != ref
  }

  lemma WalkOn<V>(s: seq<Slot<V>>, h: nat, i: nat, ref: nat, e: nat)
    requires h < |s| && i < |s| && e < |s|
    requires Walked(s, h, i, ref)
    requires s[i].ref != 0 && s[i].ref != ref
    requires s[e].ref == 0 && Dist(h, i, |s|) <= Dist(h, e, |s|)
    ensures Walked(s, h, Next(i, |s|), ref)
    ensures Dist(h, Next(i, |s|), |s|) == Dist(h, i, |s|) + 1 <= Dist(h, e, |s|)
    ensures Dist(Next(i, |s|), e, |s|) < Dist(i, e, |s|)
  {
    assert i != e;
    forall q | 0 <= q < |s| && Before(h, q, Next(i, |s|), |s|)
      ensures s[q].ref != 0 && s[q].ref != ref
    {
      assert q == i || Before(h, q, i, |s|);
    }
  }

  /** A probe that reaches an empty slot has missed nothing. */
  lemma WalkMisses<V>(s: seq<Slot<V>>, home: nat -> nat, m: map<nat, V>, ref: nat, i: nat)
    requires HomeInRange(home, |s|) && i < |s|
    requires Probes(s, home, -1) && Represents(s, m)
    requires ref != 0 && s[i].ref == 0 && Walked(s, home(ref), i, ref)
    ensures ref !in m
  {
    if ref in m {
      var p :| 0 <= p < |s| && s[p].ref == ref;
      assert false;
    }
  }

  /** Filling the first empty slot of its probe adds one entry and hides none. */
  lemma InsertKeeps<V>(s: seq<Slot<V>>, home: nat -> nat, m: map<nat, V>, i: nat, x: Slot<V>)
    requires HomeInRange(home, |s|) && i < |s|
    requires Probes(s, home, -1) && Represents(s, m)
    requires s[i].ref == 0 && x.ref != 0 && x.ref !in m
    requires forall q :: 0 <= q < |s| && Before(home(x.ref), q, i, |s|) ==> s[q].ref != 0
    ensures Probes(s[i := x], home, -1) && Represents(s[i := x], m[x.ref := x.val])
    ensures |m[x.ref := x.val]| == |m| + 1
  {
    var t := s[i := x];
    forall p | 0 <= p < |t| && t[p].ref != 0
      ensures Reachable(t, home, -1, p)
    {
      if p != i {
        assert Reachable(s, home, -1, p);
      }
    }
    RepresentsPut(s, m, i, x);
    assert m[x.ref := x.val].Keys == m.Keys + {x.ref};
  }

  lemma UpdateKeeps<V>(s: seq<Slot<V>>, home: nat -> nat, m: map<nat, V>, i: nat, v: V)
    requires HomeInRange(home, |s|) && i < |s| && s[i].ref != 0
    requires Probes(s, home, -1) && Represents(s, m)
    ensures Probes(s[i := s[i].(val := v)], home, -1)
    ensures Represents(s[i := s[i].(val := v)], m[s[i].ref := v])
    ensures |m[s[i].ref := v]| == |m|
  {
    var t := s[i := s[i].(val := v)];
    forall p | 0 <= p < |t| && t[p].ref != 0
      ensures Reachable(t, home, -1, p)
    {
      assert Reachable(s, home, -1, p);
    }
    RepresentsPut(s, m, i, s[i].(val := v));
    assert m[s[i].ref := v].Keys == m.Keys;
  }

  /** Clearing a slot removes its entry and opens a hole there. */
  lemma ClearKeeps<V>(s: seq<Slot<V>>, home: nat -> nat, m: map<nat, V>, i: nat)
    requires HomeInRange(home, |s|) && i < |s| && s[i].ref != 0
    requires Probes(s, home, -1) && Represents(s, m)
    ensures Probes(s[i := s[i].(ref := 0)], home, i)
    ensures Represents(s[i := s[i].(ref := 0)], m - {s[i].ref})
    ensures |m - {s[i].ref}| == |m| - 1
  {
    var t := s[i := s[i].(ref := 0)];
    forall p | 0 <= p < |t| && t[p].ref != 0
      ensures Reachable(t, home, i, p)
    {
      assert Reachable(s, home, -1, p);
    }
    RepresentsClear(s, m, i);
  }

  /** Moving the entry at `j` into the hole at `i`, when its probe crosses the hole, loses no
      entry and keeps each findable, with the hole now at `j`. */
  lemma ShiftKeeps<V>(s: seq<Slot<V>>, home: nat -> nat, m: map<nat, V>, i: nat, j: nat)
    requires HomeInRange(home, |s|)
    requires i < |s| && j < |s| && i != j
    requires s[i].ref == 0 && s[j].ref != 0
    requires Probes(s, home, i) && Represents(s, m)
    requires Before(home(s[j].ref), i, j, |s|)
    ensures Probes(s[i := s[j]][j := s[j].(ref := 0)], home, j)
    ensures Represents(s[i := s[j]][j := s[j].(ref := 0)], m)
  {
    MoveRepresents(s, m, i, j);
    hide Represents;
    var t := s[i := s[j]][j := s[j].(ref := 0)];
    forall p | 0 <= p < |t| && t[p].ref != 0
      ensures Reachable(t, home, j, p)
    {
      if p == i {
        assert Reachable(s, home, i, j);
      } else {
        assert Reachable(s, home, i, p);
      }
    }
  }

  lemma MoveRepresents<V>(s: seq<Slot<V>>, m: map<nat, V>, i: nat, j: nat)
    requires i < |s| && j < |s| && i != j && s[i].ref == 0 && s[j].ref != 0 && Represents(s, m)
    ensures Represents(s[i := s[j]][j := s[j].(ref := 0)], m)
  {
    var t := s[i := s[j]][j := s[j].(ref := 0)];
    forall r | r in m
      ensures exists p :: 0 <= p < |t| && t[p].ref == r
    {
      var p :| 0 <= p < |s| && s[p].ref == r;
      assert t[if p == j then i else p].ref == r;
    }
  }

  /** The scan from the hole at `i` up to `j` has met only entries whose probe avoids the hole. */
  ghost predicate Scanned<V>(s: seq<Slot<V>>, home: nat -> nat, i: nat, j: nat)
    requires HomeInRange(home, |s|) && i < |s| && j < |s|
  {
    forall p :: 0 <= p < |s| && s[p].ref != 0 && Dist(i, p, |s|) <= Dist(i, j, |s|)
            ==> !Before(home(s[p].ref), i, p, |s|)
  }

  lemma ScanOn<V>(s: seq<Slot<V>>, home: nat -> nat, i: nat, j: nat, e: nat)
    requires HomeInRange(home, |s|) && i < |s| && j < |s| && e < |s|
    requires Scanned(s, home, i, j) && Dist(i, j, |s|) < Dist(i, e, |s|)
    ensures Dist(Next(j, |s|), e, |s|) < Dist(j, e, |s|)
    ensures Dist(i, Next(j, |s|), |s|) == Dist(i, j, |s|) + 1 <= Dist(i, e, |s|)
    ensures s[Next(j, |s|)].ref != 0 && !Before(home(s[Next(j, |s|)].ref), i, Next(j, |s|), |s|)
            ==> Scanned(s, home, i, Next(j, |s|))
  {
    forall p | 0 <= p < |s| && Dist(i, p, |s|) <= Dist(i, Next(j, |s|), |s|)
      ensures p == Next(j, |s|) || Dist(i, p, |s|) <= Dist(i, j, |s|)
    {
    }
  }

  /** An empty slot met by the scan closes the hole: nothing beyond it can need the hole. */
  lemma HoleCloses<V>(s: seq<Slot<V>>, home: nat -> nat, i: nat, j: nat)
    requires HomeInRange(home, |s|) && i < |s| && j < |s|
    requires s[i].ref == 0 && s[Next(j, |s|)].ref == 0 && i != Next(j, |s|)
    requires Probes(s, home, i) && Scanned(s, home, i, j)
    ensures Probes(s, home, -1)
  {
    forall p | 0 <= p < |s| && s[p].ref != 0
      ensures Reachable(s, home, -1, p)
    {
      assert Reachable(s, home, i, p);
      assert !Before(home(s[p].ref), Next(j, |s|), p, |s|);
    }
  }

  class ProbeTable<V(0)> {
    const n: nat
    const home: nat -> nat
    const slots: array<Slot<V>>
    var live: nat
    ghost var Contents: map<nat, V>

    /** At least one slot is always empty, as the source relies on. */
    ghost predicate Valid()
      reads this, slots
    {
      && slots.Length == n
      && HomeInRange(home, n)
      && Probes(slots[..], home, -1)
      && Represents(slots[..], Contents)
      && live == |Contents| < n
    }

    constructor (n: nat, home: nat -> nat, blank: V)
      requires 0 < n && HomeInRange(home, n)
      ensures Valid() && fresh(slots)
      ensures this.n == n && this.home == home
      ensures Contents == map[] && live == 0
    {
      this.n := n;
      this.home := home;
      this.slots := new Slot<V>[n](_ => Slot(0, blank));
      this.live := 0;
      this.Contents := map[];
    }

    /** The probe loop: the slot of `ref`, or -1 exactly when the table does not hold it. */
    method Find(ref: nat) returns (r: int)
      requires Valid()
      requires ref != 0
      ensures -1 <= r < n
      ensures r == -1 <==> ref !in Contents
      ensures 0 <= r ==> slots[r].ref == ref && slots[r].val == Contents[ref]
    {
      hide Probes, Represents;
      ghost var s := slots[..];
      RoomLeft(s, Contents);
      ghost var e :| 0 <= e < n && s[e].ref == 0;
      var i := home(ref);
      while slots[i].ref != 0
        invariant 0 <= i < n
        invariant Dist(home(ref), i, n) <= Dist(home(ref), e, n)
        invariant Walked(s, home(ref), i, ref)
        decreases Dist(i, e, n)
      {
        assert slots[i] == s[i];
        if slots[i].ref == ref {
          EntryHeld(s, Contents, i);
          return i;
        }
        WalkOn(s, home(ref), i, ref, e);
        i := Next(i, n);
      }
      WalkMisses(s, home, Contents, ref, i);
      return -1;
    }

    /** Inserting a fresh ref. `d` is the probe distance the source histograms: the slot at that distance was
        empty and takes the entry, and every slot nearer to the home was taken. */
    method Insert(ref: nat, val: V) returns (d: nat)
      requires Valid()
      requires ref != 0 && ref !in Contents
      requires live + 1 < n
      modifies this`live, this`Contents, slots
      ensures Valid()
      ensures Contents == old(Contents)[ref := val]
      ensures live == old(live) + 1
      ensures d < n
      ensures forall q :: 0 <= q < n && Dist(home(ref), q, n) < d ==> old(slots[q].ref) != 0
      ensures exists q :: 0 <= q < n && Dist(home(ref), q, n) == d && old(slots[q].ref) == 0
                          && slots[..] == old(slots[..])[q := Slot(ref, val)]
    {
      hide Probes, Represents;
      ghost var s := slots[..];
      RoomLeft(s, Contents);
      ghost var e :| 0 <= e < n && s[e].ref == 0;
      var i := home(ref);
      d := 0;
      while slots[i].ref != 0
        invariant 0 <= i < n
        invariant d == Dist(home(ref), i, n) <= Dist(home(ref), e, n)
        invariant Walked(s, home(ref), i, ref)
        decreases Dist(i, e, n)
        modifies {}
      {
        assert slots[i] == s[i];
        EntryHeld(s, Contents, i);
        WalkOn(s, home(ref), i, ref, e);
        i := Next(i, n);
        d := d + 1;
      }
      assert slots[..] == s;
      InsertKeeps(s, home, Contents, i, Slot(ref, val));
      Write(i, Slot(ref, val));
      assert slots[..] == s[i := Slot(ref, val)] && Dist(home(ref), i, n) == d && s[i].ref == 0;
      Contents := Contents[ref := val];
      live := live + 1;
    }

    method Write(i: nat, x: Slot<V>)
      requires i < slots.Length
      modifies slots
      ensures slots[..] == old(slots[..])[i := x]
    {
      slots[i] := x;
    }

    /** The inner loop of the delete: from the hole at `i`, find the next entry that has to move
        into it (`move`), or reach the empty slot that ends the shift. */
    method Scan(i: nat, ghost s: seq<Slot<V>>, ghost e: nat) returns (j: nat, move: bool)
      requires slots.Length == n && slots[..] == s && HomeInRange(home, n)
      requires i < n && e < n && i != e && s[i].ref == 0 == s[e].ref
      requires Probes(s, home, i)
      ensures j < n && j != i
      ensures move ==> s[j].ref != 0 && Before(home(s[j].ref), i, j, n) && Dist(j, e, n) < Dist(i, e, n)
      ensures !move ==> Probes(s, home, -1)
    {
      j := i;
      while true
        invariant 0 <= j < n && Dist(i, j, n) < Dist(i, e, n)
        invariant Scanned(s, home, i, j)
        decreases Dist(j, e, n)
      {
        ScanOn(s, home, i, j, e);
        ghost var last := j;
        j := Next(j, n);
        assert slots[j] == s[j];
        if slots[j].ref == 0 {
          HoleCloses(s, home, i, last);
          return j, false;
        }
        var k := home(slots[j].ref);
        ShiftTest(i, j, k, n);
        if if i <= j then k <= i || k > j else k <= i && k > j {
          return j, true;
        }
      }
    }

    /** Backward-shift delete of slot `at`. */
    method DeleteSlot(at: nat)
      requires Valid()
      requires at < n && slots[at].ref != 0
      modifies this`live, this`Contents, slots
      ensures Valid()
      ensures Contents == old(Contents) - {old(slots[at].ref)}
      ensures live == old(live) - 1
    {
      hide Probes, Represents;
      ghost var ref := slots[at].ref;
      ghost var s := slots[..];
      RoomLeft(s, Contents);
      ghost var e :| 0 <= e < n && s[e].ref == 0;
      ClearKeeps(s, home, Contents, at);
      Contents := Contents - {ref};
      s := s[at := s[at].(ref := 0)];
      var i := at;
      while true
        invariant 0 <= i < n == |s| && e != i && s[i].ref == 0 == s[e].ref
        invariant slots[..][i := slots[i].(ref := 0)] == s
        invariant Probes(s, home, i) && Represents(s, Contents)
        decreases Dist(i, e, n)
        modifies slots
      {
        Write(i, slots[i].(ref := 0));
        var j, move := Scan(i, s, e);
        if !move {
          break;
        }
        ShiftKeeps(s, home, Contents, i, j);
        s := s[i := s[j]][j := s[j].(ref := 0)];
        Write(i, slots[j]);
        i := j;
      }
      live := live - 1;
    }

    /** The in-place decrement of a found slot. */
    method SetVal(at: nat, val: V)
      requires Valid()
      requires at < n && slots[at].ref != 0
      modifies this`Contents, slots
      ensures Valid()
      ensures Contents == old(Contents)[slots[at].ref := val]
      ensures slots[at].ref == old(slots[at].ref)
    {
      hide Probes, Represents;
      ghost var before := slots[..];
      Write(at, slots[at].(val := val));
      Contents := Contents[slots[at].ref := val];
      UpdateKeeps(before, home, old(Contents), at, val);
    }
  }
}

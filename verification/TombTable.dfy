/** The parser's order table: open addressing with tombstones and doubling at 70% load. */
module TombTables {
  import opened Cyclic

  datatype Slot<V> = Empty | Used(ref: nat, val: V) | Tomb

  /** `hash(ref) & mask` for a power-of-two capacity. */
  function Home(hash: nat -> nat, cap: nat): (home: nat -> nat)
    requires 0 < cap
    ensures HomeInRange(home, cap)
  {
    (ref: nat) => hash(ref) % cap
  }

  ghost predicate Distinct<V>(s: seq<Slot<V>>) {
    forall p, q :: 0 <= p < |s| && 0 <= q < |s| && s[p].Used? && s[q].Used? && s[p].ref == s[q].ref ==> p == q
  }

  /** No EMPTY slot hides a live ref from its probe. */
  ghost predicate Probes<V>(s: seq<Slot<V>>, home: nat -> nat)
    requires HomeInRange(home, |s|)
  {
    forall p, q :: 0 <= p < |s| && 0 <= q < |s| && s[p].Used? && Before(home(s[p].ref), q, p, |s|) ==> !s[q].Empty?
  }

  ghost predicate Represents<V>(s: seq<Slot<V>>, m: map<nat, V>) {
    && Distinct(s)
    && (forall p :: 0 <= p < |s| && s[p].Used? ==> s[p].ref in m && m[s[p].ref] == s[p].val)
    && (forall r :: r in m ==> exists p :: 0 <= p < |s| && s[p].Used? && s[p].ref == r)
  }

  ghost function UsedSlots<V>(s: seq<Slot<V>>): set<nat> {
    set p | 0 <= p < |s| && s[p].Used?
  }

  ghost function TombSlots<V>(s: seq<Slot<V>>): set<nat> {
    set p | 0 <= p < |s| && s[p].Tomb?
  }

  ghost predicate Sound<V>(s: seq<Slot<V>>, hash: nat -> nat, m: map<nat, V>, cnt: nat, tombs: nat) {
    && 4 <= |s|
    && Probes(s, Home(hash, |s|))
    && Represents(s, m)
    && cnt == |UsedSlots(s)| == |m|
    && tombs == |TombSlots(s)|
    && cnt + tombs < |s|
  }

  lemma FullTable<V>(s: seq<Slot<V>>)
    requires forall e :: 0 <= e < |s| ==> !s[e].Empty?
    ensures |UsedSlots(s)| + |TombSlots(s)| == |s|
  {
    assert UsedSlots(s) + TombSlots(s) == Below(|s|);
    assert UsedSlots(s) !! TombSlots(s);
  }

  lemma EmptySlotExists<V>(s: seq<Slot<V>>)
    requires |UsedSlots(s)| + |TombSlots(s)| < |s|
    ensures exists e :: 0 <= e < |s| && s[e].Empty?
  {
    if forall e :: 0 <= e < |s| ==> !s[e].Empty? {
      FullTable(s);
      assert false;
    }
  }

  /** A probe from `h` has met neither EMPTY nor the wanted ref on its way to `i`. */
  ghost predicate Walked<V>(s: seq<Slot<V>>, h: nat, i: nat, ref: nat)
    requires h < |s| && i < |s|
  {
    forall q :: 0 <= q < |s| && Before(h, q, i, |s|) ==> !s[q].Empty? && !(s[q].Used? && s[q].ref == ref)
  }

  lemma WalkStart<V>(s: seq<Slot<V>>, h: nat, ref: nat)
    requires h < |s|
    ensures Walked(s, h, h, ref)
  {
  }

  lemma WalkOn<V>(s: seq<Slot<V>>, h: nat, i: nat, ref: nat, e: nat)
    requires h < |s| && i < |s| && e < |s|
    requires Walked(s, h, i, ref)
    requires !s[i].Empty? && !(s[i].Used? && s[i].ref == ref)
    requires s[e].Empty? && Dist(h, i, |s|) <= Dist(h, e, |s|)
    ensures Walked(s, h, Next(i, |s|), ref)
    ensures Dist(h, Next(i, |s|), |s|) <= Dist(h, e, |s|)
    ensures Dist(Next(i, |s|), e, |s|) < Dist(i, e, |s|)
  {
    assert i != e;
    forall q | 0 <= q < |s| && Before(h, q, Next(i, |s|), |s|)
      ensures q == i || Before(h, q, i, |s|)
    {
    }
  }

  lemma WalkMisses<V>(s: seq<Slot<V>>, home: nat -> nat, m: map<nat, V>, ref: nat, i: nat)
    requires HomeInRange(home, |s|) && i < |s|
    requires Probes(s, home) && Represents(s, m)
    requires s[i].Empty? && Walked(s, home(ref), i, ref)
    ensures ref !in m
  {
  }

  lemma EntryHeld<V>(s: seq<Slot<V>>, m: map<nat, V>, i: nat)
    requires Represents(s, m) && i < |s| && s[i].Used?
    ensures s[i].ref in m && m[s[i].ref] == s[i].val
  {
  }

  lemma RepresentsPut<V>(s: seq<Slot<V>>, m: map<nat, V>, i: nat, x: Slot<V>)
    requires Represents(s, m) && i < |s| && x.Used?
    requires if s[i].Used? then s[i].ref == x.ref else x.ref !in m
    ensures Represents(s[i := x], m[x.ref := x.val])
  {
    var t, m' := s[i := x], m[x.ref := x.val];
    forall r | r in m'
      ensures exists p :: 0 <= p < |t| && t[p].Used? && t[p].ref == r
    {
      if r == x.ref {
        assert t[i].ref == r;
      } else {
        var p :| 0 <= p < |s| && s[p].Used? && s[p].ref == r;
        assert t[p].ref == r;
      }
    }
  }

  lemma RepresentsRemove<V>(s: seq<Slot<V>>, m: map<nat, V>, i: nat)
    requires Represents(s, m) && i < |s| && s[i].Used?
    ensures Represents(s[i := Tomb], m - {s[i].ref})
  {
    var t, m' := s[i := Tomb], m - {s[i].ref};
    forall r | r in m'
      ensures exists p :: 0 <= p < |t| && t[p].Used? && t[p].ref == r
    {
      var p :| 0 <= p < |s| && s[p].Used? && s[p].ref == r;
      assert t[p].ref == r;
    }
  }

  lemma ProbesPut<V>(s: seq<Slot<V>>, home: nat -> nat, i: nat, x: Slot<V>)
    requires HomeInRange(home, |s|) && Probes(s, home)
    requires i < |s| && !x.Empty?
    requires x.Used? ==> Walked(s, home(x.ref), i, x.ref) || (s[i].Used? && s[i].ref == x.ref)
    ensures Probes(s[i := x], home)
  {
  }

  lemma SlotCountsPut<V>(s: seq<Slot<V>>, i: nat, x: Slot<V>)
    requires i < |s| && !s[i].Used? && x.Used?
    ensures |UsedSlots(s[i := x])| == |UsedSlots(s)| + 1
    ensures |TombSlots(s[i := x])| == |TombSlots(s)| - if s[i].Tomb? then 1 else 0
  {
    assert UsedSlots(s[i := x]) == UsedSlots(s) + {i} && i !in UsedSlots(s);
    assert TombSlots(s[i := x]) == TombSlots(s) - {i} && (s[i].Tomb? <==> i in TombSlots(s));
  }

  /** Writing a fresh ref over the first slot of its probe that is not in use. */
  lemma InsertKeeps<V>(s: seq<Slot<V>>, hash: nat -> nat, m: map<nat, V>, cnt: nat, tombs: nat,
                       i: nat, x: Slot<V>)
    requires Sound(s, hash, m, cnt, tombs)
    requires i < |s| && !s[i].Used? && x.Used? && x.ref !in m
    requires Walked(s, Home(hash, |s|)(x.ref), i, x.ref)
    requires cnt + tombs + 1 < |s|
    ensures s[i].Tomb? ==> 0 < tombs
    ensures Sound(s[i := x], hash, m[x.ref := x.val], cnt + 1, if s[i].Tomb? then tombs - 1 else tombs)
  {
    hide Probes, Represents, Walked, UsedSlots, TombSlots, Home, HomeInRange;
    RepresentsPut(s, m, i, x);
    ProbesPut(s, Home(hash, |s|), i, x);
    assert m[x.ref := x.val].Keys == m.Keys + {x.ref};
    SlotCountsPut(s, i, x);
  }

  lemma SlotCountsRemove<V>(s: seq<Slot<V>>, i: nat)
    requires i < |s| && s[i].Used?
    ensures |UsedSlots(s[i := Tomb])| == |UsedSlots(s)| - 1
    ensures |TombSlots(s[i := Tomb])| == |TombSlots(s)| + 1
  {
    assert UsedSlots(s[i := Tomb]) == UsedSlots(s) - {i} && i in UsedSlots(s);
    assert TombSlots(s[i := Tomb]) == TombSlots(s) + {i} && i !in TombSlots(s);
  }

  /** Turning a used slot into a tombstone removes its entry and opens no EMPTY slot. */
  lemma RemoveKeeps<V>(s: seq<Slot<V>>, hash: nat -> nat, m: map<nat, V>, cnt: nat, tombs: nat, i: nat)
    requires Sound(s, hash, m, cnt, tombs)
    requires i < |s| && s[i].Used?
    ensures s[i].ref in m && 0 < cnt
    ensures Sound(s[i := Tomb], hash, m - {s[i].ref}, cnt - 1, tombs + 1)
  {
    hide Probes, Represents, UsedSlots, TombSlots, Home, HomeInRange;
    EntryHeld(s, m, i);
    RepresentsRemove(s, m, i);
    ProbesPut(s, Home(hash, |s|), i, Tomb);
    assert (m - {s[i].ref}).Keys == m.Keys - {s[i].ref};
    SlotCountsRemove(s, i);
  }

  lemma UpdateKeeps<V>(s: seq<Slot<V>>, hash: nat -> nat, m: map<nat, V>, cnt: nat, tombs: nat,
                             i: nat, v: V)
    requires Sound(s, hash, m, cnt, tombs)
    requires i < |s| && s[i].Used?
    ensures Sound(s[i := s[i].(val := v)], hash, m[s[i].ref := v], cnt, tombs)
  {
    hide Probes, Represents, Home, HomeInRange;
    var x := s[i].(val := v);
    EntryHeld(s, m, i);
    RepresentsPut(s, m, i, x);
    ProbesPut(s, Home(hash, |s|), i, x);
    assert m[x.ref := v].Keys == m.Keys;
    assert UsedSlots(s[i := x]) == UsedSlots(s) && TombSlots(s[i := x]) == TombSlots(s);
  }

  /** The entries of the slots of `s`, read in order: what growth copies. */
  ghost function Held<V>(s: seq<Slot<V>>): map<nat, V> {
    if s == [] then map[]
    else
      var x, rest := s[|s| - 1], Held(s[..|s| - 1]);
      if x.Used? then rest[x.ref := x.val] else rest
  }

  lemma {:induction false} HeldIsRepresented<V>(s: seq<Slot<V>>)
    requires Distinct(s)
    ensures Represents(s, Held(s))
    ensures s != [] && s[|s| - 1].Used? ==> s[|s| - 1].ref !in Held(s[..|s| - 1])
  {
    if s != [] {
      var x, front := s[|s| - 1], s[..|s| - 1];
      HeldIsRepresented(front);
      forall r | r in Held(s)
        ensures exists p :: 0 <= p < |s| && s[p].Used? && s[p].ref == r
      {
        if r in Held(front) {
          var p :| 0 <= p < |front| && front[p].Used? && front[p].ref == r;
          assert s[p].ref == r;
        } else {
          assert s[|s| - 1].ref == r;
        }
      }
      forall p | 0 <= p < |front| && s[p].Used?
        ensures s[p].ref in Held(front) && Held(front)[s[p].ref] == s[p].val
      {
        assert front[p] == s[p];
      }
    }
  }

  lemma RepresentedIsHeld<V>(s: seq<Slot<V>>, m: map<nat, V>)
    requires Represents(s, m)
    ensures Held(s) == m
  {
    HeldIsRepresented(s);
    forall r
      ensures r in m <==> r in Held(s)
      ensures r in m && r in Held(s) ==> m[r] == Held(s)[r]
    {
    }
  }

  lemma DistinctPrefix<V>(s: seq<Slot<V>>, m: map<nat, V>, n: nat)
    requires Represents(s, m) && n <= |s|
    ensures Distinct(s[..n])
  {
  }

  lemma BlankIsSound<V>(s: seq<Slot<V>>, hash: nat -> nat)
    requires 4 <= |s| && forall p :: 0 <= p < |s| ==> s[p].Empty?
    ensures Sound(s, hash, map[], 0, 0)
  {
    assert UsedSlots(s) == {} && TombSlots(s) == {};
  }

  class TombTable<V> {
    const hash: nat -> nat
    var otab: array<Slot<V>>
    var cnt: nat
    var tombs: nat
    ghost var Contents: map<nat, V>

    /** The counters are the exact slot counts, and an EMPTY slot remains. */
    ghost predicate Valid()
      reads this, otab
    {
      Sound(otab[..], hash, Contents, cnt, tombs)
    }

    predicate Loaded()
      reads this
    {
      (cnt + tombs) * 10 >= otab.Length * 7
    }

    constructor (cap: nat, hash: nat -> nat)
      requires 4 <= cap
      ensures Valid() && fresh(otab) && Contents == map[] && this.hash == hash && otab.Length == cap
    {
      this.hash := hash;
      otab := new Slot<V>[cap](_ => Empty);
      cnt, tombs := 0, 0;
      Contents := map[];
      new;
      BlankIsSound(otab[..], hash);
    }

    /** `order_find`: the slot of a live ref, or -1 exactly when it is not live. */
    method Find(ref: nat) returns (r: int)
      requires Valid()
      ensures -1 <= r < otab.Length
      ensures r == -1 <==> ref !in Contents
      ensures 0 <= r ==> otab[r] == Used(ref, Contents[ref])
    {
      hide Probes, Represents, HomeInRange;
      ghost var s := otab[..];
      EmptySlotExists(s);
      ghost var e :| 0 <= e < |s| && s[e].Empty?;
      var h := Home(hash, otab.Length);
      var i := h(ref);
      while !otab[i].Empty?
        invariant 0 <= i < |s| && Dist(h(ref), i, |s|) <= Dist(h(ref), e, |s|)
        invariant Walked(s, h(ref), i, ref)
        decreases Dist(i, e, |s|)
      {
        assert otab[i] == s[i];
        if otab[i].Used? && otab[i].ref == ref {
          EntryHeld(s, Contents, i);
          return i;
        }
        WalkOn(s, h(ref), i, ref, e);
        i := Next(i, otab.Length);
      }
      WalkMisses(s, h, Contents, ref, i);
      return -1;
    }

    /** `order_grow`: twice the slots, the same orders, no tombstones. */
    method Grow()
      requires Valid()
      modifies this`otab, this`cnt, this`tombs, this`Contents
      ensures Valid() && fresh(otab)
      ensures Contents == old(Contents) && otab.Length == 2 * old(otab.Length)
      ensures tombs == 0 && !Loaded()
      decreases 1
    {
      hide Probes, Represents, HomeInRange;
      var prev := otab;
      ghost var s := prev[..];
      assert Represents(s, Contents);
      RepresentedIsHeld(s, Contents);
      otab := new Slot<V>[2 * prev.Length](_ => Empty);
      cnt, tombs := 0, 0;
      Contents := map[];
      BlankIsSound(otab[..], hash);
      for i := 0 to prev.Length
        invariant prev[..] == s && Valid() && fresh(otab)
        invariant otab.Length == 2 * prev.Length && tombs == 0 && cnt <= i
        invariant Contents == Held(s[..i])
      {
        assert s[..i + 1][..i] == s[..i];
        DistinctPrefix(s, old(Contents), i + 1);
        HeldIsRepresented(s[..i + 1]);
        if prev[i].Used? {
          Insert(prev[i].ref, prev[i].val);
        }
      }
      assert s[..|s|] == s;
      assert cnt == |Contents|;
    }

    /** The first slot not in use from the ref's home. */
    method FreeSlot(ref: nat) returns (i: nat)
      requires Valid() && ref !in Contents
      ensures i < otab.Length && !otab[i].Used? && 0 < otab.Length
      ensures Walked(otab[..], Home(hash, otab.Length)(ref), i, ref)
    {
      hide Probes, Represents, HomeInRange;
      ghost var s := otab[..];
      EmptySlotExists(s);
      ghost var e :| 0 <= e < |s| && s[e].Empty?;
      var h := Home(hash, otab.Length);
      i := h(ref);
      WalkStart(s, i, ref);
      hide Walked;
      while otab[i].Used?
        invariant 0 <= i < |s| && Dist(h(ref), i, |s|) <= Dist(h(ref), e, |s|)
        invariant Walked(s, h(ref), i, ref)
        decreases Dist(i, e, |s|)
      {
        assert otab[i] == s[i];
        EntryHeld(s, Contents, i);
        WalkOn(s, h(ref), i, ref, e);
        i := Next(i, otab.Length);
      }
    }

    /** `order_insert` of a fresh ref; the nested insert of a growth never grows again. */
    method Insert(ref: nat, val: V)
      requires Valid() && ref !in Contents
      modifies this`otab, this`cnt, this`tombs, this`Contents, otab
      ensures Valid() && Contents == old(Contents)[ref := val]
      ensures if old(Loaded()) then fresh(otab) && otab.Length == 2 * old(otab.Length) else otab == old(otab)
      ensures cnt == old(cnt) + 1 && tombs <= old(tombs)
      decreases if Loaded() then 2 else 0
    {
      hide Probes, Represents, HomeInRange, Walked;
      if Loaded() {
        Grow();
      }
      ghost var s := otab[..];
      var i := FreeSlot(ref);
      InsertKeeps(s, hash, Contents, cnt, tombs, i, Used(ref, val));
      if otab[i].Tomb? {
        tombs := tombs - 1;
      }
      otab[i] := Used(ref, val);
      cnt := cnt + 1;
      Contents := Contents[ref := val];
      assert otab[..] == s[i := Used(ref, val)];
    }

    /** `order_remove` of a found slot. */
    method Remove(i: nat)
      requires Valid() && i < otab.Length && otab[i].Used?
      modifies this`cnt, this`tombs, this`Contents, otab
      ensures Valid() && Contents == old(Contents) - {old(otab[i].ref)}
    {
      hide Probes, Represents, HomeInRange;
      ghost var s := otab[..];
      RemoveKeeps(s, hash, Contents, cnt, tombs, i);
      Contents := Contents - {otab[i].ref};
      otab[i] := Tomb;
      cnt, tombs := cnt - 1, tombs + 1;
      assert otab[..] == s[i := Tomb];
    }

    /** The in-place decrement of a found slot. */
    method SetVal(i: nat, v: V)
      requires Valid() && i < otab.Length && otab[i].Used?
      modifies this`Contents, otab
      ensures Valid() && Contents == old(Contents)[old(otab[i].ref) := v]
    {
      hide Probes, Represents, HomeInRange;
      ghost var s := otab[..];
      UpdateKeeps(s, hash, Contents, cnt, tombs, i, v);
      Contents := Contents[otab[i].ref := v];
      otab[i] := otab[i].(val := v);
      assert otab[..] == s[i := s[i].(val := v)];
    }
  }
}

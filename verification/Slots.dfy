/** Slots of a hash table whose ref 0 means empty, and the map such slots stand for. */
module Slots {
  import opened Cyclic

  datatype Slot<V> = Slot(ref: nat, val: V)

  ghost predicate Distinct<V>(s: seq<Slot<V>>) {
    forall p, q :: 0 <= p < |s| && 0 <= q < |s| && s[p].ref != 0 && s[p].ref == s[q].ref ==> p == q
  }

  /** The occupied slots of `s` are exactly the entries of `m`. */
  ghost predicate Represents<V>(s: seq<Slot<V>>, m: map<nat, V>) {
    && Distinct(s)
    && (forall p :: 0 <= p < |s| && s[p].ref != 0 ==> s[p].ref in m && m[s[p].ref] == s[p].val)
    && (forall r :: r in m ==> r != 0 && exists p :: 0 <= p < |s| && s[p].ref == r)
  }

  /** The occupied slots whose payload is in `tags`: what a counter kept beside the table counts. */
  ghost function Occupied<V>(s: seq<Slot<V>>, tag: V -> bool): set<nat> {
    set p | 0 <= p < |s| && s[p].ref != 0 && tag(s[p].val)
  }

  ghost function Tagged<V>(m: map<nat, V>, tag: V -> bool): set<nat> {
    set r | r in m && tag(m[r])
  }

  lemma {:induction false} SameCount<V>(s: seq<Slot<V>>, slots: set<nat>, refs: set<nat>)
    requires Distinct(s)
    requires forall p :: p in slots ==> p < |s| && s[p].ref != 0 && s[p].ref in refs
    requires forall r :: r in refs ==> exists p :: p in slots && s[p].ref == r
    ensures |slots| == |refs|
    decreases slots
  {
    if slots == {} {
      assert refs == {};
    } else {
      var p :| p in slots;
      forall r | r in refs - {s[p].ref}
        ensures exists q :: q in slots - {p} && s[q].ref == r
      {
        var q :| q in slots && s[q].ref == r;
        assert q in slots - {p};
      }
      SameCount(s, slots - {p}, refs - {s[p].ref});
    }
  }

  /** Whatever the probing and the shifting do to the slots, counting slots is counting entries. */
  lemma SlotsAreEntries<V>(s: seq<Slot<V>>, m: map<nat, V>, tag: V -> bool)
    requires Represents(s, m)
    ensures |Occupied(s, tag)| == |Tagged(m, tag)|
  {
    forall r | r in Tagged(m, tag)
      ensures exists p :: p in Occupied(s, tag) && s[p].ref == r
    {
      var p :| 0 <= p < |s| && s[p].ref == r;
      assert p in Occupied(s, tag);
    }
    SameCount(s, Occupied(s, tag), Tagged(m, tag));
  }

  /** Slots are left exactly when the entries do not fill them, so a probe that needs an empty
      slot ends. */
  lemma RoomLeft<V>(s: seq<Slot<V>>, m: map<nat, V>)
    requires Represents(s, m)
    ensures |m| <= |s|
    ensures |m| < |s| <==> exists e :: 0 <= e < |s| && s[e].ref == 0
  {
    var taken := Occupied(s, (_) => true);
    SlotsAreEntries(s, m, (_) => true);
    assert Tagged(m, (_) => true) == m.Keys;
    hide Represents;
    assert taken <= Below(|s|);
    SubsetSize(taken, Below(|s|));
    if e :| 0 <= e < |s| && s[e].ref == 0 {
      assert e in Below(|s|) && e !in taken;
    } else {
      assert taken == Below(|s|);
    }
  }

  lemma EntryHeld<V>(s: seq<Slot<V>>, m: map<nat, V>, i: nat)
    requires Represents(s, m) && i < |s| && s[i].ref != 0
    ensures s[i].ref in m && m[s[i].ref] == s[i].val
  {
  }

  lemma RepresentsPut<V>(s: seq<Slot<V>>, m: map<nat, V>, i: nat, x: Slot<V>)
    requires Represents(s, m) && i < |s|
    requires x.ref != 0 && ((s[i].ref == 0 && x.ref !in m) || s[i].ref == x.ref)
    ensures Represents(s[i := x], m[x.ref := x.val])
  {
    var t := s[i := x];
    var m' := m[x.ref := x.val];
    forall r | r in m'
      ensures exists p :: 0 <= p < |t| && t[p].ref == r
    {
      if r == x.ref {
        assert t[i].ref == r;
      } else {
        var p :| 0 <= p < |s| && s[p].ref == r;
        assert t[p].ref == r;
      }
    }
  }

  lemma RepresentsClear<V>(s: seq<Slot<V>>, m: map<nat, V>, i: nat)
    requires Represents(s, m) && i < |s| && s[i].ref != 0
    ensures Represents(s[i := s[i].(ref := 0)], m - {s[i].ref})
    ensures |m - {s[i].ref}| == |m| - 1
  {
    var t := s[i := s[i].(ref := 0)];
    forall r | r in m - {s[i].ref}
      ensures exists p :: 0 <= p < |t| && t[p].ref == r
    {
      var p :| 0 <= p < |s| && s[p].ref == r;
      assert t[p].ref == r;
    }
    assert (m - {s[i].ref}).Keys == m.Keys - {s[i].ref};
  }
}

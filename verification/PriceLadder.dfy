/** The parser's price ladder: a sorted array of levels with binary search and memmove. */
module PriceLadders {
  import opened Levels

  datatype Level = Level(price: nat, qty: nat)

  predicate Better(a: nat, b: nat, desc: bool) {
    if desc then a > b else a < b
  }

  /** Best price first. */
  ghost predicate Sorted(s: seq<Level>, desc: bool) {
    forall i, j :: 0 <= i < j < |s| ==> Better(s[i].price, s[j].price, desc)
  }

  ghost predicate Holds(s: seq<Level>, d: Ladder) {
    && (forall i :: 0 <= i < |s| ==> s[i].price in d && d[s[i].price] == s[i].qty)
    && (forall p :: p in d ==> exists i :: 0 <= i < |s| && s[i].price == p)
  }

  ghost predicate Sound(s: seq<Level>, desc: bool, d: Ladder) {
    Sorted(s, desc) && Holds(s, d) && |s| == |d|
  }

  /** `idx` is where `price` belongs among the levels. */
  ghost predicate Place(s: seq<Level>, desc: bool, price: nat, idx: nat) {
    && idx <= |s|
    && (forall i :: 0 <= i < idx ==> Better(s[i].price, price, desc))
    && (forall i :: idx <= i < |s| ==> Better(price, s[i].price, desc))
  }

  ghost function Inserted(s: seq<Level>, idx: nat, x: Level): seq<Level>
    requires idx <= |s|
  {
    s[..idx] + [x] + s[idx..]
  }

  ghost function Removed(s: seq<Level>, idx: nat): seq<Level>
    requires idx < |s|
  {
    s[..idx] + s[idx + 1..]
  }

  lemma InsertSorted(s: seq<Level>, desc: bool, idx: nat, x: Level)
    requires Sorted(s, desc) && Place(s, desc, x.price, idx)
    ensures Sorted(Inserted(s, idx, x), desc)
  {
  }

  lemma InsertHolds(s: seq<Level>, d: Ladder, idx: nat, x: Level)
    requires Holds(s, d) && idx <= |s| && x.price !in d
    ensures Holds(Inserted(s, idx, x), d[x.price := x.qty])
  {
    var t, d' := Inserted(s, idx, x), d[x.price := x.qty];
    forall i | 0 <= i < |t|
      ensures t[i].price in d' && d'[t[i].price] == t[i].qty
    {
      assert i == idx || t[i] == s[if i < idx then i else i - 1];
    }
    forall p | p in d'
      ensures exists i :: 0 <= i < |t| && t[i].price == p
    {
      if p == x.price {
        assert t[idx].price == p;
      } else {
        var i :| 0 <= i < |s| && s[i].price == p;
        assert t[if i < idx then i else i + 1].price == p;
      }
    }
  }

  lemma InsertAt(s: seq<Level>, desc: bool, d: Ladder, idx: nat, x: Level)
    requires Sound(s, desc, d) && Place(s, desc, x.price, idx)
    ensures x.price !in d
    ensures Sound(Inserted(s, idx, x), desc, d[x.price := x.qty])
  {
    NotHeld(s, desc, d, x.price, idx);
    hide Sorted, Holds;
    InsertSorted(s, desc, idx, x);
    InsertHolds(s, d, idx, x);
    assert d[x.price := x.qty].Keys == d.Keys + {x.price};
  }

  lemma RemovedAreHeld(s: seq<Level>, desc: bool, d: Ladder, idx: nat, i: nat)
    requires Holds(s, d) && Sorted(s, desc) && idx < |s| && i < |s| - 1
    ensures Removed(s, idx)[i].price in d && Removed(s, idx)[i].price != s[idx].price
    ensures d[Removed(s, idx)[i].price] == Removed(s, idx)[i].qty
  {
    assert Removed(s, idx)[i] == s[if i < idx then i else i + 1];
  }

  lemma HeldAreRemoved(s: seq<Level>, d: Ladder, idx: nat, p: nat)
    requires Holds(s, d) && idx < |s| && p in d && p != s[idx].price
    ensures exists i :: 0 <= i < |Removed(s, idx)| && Removed(s, idx)[i].price == p
  {
    var i :| 0 <= i < |s| && s[i].price == p;
    assert Removed(s, idx)[if i < idx then i else i - 1].price == p;
  }

  lemma RemoveHolds(s: seq<Level>, desc: bool, d: Ladder, idx: nat)
    requires Holds(s, d) && Sorted(s, desc) && idx < |s|
    ensures Holds(Removed(s, idx), d - {s[idx].price})
  {
    hide Sorted;
    var t, d' := Removed(s, idx), d - {s[idx].price};
    forall i | 0 <= i < |t|
      ensures t[i].price in d' && d'[t[i].price] == t[i].qty
    {
      hide Removed, Holds;
      RemovedAreHeld(s, desc, d, idx, i);
    }
    forall p | p in d'
      ensures exists i :: 0 <= i < |t| && t[i].price == p
    {
      hide Removed, Holds;
      HeldAreRemoved(s, d, idx, p);
    }
  }

  lemma RemoveAt(s: seq<Level>, desc: bool, d: Ladder, idx: nat)
    requires Sound(s, desc, d) && idx < |s|
    ensures Sound(Removed(s, idx), desc, d - {s[idx].price})
  {
    LevelHeld(s, desc, d, idx);
    RemoveHolds(s, desc, d, idx);
    assert (d - {s[idx].price}).Keys == d.Keys - {s[idx].price};
  }

  lemma UpdateHolds(s: seq<Level>, desc: bool, d: Ladder, idx: nat, qty: nat)
    requires Holds(s, d) && Sorted(s, desc) && idx < |s|
    ensures Holds(s[idx := s[idx].(qty := qty)], d[s[idx].price := qty])
  {
    var t, d' := s[idx := s[idx].(qty := qty)], d[s[idx].price := qty];
    forall p | p in d'
      ensures exists i :: 0 <= i < |t| && t[i].price == p
    {
      var i :| 0 <= i < |s| && s[i].price == p;
      assert t[i].price == p;
    }
  }

  lemma UpdateAt(s: seq<Level>, desc: bool, d: Ladder, idx: nat, qty: nat)
    requires Sound(s, desc, d) && idx < |s|
    ensures Sound(s[idx := s[idx].(qty := qty)], desc, d[s[idx].price := qty])
    ensures |d[s[idx].price := qty]| == |d|
  {
    LevelHeld(s, desc, d, idx);
    UpdateHolds(s, desc, d, idx, qty);
    assert d[s[idx].price := qty].Keys == d.Keys;
  }

  /** The first level is the best of the side. */
  lemma FirstIsBest(s: seq<Level>, desc: bool, d: Ladder)
    requires Sound(s, desc, d)
    ensures s == [] <==> d == map[]
    ensures s != [] ==> s[0].price == BestPx(d, desc) && s[0].qty == d[s[0].price]
  {
    if s != [] {
      var best := BestPx(d, desc);
      var i :| 0 <= i < |s| && s[i].price == best;
      assert s[0].price in d;
    }
  }

  lemma LevelHeld(s: seq<Level>, desc: bool, d: Ladder, idx: nat)
    requires Sound(s, desc, d) && idx < |s|
    ensures s[idx].price in d && d[s[idx].price] == s[idx].qty
  {
  }

  lemma NotHeld(s: seq<Level>, desc: bool, d: Ladder, price: nat, idx: nat)
    requires Sound(s, desc, d) && Place(s, desc, price, idx)
    ensures price !in d
  {
  }

  class PriceLadder {
    const arr: array<Level>
    const desc: bool
    var n: nat
    ghost var Contents: Ladder

    ghost predicate Valid()
      reads this, arr
    {
      n <= arr.Length && Sound(arr[..n], desc, Contents)
    }

    constructor (maxLevels: nat, desc: bool)
      ensures Valid() && fresh(arr) && Contents == map[] && this.desc == desc && arr.Length == maxLevels
    {
      arr := new Level[maxLevels](_ => Level(0, 0));
      this.desc := desc;
      n := 0;
      Contents := map[];
    }

    /** Binary search: the level's slot, or where it would go. */
    method Find(price: nat) returns (idx: nat, found: bool)
      requires Valid()
      ensures found <==> price in Contents
      ensures idx <= n && (found ==> idx < n && arr[idx] == Level(price, Contents[price]))
      ensures !found ==> Place(arr[..n], desc, price, idx)
    {
      hide Holds;
      ghost var s := arr[..n];
      var lo, hi := 0, n;
      while lo < hi
        invariant 0 <= lo <= hi <= n
        invariant forall i :: 0 <= i < lo ==> Better(s[i].price, price, desc)
        invariant forall i :: hi <= i < n ==> Better(price, s[i].price, desc)
      {
        var mid := (lo + hi) / 2;
        assert arr[mid] == s[mid];
        if arr[mid].price == price {
          LevelHeld(s, desc, Contents, mid);
          return mid, true;
        }
        if Better(arr[mid].price, price, desc) {
          lo := mid + 1;
        } else {
          hi := mid;
        }
      }
      NotHeld(s, desc, Contents, price, lo);
      return lo, false;
    }

    lemma Capacity()
      requires Valid()
      ensures |Contents| <= arr.Length
    {
    }

    method Write(idx: nat, x: Level)
      requires idx < n <= arr.Length
      modifies arr
      ensures arr[..n] == old(arr[..n])[idx := x]
    {
      arr[idx] := x;
    }

    /** memmove up by one level and fill the gap. */
    method MoveUp(idx: nat, x: Level)
      requires idx <= n < arr.Length
      modifies this`n, arr
      ensures n == old(n) + 1 && arr[..n] == Inserted(old(arr[..n]), idx, x)
    {
      ghost var s := arr[..n];
      forall k | idx <= k < n {
        arr[k + 1] := arr[k];
      }
      arr[idx] := x;
      n := n + 1;
      assert arr[..n] == Inserted(s, idx, x);
    }

    /** memmove down by one level. */
    method MoveDown(idx: nat)
      requires idx < n <= arr.Length
      modifies this`n, arr
      ensures n == old(n) - 1 && arr[..n] == Removed(old(arr[..n]), idx)
    {
      ghost var s := arr[..n];
      forall k | idx <= k < n - 1 {
        arr[k] := arr[k + 1];
      }
      n := n - 1;
      assert arr[..n] == Removed(s, idx);
    }

    /** `book_add`; not `ok` is the overflow exit, taken exactly when a new level finds no slot. */
    method Add(price: nat, qty: nat) returns (ok: bool)
      requires Valid()
      modifies this, arr
      ensures Valid()
      ensures ok <==> |AddLvl(old(Contents), price, qty)| <= arr.Length
      ensures Contents == if ok then AddLvl(old(Contents), price, qty) else old(Contents)
    {
      hide Sorted, Holds, Place, Inserted;
      var idx, found := Find(price);
      ghost var s := arr[..n];
      if found {
        assert s[idx] == arr[idx];
        UpdateAt(s, desc, Contents, idx, arr[idx].qty + qty);
        Contents := Contents[price := arr[idx].qty + qty];
        Write(idx, arr[idx].(qty := arr[idx].qty + qty));
        return true;
      }
      InsertAt(s, desc, Contents, idx, Level(price, qty));
      if n >= arr.Length {
        return false;
      }
      MoveUp(idx, Level(price, qty));
      Contents := Contents[price := qty];
      return true;
    }

    /** `book_reduce`: a level losing all it has, or more, goes away; a missing one is left. */
    method Reduce(price: nat, qty: nat)
      requires Valid()
      modifies this, arr
      ensures Valid() && Contents == RemLvl(old(Contents), price, qty)
    {
      hide Sorted, Holds, Removed, Place;
      var idx, found := Find(price);
      ghost var s := arr[..n];
      if !found {
        assert Contents - {price} == Contents;
        return;
      }
      assert s[idx] == arr[idx];
      if arr[idx].qty <= qty {
        RemoveAt(s, desc, Contents, idx);
        MoveDown(idx);
        Contents := Contents - {price};
      } else {
        UpdateAt(s, desc, Contents, idx, arr[idx].qty - qty);
        Contents := Contents[price := arr[idx].qty - qty];
        Write(idx, arr[idx].(qty := arr[idx].qty - qty));
      }
    }
  }
}

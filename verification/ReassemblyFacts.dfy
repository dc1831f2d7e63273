/** The reassembled stream and its holes, position by position. */
module ReassemblyFacts {
  import opened BigEndian
  import opened Reassembly

  // ---- the bytes out ----

  ghost function CoveredIn(segs: seq<Segment>, lo: nat, hi: nat): set<nat> {
    set p: nat | lo <= p < hi && Covered(segs, p)
  }

  lemma CoveredNext(segs: seq<Segment>, lo: nat, hi: nat)
    requires lo < hi
    ensures |CoveredIn(segs, lo, hi)| == |CoveredIn(segs, lo, hi - 1)| + if Covered(segs, hi - 1) then 1 else 0
  {
    hide Covered;
    assert CoveredIn(segs, lo, hi) == CoveredIn(segs, lo, hi - 1) + if Covered(segs, hi - 1) then {hi - 1} else {};
  }

  lemma {:induction false} CollectSize(stream: nat -> byte, segs: seq<Segment>, lo: nat, hi: nat)
    ensures |Collect(stream, segs, lo, hi)| == |CoveredIn(segs, lo, hi)|
  {
    hide Covered;
    if lo < hi {
      CollectSize(stream, segs, lo, hi - 1);
      CoveredNext(segs, lo, hi);
      hide CoveredIn;
    } else {
      assert CoveredIn(segs, lo, hi) == {};
    }
  }

  /** As many bytes come out as positions are covered, and the byte of a covered position comes after one for each
      covered position before it. */
  lemma {:induction false} CollectAt(stream: nat -> byte, segs: seq<Segment>, lo: nat, hi: nat, p: nat)
    requires lo <= p < hi && Covered(segs, p)
    ensures |Collect(stream, segs, lo, hi)| == |CoveredIn(segs, lo, hi)|
    ensures |CoveredIn(segs, lo, p)| < |Collect(stream, segs, lo, hi)|
    ensures Collect(stream, segs, lo, hi)[|CoveredIn(segs, lo, p)|] == stream(p)
  {
    hide Covered, CoveredIn;
    CollectSize(stream, segs, lo, hi);
    CollectSize(stream, segs, lo, hi - 1);
    if p < hi - 1 {
      CollectAt(stream, segs, lo, hi - 1, p);
    }
  }

  // ---- which segment's byte ----

  predicate Has(s: Segment, p: nat) {
    s.start <= p < End(s)
  }

  lemma InsertCovers(s: Segment, sorted: seq<Segment>, p: nat)
    requires InOrder(sorted)
    ensures Covered(Insert(s, sorted), p) <==> Covered(sorted, p) || Has(s, p)
  {
    hide Covered, InOrder;
    assert multiset(sorted + [s]) == multiset(sorted) + multiset{s};
    SameSegments(Insert(s, sorted), sorted + [s]);
    CoveredSnoc(sorted, s, p);
  }

  /** Some segment of `sorted` that starts no later than `s` covers `p`. */
  ghost predicate Beaten(s: Segment, sorted: seq<Segment>, p: nat) {
    exists t :: t in sorted && t.start <= s.start && Has(t, p)
  }

  lemma BeatenSnoc(s: Segment, front: seq<Segment>, last: Segment, p: nat)
    requires s.start < last.start
    ensures Beaten(s, front + [last], p) <==> Beaten(s, front, p)
    ensures Beaten(s, front, p) ==> Covered(front, p)
  {
    if t :| t in front && t.start <= s.start && Has(t, p) {
      assert t in front + [last];
    }
  }

  lemma BeatenAll(s: Segment, sorted: seq<Segment>, p: nat)
    requires InOrder(sorted) && (sorted == [] || sorted[|sorted| - 1].start <= s.start)
    ensures Beaten(s, sorted, p) <==> Covered(sorted, p)
  {
    if Covered(sorted, p) {
      var i :| 0 <= i < |sorted| && sorted[i].start <= p < End(sorted[i]);
      assert sorted[i] in sorted && sorted[i].start <= s.start && Has(sorted[i], p);
    }
  }

  lemma WinnerSnoc(front: seq<Segment>, last: Segment, p: nat)
    ensures Winner(front + [last], p)
         == if Covered(front, p) || !Has(last, p) then Winner(front, p) else last.payload[p - last.start]
  {
    hide Covered;
    assert (front + [last])[..|front|] == front;
  }

  lemma InsertIs(s: Segment, sorted: seq<Segment>)
    requires InOrder(sorted)
    ensures sorted == [] || sorted[|sorted| - 1].start <= s.start ==> Insert(s, sorted) == sorted + [s]
    ensures sorted != [] && s.start < sorted[|sorted| - 1].start ==>
      InOrder(sorted[..|sorted| - 1]) && Insert(s, sorted) == Insert(s, sorted[..|sorted| - 1]) + [sorted[|sorted| - 1]]
  {
  }

  lemma {:induction false} InsertWins(s: Segment, sorted: seq<Segment>, p: nat)
    requires InOrder(sorted)
    ensures Winner(Insert(s, sorted), p)
         == if Has(s, p) && !Beaten(s, sorted, p) then s.payload[p - s.start] else Winner(sorted, p)
  {
    hide Beaten, Covered, Insert, Winner, InOrder;
    InsertIs(s, sorted);
    if sorted == [] || sorted[|sorted| - 1].start <= s.start {
      BeatenAll(s, sorted, p);
      WinnerSnoc(sorted, s, p);
    } else {
      var front, last := sorted[..|sorted| - 1], sorted[|sorted| - 1];
      assert sorted == front + [last];
      InsertWins(s, front, p);
      InsertCovers(s, front, p);
      BeatenSnoc(s, front, last, p);
      WinnerSnoc(Insert(s, front), last, p);
      WinnerSnoc(front, last, p);
    }
  }

  /** Segment `j` is the first to cover `p`: no other that covers it starts earlier, or as early and arrived before. */
  ghost predicate FirstAt(segs: seq<Segment>, j: nat, p: nat)
    requires j < |segs|
  {
    && Has(segs[j], p)
    && forall i :: 0 <= i < |segs| && Has(segs[i], p) ==>
      segs[j].start < segs[i].start || (segs[j].start == segs[i].start && j <= i)
  }

  lemma FirstNext(front: seq<Segment>, last: Segment, j: nat, p: nat)
    requires j < |front| && FirstAt(front, j, p)
    ensures Beaten(last, front, p) ==> front[j].start <= last.start
    ensures !(Has(last, p) && last.start < front[j].start) ==> FirstAt(front + [last], j, p)
    ensures Has(last, p) && last.start < front[j].start ==> FirstAt(front + [last], |front|, p) && !Beaten(last, front, p)
    ensures front[j].start <= last.start ==> Beaten(last, front, p)
  {
    if t :| t in front && t.start <= last.start && Has(t, p) {
      var i :| 0 <= i < |front| && front[i] == t;
    }
  }

  lemma BeatenSame(s: Segment, a: seq<Segment>, b: seq<Segment>, p: nat)
    requires multiset(a) == multiset(b)
    ensures Beaten(s, a, p) <==> Beaten(s, b, p)
  {
    SameMembers(a, b);
    SameMembers(b, a);
  }

  lemma OnlyLast(front: seq<Segment>, last: Segment, p: nat)
    requires !Covered(front, p) && Has(last, p)
    ensures FirstAt(front + [last], |front|, p) && !Beaten(last, front, p)
  {
    forall i | 0 <= i < |front|
      ensures !Has(front[i], p)
    {
    }
  }

  /** What the last segment to arrive does to the stream. */
  lemma SpelledSnoc(front: seq<Segment>, last: Segment, p: nat)
    ensures Spelled(front + [last])(p)
         == if Has(last, p) && !Beaten(last, front, p) then last.payload[p - last.start] else Spelled(front)(p)
  {
    hide Beaten, Covered, Insert, Winner, InOrder;
    assert (front + [last])[..|front|] == front;
    InsertWins(last, Sort(front), p);
    BeatenSame(last, Sort(front), front, p);
  }

  /** Where segments disagree the stream has the byte of the first that covers the position: the one with the lowest
      start and, among those, the earliest to arrive. */
  lemma {:induction false} SpelledIs(segs: seq<Segment>, p: nat) returns (j: nat)
    requires Covered(segs, p)
    ensures j < |segs| && FirstAt(segs, j, p) && Spelled(segs)(p) == segs[j].payload[p - segs[j].start]
  {
    hide Covered, Beaten, FirstAt, Spelled;
    NothingCovers(p);
    var front, last := segs[..|segs| - 1], segs[|segs| - 1];
    assert segs == front + [last];
    CoveredSnoc(front, last, p);
    SpelledSnoc(front, last, p);
    if Covered(front, p) {
      j := SpelledIs(front, p);
      FirstNext(front, last, j, p);
      if Has(last, p) && last.start < front[j].start {
        j := |front|;
      }
    } else {
      j := |front|;
      OnlyLast(front, last, p);
    }
  }

  lemma NothingCovers(p: nat)
    ensures !Covered([], p)
  {
  }

  // ---- the holes ----

  /** A hole: no position in it is covered, and it cannot be made longer on either side. */
  ghost predicate IsHole(segs: seq<Segment>, lo: nat, hi: nat, g: (nat, nat)) {
    && lo <= g.0 < g.1 <= hi
    && (forall p: nat :: g.0 <= p < g.1 ==> !Covered(segs, p))
    && (g.0 == lo || Covered(segs, g.0 - 1)) && (g.1 == hi || Covered(segs, g.1))
  }

  ghost predicate AreHoles(segs: seq<Segment>, lo: nat, hi: nat, holes: seq<(nat, nat)>) {
    && (forall k :: 0 <= k < |holes| ==> IsHole(segs, lo, hi, holes[k]))
    && (forall i, k :: 0 <= i < k < |holes| ==> holes[i].1 < holes[k].0)
    && (forall p: nat :: lo <= p < hi && !Covered(segs, p) ==> InHole(holes, p))
  }

  lemma NewHole(segs: seq<Segment>, lo: nat, hi: nat, g: seq<(nat, nat)>)
    requires lo < hi && AreHoles(segs, lo, hi - 1, g) && !Covered(segs, hi - 1)
    requires g == [] || g[|g| - 1].1 < hi - 1
    ensures AreHoles(segs, lo, hi, g + [(hi - 1, hi)])
  {
    hide Covered;
    var h := g + [(hi - 1, hi)];
    if lo < hi - 1 && !Covered(segs, hi - 2) {
      assert InHole(g, hi - 2);
    }
    forall k | 0 <= k < |g|
      ensures IsHole(segs, lo, hi, g[k]) && g[k].1 < hi - 1
    {
      assert IsHole(segs, lo, hi - 1, g[k]);
    }
    InHoleMore(segs, lo, hi, g, h);
  }

  lemma LongerHole(segs: seq<Segment>, lo: nat, hi: nat, g: seq<(nat, nat)>)
    requires lo < hi && AreHoles(segs, lo, hi - 1, g) && !Covered(segs, hi - 1)
    requires g != [] && g[|g| - 1].1 == hi - 1
    ensures AreHoles(segs, lo, hi, g[..|g| - 1] + [(g[|g| - 1].0, hi)])
  {
    hide Covered;
    var last := g[|g| - 1];
    var h := g[..|g| - 1] + [(last.0, hi)];
    assert IsHole(segs, lo, hi - 1, last);
    forall k | 0 <= k < |g| - 1
      ensures IsHole(segs, lo, hi, g[k]) && g[k].1 < last.0
    {
      assert IsHole(segs, lo, hi - 1, g[k]);
    }
    InHoleMore(segs, lo, hi, g, h);
  }

  lemma InHoleMore(segs: seq<Segment>, lo: nat, hi: nat, g: seq<(nat, nat)>, h: seq<(nat, nat)>)
    requires lo < hi && h != [] && h[|h| - 1].0 <= hi - 1 && h[|h| - 1].1 == hi
    requires |g| <= |h| && forall k :: 0 <= k < |g| ==> h[k].0 == g[k].0 && g[k].1 <= h[k].1
    requires forall p: nat :: lo <= p < hi - 1 && !Covered(segs, p) ==> InHole(g, p)
    ensures forall p: nat :: lo <= p < hi && !Covered(segs, p) ==> InHole(h, p)
  {
    hide Covered;
    forall p: nat | lo <= p < hi && !Covered(segs, p)
      ensures InHole(h, p)
    {
      if p == hi - 1 {
        assert h[|h| - 1].0 <= p < h[|h| - 1].1;
      } else {
        assert InHole(g, p);
        var k :| 0 <= k < |g| && g[k].0 <= p < g[k].1;
        assert h[k].0 <= p < h[k].1;
      }
    }
  }

  lemma EndsBelow(segs: seq<Segment>, lo: nat, hi: nat, g: seq<(nat, nat)>)
    requires AreHoles(segs, lo, hi, g) && g != []
    ensures g[|g| - 1].1 <= hi
  {
    assert IsHole(segs, lo, hi, g[|g| - 1]);
  }

  lemma CoverEnd(segs: seq<Segment>, lo: nat, hi: nat, g: seq<(nat, nat)>)
    requires lo < hi && AreHoles(segs, lo, hi - 1, g) && Covered(segs, hi - 1)
    ensures AreHoles(segs, lo, hi, g)
  {
    hide Covered;
    forall k | 0 <= k < |g|
      ensures IsHole(segs, lo, hi, g[k])
    {
      assert IsHole(segs, lo, hi - 1, g[k]);
    }
  }

  lemma NoHoles(segs: seq<Segment>, lo: nat, hi: nat)
    requires hi <= lo
    ensures AreHoles(segs, lo, hi, [])
  {
  }

  /** The gaps are exactly the maximal uncovered runs, in order. */
  lemma {:induction false} GapsAreHoles(segs: seq<Segment>, lo: nat, hi: nat)
    ensures AreHoles(segs, lo, hi, Gaps(segs, lo, hi))
  {
    hide Covered, AreHoles;
    if hi <= lo {
      NoHoles(segs, lo, hi);
    } else {
      GapsAreHoles(segs, lo, hi - 1);
      var g := Gaps(segs, lo, hi - 1);
      if Covered(segs, hi - 1) {
        CoverEnd(segs, lo, hi, g);
      } else if g == [] {
        NewHole(segs, lo, hi, g);
      } else {
        EndsBelow(segs, lo, hi - 1, g);
        if g[|g| - 1].1 == hi - 1 {
          LongerHole(segs, lo, hi, g);
        } else {
          NewHole(segs, lo, hi, g);
        }
      }
    }
  }
}

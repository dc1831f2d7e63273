/** Putting captured TCP segments back in sequence order: overlaps trimmed, holes reported. */
module Reassembly {
  import opened BigEndian

  datatype Segment = Segment(start: nat, payload: Bytes)

  function End(s: Segment): nat {
    s.start + |s.payload|
  }

  ghost predicate Covered(segs: seq<Segment>, p: nat) {
    exists i :: 0 <= i < |segs| && segs[i].start <= p < End(segs[i])
  }

  ghost predicate SliceOf(stream: nat -> byte, s: Segment) {
    forall k :: 0 <= k < |s.payload| ==> s.payload[k] == stream(s.start + k)
  }

  /** Every segment is a slice of the one stream. */
  ghost predicate Slices(stream: nat -> byte, segs: seq<Segment>) {
    forall i :: 0 <= i < |segs| ==> SliceOf(stream, segs[i])
  }

  /** The covered bytes of [lo, hi), in order, each once. */
  ghost function Collect(stream: nat -> byte, segs: seq<Segment>, lo: nat, hi: nat): Bytes {
    if hi <= lo then []
    else Collect(stream, segs, lo, hi - 1) + if Covered(segs, hi - 1) then [stream(hi - 1)] else []
  }

  /** The maximal uncovered runs of [lo, hi), in order. */
  ghost function Gaps(segs: seq<Segment>, lo: nat, hi: nat): seq<(nat, nat)> {
    if hi <= lo then []
    else
      var g := Gaps(segs, lo, hi - 1);
      if Covered(segs, hi - 1) then g
      else if g != [] && g[|g| - 1].1 == hi - 1 then g[..|g| - 1] + [(g[|g| - 1].0, hi)]
      else g + [(hi - 1, hi)]
  }

  ghost predicate InHole(holes: seq<(nat, nat)>, p: nat) {
    exists k :: 0 <= k < |holes| && holes[k].0 <= p < holes[k].1
  }

  function MinStart(segs: seq<Segment>): (m: nat)
    requires segs != []
    ensures forall i :: 0 <= i < |segs| ==> m <= segs[i].start
    ensures exists i :: 0 <= i < |segs| && m == segs[i].start
  {
    var last := segs[|segs| - 1].start;
    if |segs| == 1 then last
    else
      var m := MinStart(segs[..|segs| - 1]);
      if last < m then last else m
  }

  function MaxEnd(segs: seq<Segment>): (m: nat)
    requires segs != []
    ensures forall i :: 0 <= i < |segs| ==> End(segs[i]) <= m
    ensures exists i :: 0 <= i < |segs| && m == End(segs[i])
  {
    var last := End(segs[|segs| - 1]);
    if |segs| == 1 then last
    else
      var m := MaxEnd(segs[..|segs| - 1]);
      if last > m then last else m
  }

  // ---- Collect and Gaps over adjoining ranges ----

  lemma {:induction false} CollectNone(stream: nat -> byte, segs: seq<Segment>, lo: nat, mid: nat, hi: nat)
    requires lo <= mid <= hi && forall p :: mid <= p < hi ==> !Covered(segs, p)
    ensures Collect(stream, segs, lo, hi) == Collect(stream, segs, lo, mid)
  {
    if mid < hi {
      CollectNone(stream, segs, lo, mid, hi - 1);
    }
  }

  lemma {:induction false} CollectAll(stream: nat -> byte, segs: seq<Segment>, lo: nat, piece: Segment)
    requires lo <= piece.start && SliceOf(stream, piece)
    requires forall p :: piece.start <= p < End(piece) ==> Covered(segs, p)
    ensures Collect(stream, segs, lo, End(piece)) == Collect(stream, segs, lo, piece.start) + piece.payload
    decreases |piece.payload|
  {
    hide Covered;
    if piece.payload != [] {
      var front := piece.payload[..|piece.payload| - 1];
      CollectAll(stream, segs, lo, Segment(piece.start, front));
      assert piece.payload == front + [stream(End(piece) - 1)];
    } else {
      assert Collect(stream, segs, lo, piece.start) + piece.payload == Collect(stream, segs, lo, piece.start);
    }
  }

  /** What is collected depends only on which positions are covered. */
  lemma {:induction false} CoverageDecides(stream: nat -> byte, a: seq<Segment>, b: seq<Segment>, lo: nat, hi: nat)
    requires forall p :: lo <= p < hi ==> (Covered(a, p) <==> Covered(b, p))
    ensures Collect(stream, a, lo, hi) == Collect(stream, b, lo, hi)
    ensures Gaps(a, lo, hi) == Gaps(b, lo, hi)
  {
    if lo < hi {
      CoverageDecides(stream, a, b, lo, hi - 1);
    }
  }

  lemma {:induction false} GapsCovered(segs: seq<Segment>, lo: nat, mid: nat, hi: nat)
    requires lo <= mid <= hi && forall p :: mid <= p < hi ==> Covered(segs, p)
    ensures Gaps(segs, lo, hi) == Gaps(segs, lo, mid)
  {
    if mid < hi {
      GapsCovered(segs, lo, mid, hi - 1);
    }
  }

  lemma {:induction false} GapsEndBelow(segs: seq<Segment>, lo: nat, hi: nat)
    ensures var g := Gaps(segs, lo, hi); g != [] ==> g[|g| - 1].1 <= hi
    ensures var g := Gaps(segs, lo, hi); g != [] && lo < hi && Covered(segs, hi - 1) ==> g[|g| - 1].1 < hi
  {
    if lo < hi {
      GapsEndBelow(segs, lo, hi - 1);
    }
  }

  /** An uncovered run after a covered byte is one more gap. */
  lemma {:induction false} GapsUncovered(segs: seq<Segment>, lo: nat, mid: nat, hi: nat)
    requires lo <= mid < hi && (lo < mid ==> Covered(segs, mid - 1))
    requires forall p :: mid <= p < hi ==> !Covered(segs, p)
    ensures Gaps(segs, lo, hi) == Gaps(segs, lo, mid) + [(mid, hi)]
  {
    if mid + 1 < hi {
      GapsUncovered(segs, lo, mid, hi - 1);
      assert (Gaps(segs, lo, mid) + [(mid, hi - 1)])[..|Gaps(segs, lo, mid)|] == Gaps(segs, lo, mid);
    } else {
      GapsEndBelow(segs, lo, mid);
    }
  }

  // ---- sorting ----

  ghost predicate InOrder(segs: seq<Segment>) {
    forall i, j :: 0 <= i < j < |segs| ==> segs[i].start <= segs[j].start
  }

  /** Put a segment after the ones that do not start later, as a stable sort does. */
  function Insert(s: Segment, sorted: seq<Segment>): (r: seq<Segment>)
    requires InOrder(sorted)
    ensures InOrder(r) && multiset(r) == multiset(sorted) + multiset{s}
  {
    if sorted == [] || sorted[|sorted| - 1].start <= s.start then
      sorted + [s]
    else
      var front, last := sorted[..|sorted| - 1], sorted[|sorted| - 1];
      assert sorted == front + [last];
      BelowLast(Insert(s, front), s, front, last);
      Insert(s, front) + [last]
  }

  lemma BelowLast(r: seq<Segment>, s: Segment, front: seq<Segment>, last: Segment)
    requires InOrder(front + [last]) && s.start < last.start && multiset(r) == multiset(front) + multiset{s}
    ensures forall i :: 0 <= i < |r| ==> r[i].start <= last.start
  {
    forall i | 0 <= i < |r|
      ensures r[i].start <= last.start
    {
      assert r[i] in multiset(r);
      if r[i] != s {
        assert r[i] in front;
        var j :| 0 <= j < |front| && front[j] == r[i];
        assert (front + [last])[j] == r[i] && (front + [last])[|front|] == last;
      }
    }
  }

  function Sort(segs: seq<Segment>): (r: seq<Segment>)
    ensures InOrder(r) && multiset(r) == multiset(segs)
  {
    if segs == [] then []
    else
      assert segs == segs[..|segs| - 1] + [segs[|segs| - 1]];
      Insert(segs[|segs| - 1], Sort(segs[..|segs| - 1]))
  }

  lemma SameMembers(a: seq<Segment>, b: seq<Segment>)
    requires multiset(a) == multiset(b)
    ensures |a| == |b| && forall i :: 0 <= i < |a| ==> a[i] in b
  {
    assert |a| == |multiset(a)| && |b| == |multiset(b)|;
    forall i | 0 <= i < |a|
      ensures a[i] in b
    {
      assert a[i] in multiset(a);
    }
  }

  lemma CoveredIn(a: seq<Segment>, b: seq<Segment>, p: nat)
    requires Covered(a, p) && forall i :: 0 <= i < |a| ==> a[i] in b
    ensures Covered(b, p)
  {
    var i :| 0 <= i < |a| && a[i].start <= p < End(a[i]);
    var j :| 0 <= j < |b| && b[j] == a[i];
  }

  /** Order and number of copies do not change what is covered, nor where it starts and ends. */
  lemma SameSegments(a: seq<Segment>, b: seq<Segment>)
    requires multiset(a) == multiset(b)
    ensures |a| == |b| && forall p: nat :: Covered(a, p) <==> Covered(b, p)
    ensures a != [] ==> MinStart(a) == MinStart(b) && MaxEnd(a) == MaxEnd(b)
  {
    hide Covered, MinStart, MaxEnd;
    SameMembers(a, b);
    SameMembers(b, a);
    forall p: nat
      ensures Covered(a, p) <==> Covered(b, p)
    {
      if Covered(a, p) { CoveredIn(a, b, p); }
      if Covered(b, p) { CoveredIn(b, a, p); }
    }
    if a != [] {
      SameExtent(a, b);
      SameExtent(b, a);
    }
  }

  lemma SameSlices(stream: nat -> byte, a: seq<Segment>, b: seq<Segment>)
    requires multiset(a) == multiset(b) && Slices(stream, a)
    ensures Slices(stream, b)
  {
    SameMembers(b, a);
    forall i | 0 <= i < |b|
      ensures SliceOf(stream, b[i])
    {
      var j :| 0 <= j < |a| && a[j] == b[i];
    }
  }

  lemma SameExtent(a: seq<Segment>, b: seq<Segment>)
    requires a != [] && b != [] && forall i :: 0 <= i < |a| ==> a[i] in b
    ensures MinStart(b) <= MinStart(a) && MaxEnd(a) <= MaxEnd(b)
  {
    var i :| 0 <= i < |a| && MinStart(a) == a[i].start;
    var j :| 0 <= j < |b| && b[j] == a[i];
    var k :| 0 <= k < |a| && MaxEnd(a) == End(a[k]);
    var l :| 0 <= l < |b| && b[l] == a[k];
  }

  // ---- the loop ----

  ghost predicate Full(segs: seq<Segment>) {
    forall i :: 0 <= i < |segs| ==> segs[i].payload != []
  }

  /** After the sorted segments `pre`, based at `lo`: `nxt` is the end reached, and everything from
      the last start up to it is covered. */
  ghost predicate Reached(pre: seq<Segment>, lo: nat, nxt: nat) {
    if pre == [] then nxt == lo
    else
      nxt == MaxEnd(pre) && lo <= nxt && forall p: nat :: pre[|pre| - 1].start <= p < nxt ==> Covered(pre, p)
  }

  /** The output so far is what those segments cover, and the holes are what they leave. */
  ghost predicate Output(stream: nat -> byte, pre: seq<Segment>, lo: nat, nxt: nat, data: Bytes, holes: seq<(nat, nat)>) {
    && data == Collect(stream, pre, lo, nxt)
    && (forall p: nat :: lo <= p < nxt ==> (InHole(holes, p) <==> !Covered(pre, p)))
    && (forall k :: 0 <= k < |holes| ==> lo <= holes[k].0 < holes[k].1 <= nxt)
    && (Full(pre) ==> holes == Gaps(pre, lo, nxt))
  }

  lemma CoveredSnoc(pre: seq<Segment>, s: Segment, p: nat)
    ensures Covered(pre + [s], p) <==> Covered(pre, p) || s.start <= p < End(s)
  {
    if Covered(pre, p) {
      var i :| 0 <= i < |pre| && pre[i].start <= p < End(pre[i]);
      assert (pre + [s])[i] == pre[i];
    }
    if s.start <= p < End(s) {
      assert (pre + [s])[|pre|] == s;
    }
  }

  lemma MaxEndSnoc(pre: seq<Segment>, s: Segment)
    ensures MaxEnd(pre + [s]) == if pre == [] || End(s) > MaxEnd(pre) then End(s) else MaxEnd(pre)
  {
    assert (pre + [s])[..|pre|] == pre;
  }

  /** Nothing is covered at or past the end reached. */
  lemma NothingPast(pre: seq<Segment>, lo: nat, nxt: nat, p: nat)
    requires Reached(pre, lo, nxt) && nxt <= p
    ensures !Covered(pre, p)
  {
  }

  /** Below the end reached, the next segment covers nothing new. */
  lemma NothingNewBelow(pre: seq<Segment>, lo: nat, nxt: nat, s: Segment, p: nat)
    requires Reached(pre, lo, nxt) && lo <= s.start && (pre != [] ==> pre[|pre| - 1].start <= s.start)
    requires lo <= p < nxt
    ensures Covered(pre + [s], p) <==> Covered(pre, p)
  {
    CoveredSnoc(pre, s, p);
  }

  lemma SkipKeeps(stream: nat -> byte, pre: seq<Segment>, lo: nat, nxt: nat, data: Bytes, holes: seq<(nat, nat)>, s: Segment)
    requires Reached(pre, lo, nxt) && Output(stream, pre, lo, nxt, data, holes)
    requires lo <= s.start && (pre == [] ==> s.start == lo) && (pre != [] ==> pre[|pre| - 1].start <= s.start)
    requires End(s) <= nxt
    ensures Reached(pre + [s], lo, nxt) && Output(stream, pre + [s], lo, nxt, data, holes)
  {
    hide Covered, MaxEnd, InHole;
    MaxEndSnoc(pre, s);
    forall p: nat | lo <= p < nxt
      ensures Covered(pre + [s], p) <==> Covered(pre, p)
    {
      NothingNewBelow(pre, lo, nxt, s, p);
    }
    CoverageDecides(stream, pre, pre + [s], lo, nxt);
    FullFront(pre, s);
  }

  lemma FullFront(pre: seq<Segment>, s: Segment)
    ensures Full(pre + [s]) <==> Full(pre) && s.payload != []
  {
    assert (pre + [s])[|pre|] == s;
    forall i | 0 <= i < |pre|
      ensures (pre + [s])[i] == pre[i]
    {
    }
  }

  lemma LastByteCovered(pre: seq<Segment>, lo: nat, nxt: nat)
    requires Reached(pre, lo, nxt) && Full(pre) && lo < nxt
    ensures Covered(pre, nxt - 1)
  {
    assert pre[|pre| - 1].payload != [] && End(pre[|pre| - 1]) <= MaxEnd(pre);
  }

  lemma InHoleSnoc(holes: seq<(nat, nat)>, h: (nat, nat), p: nat)
    ensures InHole(holes + [h], p) <==> InHole(holes, p) || h.0 <= p < h.1
  {
    if InHole(holes, p) {
      var k :| 0 <= k < |holes| && holes[k].0 <= p < holes[k].1;
      assert (holes + [h])[k] == holes[k];
    }
    assert (holes + [h])[|holes|] == h;
  }

  /** Coverage after a segment that reaches further, and where its new bytes start. */
  lemma TakeCovers(pre: seq<Segment>, lo: nat, nxt: nat, s: Segment, p: nat)
    requires Reached(pre, lo, nxt) && lo <= s.start && (pre != [] ==> pre[|pre| - 1].start <= s.start)
    requires nxt < End(s) && lo <= p
    ensures p < nxt ==> (Covered(pre + [s], p) <==> Covered(pre, p))
    ensures nxt <= p ==> (Covered(pre + [s], p) <==> s.start <= p < End(s))
  {
    CoveredSnoc(pre, s, p);
    if nxt <= p {
      NothingPast(pre, lo, nxt, p);
    } else {
      NothingNewBelow(pre, lo, nxt, s, p);
    }
  }

  /** Where the bytes a segment adds begin. */
  function From(s: Segment, nxt: nat): nat {
    if s.start > nxt then s.start else nxt
  }

  /** The part of a segment at or past `nxt`. */
  function Fresh(s: Segment, nxt: nat): (r: Segment)
    requires nxt < End(s)
    ensures End(r) == End(s)
  {
    Segment(From(s, nxt), s.payload[From(s, nxt) - s.start..])
  }

  /** What `TakeCovers` says, of every position. */
  ghost predicate Grown(pre: seq<Segment>, all: seq<Segment>, lo: nat, nxt: nat, s: Segment) {
    forall p: nat :: lo <= p ==>
      && (p < nxt ==> (Covered(all, p) <==> Covered(pre, p)))
      && (nxt <= p ==> (Covered(all, p) <==> s.start <= p < End(s)))
  }

  lemma TakeGrows(pre: seq<Segment>, lo: nat, nxt: nat, s: Segment)
    requires Reached(pre, lo, nxt) && lo <= s.start && (pre != [] ==> pre[|pre| - 1].start <= s.start)
    requires nxt < End(s)
    ensures Grown(pre, pre + [s], lo, nxt, s)
  {
    hide Covered, Reached;
    forall p: nat | lo <= p
      ensures p < nxt ==> (Covered(pre + [s], p) <==> Covered(pre, p))
      ensures nxt <= p ==> (Covered(pre + [s], p) <==> s.start <= p < End(s))
    {
      TakeCovers(pre, lo, nxt, s, p);
    }
  }

  lemma GrownBelow(stream: nat -> byte, pre: seq<Segment>, all: seq<Segment>, lo: nat, nxt: nat, s: Segment)
    requires Grown(pre, all, lo, nxt, s)
    ensures Collect(stream, all, lo, nxt) == Collect(stream, pre, lo, nxt) && Gaps(all, lo, nxt) == Gaps(pre, lo, nxt)
  {
    hide Covered, Collect, Gaps;
    CoverageDecides(stream, pre, all, lo, nxt);
  }

  lemma GrownCollects(stream: nat -> byte, pre: seq<Segment>, all: seq<Segment>, lo: nat, nxt: nat, s: Segment)
    requires Grown(pre, all, lo, nxt, s) && lo <= nxt < End(s) && SliceOf(stream, Fresh(s, nxt))
    ensures Collect(stream, all, lo, End(s)) == Collect(stream, all, lo, nxt) + Fresh(s, nxt).payload
  {
    hide Covered, Collect, SliceOf;
    CollectNone(stream, all, lo, nxt, From(s, nxt));
    CollectAll(stream, all, lo, Fresh(s, nxt));
  }

  lemma TakeCollects(stream: nat -> byte, pre: seq<Segment>, lo: nat, nxt: nat, s: Segment)
    requires Reached(pre, lo, nxt) && lo <= s.start && (pre != [] ==> pre[|pre| - 1].start <= s.start)
    requires nxt < End(s) && lo <= nxt && SliceOf(stream, Fresh(s, nxt))
    ensures Collect(stream, pre + [s], lo, End(s)) == Collect(stream, pre, lo, nxt) + Fresh(s, nxt).payload
  {
    hide Covered, Reached, Collect, Grown, SliceOf;
    TakeGrows(pre, lo, nxt, s);
    GrownBelow(stream, pre, pre + [s], lo, nxt, s);
    GrownCollects(stream, pre, pre + [s], lo, nxt, s);
  }

  lemma TakeGaps(stream: nat -> byte, pre: seq<Segment>, lo: nat, nxt: nat, s: Segment)
    requires Reached(pre, lo, nxt) && lo <= s.start && (pre == [] ==> s.start == lo)
    requires pre != [] ==> pre[|pre| - 1].start <= s.start
    requires nxt < End(s) && lo <= nxt && Full(pre)
    ensures Gaps(pre + [s], lo, End(s)) == Gaps(pre, lo, nxt) + if s.start > nxt then [(nxt, s.start)] else []
  {
    if lo < nxt {
      LastByteCovered(pre, lo, nxt);
    }
    var gap := pre != [] && s.start > nxt;
    assert s.start > nxt ==> gap;
    hide Covered, Reached, Full, Gaps;
    var all := pre + [s];
    TakeGrows(pre, lo, nxt, s);
    GrownBelow(stream, pre, all, lo, nxt, s);
    if s.start > nxt {
      GapsUncovered(all, lo, nxt, s.start);
      GapsCovered(all, lo, s.start, End(s));
    } else {
      GapsCovered(all, lo, nxt, End(s));
    }
  }

  ghost function HolesAfter(holes: seq<(nat, nat)>, nxt: nat, s: Segment): seq<(nat, nat)> {
    if s.start > nxt then holes + [(nxt, s.start)] else holes
  }

  lemma TakeHoles(stream: nat -> byte, pre: seq<Segment>, lo: nat, nxt: nat, data: Bytes, holes: seq<(nat, nat)>, s: Segment)
    requires Reached(pre, lo, nxt) && Output(stream, pre, lo, nxt, data, holes)
    requires lo <= s.start && (pre != [] ==> pre[|pre| - 1].start <= s.start) && lo <= nxt < End(s)
    ensures forall p: nat :: lo <= p < End(s) ==> (InHole(HolesAfter(holes, nxt, s), p) <==> !Covered(pre + [s], p))
    ensures forall k :: 0 <= k < |HolesAfter(holes, nxt, s)| ==>
      lo <= HolesAfter(holes, nxt, s)[k].0 < HolesAfter(holes, nxt, s)[k].1 <= End(s)
  {
    hide Reached, Collect, Gaps, Full;
    forall p: nat | lo <= p < End(s)
      ensures InHole(HolesAfter(holes, nxt, s), p) <==> !Covered(pre + [s], p)
    {
      TakeCovers(pre, lo, nxt, s, p);
      InHoleSnoc(holes, (nxt, s.start), p);
    }
  }

  lemma TakeReaches(pre: seq<Segment>, lo: nat, nxt: nat, s: Segment)
    requires Reached(pre, lo, nxt) && lo <= s.start && lo <= nxt < End(s)
    ensures Reached(pre + [s], lo, End(s))
  {
    MaxEndSnoc(pre, s);
    hide Covered, MaxEnd;
    forall p: nat | s.start <= p < End(s)
      ensures Covered(pre + [s], p)
    {
      CoveredSnoc(pre, s, p);
    }
  }

  lemma TakeKeeps(stream: nat -> byte, pre: seq<Segment>, lo: nat, nxt: nat, data: Bytes, holes: seq<(nat, nat)>, s: Segment)
    requires Reached(pre, lo, nxt) && Output(stream, pre, lo, nxt, data, holes)
    requires lo <= s.start && (pre == [] ==> s.start == lo) && (pre != [] ==> pre[|pre| - 1].start <= s.start)
    requires lo <= nxt < End(s) && SliceOf(stream, Fresh(s, nxt))
    ensures Output(stream, pre + [s], lo, End(s), data + Fresh(s, nxt).payload, HolesAfter(holes, nxt, s))
  {
    hide Covered, Reached, InHole, Collect, Gaps, Full, SliceOf, HolesAfter;
    TakeCollects(stream, pre, lo, nxt, s);
    TakeHoles(stream, pre, lo, nxt, data, holes, s);
    FullFront(pre, s);
    if Full(pre) {
      TakeGaps(stream, pre, lo, nxt, s);
      HolesGrow(Gaps(pre, lo, nxt), nxt, s);
    }
  }

  lemma HolesGrow(gaps: seq<(nat, nat)>, nxt: nat, s: Segment)
    ensures HolesAfter(gaps, nxt, s) == gaps + if s.start > nxt then [(nxt, s.start)] else []
  {
  }

  /** The byte at a position when segments disagree: the earliest in the list that covers it wins. */
  ghost function Winner(segs: seq<Segment>, p: nat): byte {
    if segs == [] then 0
    else
      var front, last := segs[..|segs| - 1], segs[|segs| - 1];
      if Covered(front, p) || !(last.start <= p < End(last)) then Winner(front, p) else last.payload[p - last.start]
  }

  ghost function Winners(segs: seq<Segment>): nat -> byte {
    p => Winner(segs, p)
  }

  /** The stream the segments spell: at each position the byte of the first segment, by start and then by
      arrival, that covers it. */
  ghost function Spelled(segments: seq<Segment>): nat -> byte {
    Winners(Sort(segments))
  }

  lemma {:induction false} WinnerStays(segs: seq<Segment>, k: nat, p: nat)
    requires k <= |segs| && Covered(segs[..k], p)
    ensures Winner(segs, p) == Winner(segs[..k], p) && Covered(segs, p)
  {
    if k < |segs| {
      var front := segs[..|segs| - 1];
      assert front[..k] == segs[..k] && segs == front + [segs[|segs| - 1]];
      WinnerStays(front, k, p);
      CoveredSnoc(front, segs[|segs| - 1], p);
    } else {
      assert segs[..k] == segs;
    }
  }

  /** The bytes a segment adds past the end reached are the winning ones. */
  lemma FreshWins(sorted: seq<Segment>, i: nat, lo: nat, nxt: nat)
    requires i < |sorted| && Reached(sorted[..i], lo, nxt) && nxt < End(sorted[i])
    ensures SliceOf(Winners(sorted), Fresh(sorted[i], nxt))
  {
    hide Reached, Covered;
    var s, tail := sorted[i], Fresh(sorted[i], nxt);
    forall k | 0 <= k < |tail.payload|
      ensures tail.payload[k] == Winners(sorted)(tail.start + k)
    {
      var p := tail.start + k;
      NothingPast(sorted[..i], lo, nxt, p);
      NewcomerWins(sorted, i, p);
      assert tail.payload[k] == s.payload[p - s.start];
    }
  }

  lemma NewcomerWins(segs: seq<Segment>, i: nat, p: nat)
    requires i < |segs| && !Covered(segs[..i], p) && segs[i].start <= p < End(segs[i])
    ensures Winner(segs, p) == segs[i].payload[p - segs[i].start]
  {
    assert segs[..i + 1] == segs[..i] + [segs[i]] && segs[..i + 1][..i] == segs[..i];
    hide Covered;
    CoveredSnoc(segs[..i], segs[i], p);
    WinnerStays(segs, i + 1, p);
  }

  /** When the segments are slices of one stream, that stream is what they spell. */
  lemma {:induction false} WinnerOfSlices(stream: nat -> byte, segs: seq<Segment>, p: nat)
    requires Slices(stream, segs) && Covered(segs, p)
    ensures Winner(segs, p) == stream(p)
  {
    var front, last := segs[..|segs| - 1], segs[|segs| - 1];
    assert segs == front + [last];
    CoveredSnoc(front, last, p);
    if Covered(front, p) {
      WinnerOfSlices(stream, front, p);
    } else {
      assert SliceOf(stream, last);
      assert last.payload[p - last.start] == stream(last.start + (p - last.start));
    }
  }

  /** `reassemble`: the covered bytes in sequence order, each once, whatever order, duplication and
      overlap the segments arrived in; the holes are exactly the uncovered positions, and the
      maximal uncovered runs when no segment is empty. */
  method Reassemble(segments: seq<Segment>) returns (data: Bytes, holes: seq<(nat, nat)>)
    ensures segments == [] ==> data == [] && holes == []
    ensures segments != [] ==>
      Output(Spelled(segments), segments, MinStart(segments), MaxEnd(segments), data, holes)
  {
    if segments == [] {
      return [], [];
    }
    var sorted := Sort(segments);
    SameMembers(segments, sorted);
    data, holes := Merge(sorted);
    Finish(Spelled(segments), sorted, segments, data, holes);
  }

  /** Only the bytes at covered positions matter. */
  lemma {:induction false} SameBytes(one: nat -> byte, other: nat -> byte, segs: seq<Segment>, lo: nat, hi: nat)
    requires forall p: nat :: lo <= p < hi && Covered(segs, p) ==> one(p) == other(p)
    ensures Collect(one, segs, lo, hi) == Collect(other, segs, lo, hi)
  {
    if lo < hi {
      SameBytes(one, other, segs, lo, hi - 1);
    }
  }

  lemma SpelledByStream(stream: nat -> byte, segments: seq<Segment>, p: nat)
    requires Slices(stream, segments) && Covered(segments, p)
    ensures Spelled(segments)(p) == stream(p)
  {
    SameSlices(stream, segments, Sort(segments));
    SameSegments(segments, Sort(segments));
    hide Slices, Covered, Sort, MinStart, MaxEnd, Winner;
    WinnerOfSlices(stream, Sort(segments), p);
  }

  /** For slices of one stream the output is that stream's covered bytes. */
  lemma OneStream(stream: nat -> byte, segments: seq<Segment>, data: Bytes, holes: seq<(nat, nat)>)
    requires segments != [] && Slices(stream, segments)
    requires Output(Spelled(segments), segments, MinStart(segments), MaxEnd(segments), data, holes)
    ensures Output(stream, segments, MinStart(segments), MaxEnd(segments), data, holes)
  {
    hide Slices, Covered, Spelled, Gaps, InHole, Full, MinStart, MaxEnd, Collect;
    forall p: nat | Covered(segments, p)
      ensures Spelled(segments)(p) == stream(p)
    {
      SpelledByStream(stream, segments, p);
    }
    SameBytes(Spelled(segments), stream, segments, MinStart(segments), MaxEnd(segments));
  }

  /** The loop over the sorted segments. */
  method Merge(sorted: seq<Segment>) returns (data: Bytes, holes: seq<(nat, nat)>)
    requires sorted != [] && InOrder(sorted)
    ensures Output(Winners(sorted), sorted, sorted[0].start, MaxEnd(sorted), data, holes)
  {
    hide Reached, Output, SliceOf, InOrder, Winners, MaxEnd;
    ghost var stream := Winners(sorted);
    data, holes := [], [];
    var lo := sorted[0].start;
    var nxt := lo;
    NothingYet(stream, lo);
    for i := 0 to |sorted|
      invariant lo <= nxt && Reached(sorted[..i], lo, nxt)
      invariant Output(stream, sorted[..i], lo, nxt, data, holes)
    {
      var s := sorted[i];
      assert sorted[..i + 1] == sorted[..i] + [s];
      NextInOrder(sorted, i);
      if End(s) <= nxt {
        SkipKeeps(stream, sorted[..i], lo, nxt, data, holes, s);
      } else {
        FreshWins(sorted, i, lo, nxt);
        TakeKeeps(stream, sorted[..i], lo, nxt, data, holes, s);
        TakeReaches(sorted[..i], lo, nxt, s);
        if s.start > nxt {
          holes := holes + [(nxt, s.start)];
          nxt := s.start;
        }
        data := data + s.payload[nxt - s.start..];
        nxt := End(s);
      }
    }
    assert sorted[..|sorted|] == sorted;
    ReachedEnd(sorted, lo, nxt);
  }

  lemma ReachedEnd(pre: seq<Segment>, lo: nat, nxt: nat)
    requires pre != [] && Reached(pre, lo, nxt)
    ensures nxt == MaxEnd(pre)
  {
  }

  lemma NothingYet(stream: nat -> byte, lo: nat)
    ensures Reached([], lo, lo) && Output(stream, [], lo, lo, [], [])
  {
  }

  lemma NextInOrder(sorted: seq<Segment>, i: nat)
    requires i < |sorted| && InOrder(sorted)
    ensures sorted[0].start <= sorted[i].start
    ensures 0 < i ==> sorted[..i][i - 1].start <= sorted[i].start
  {
  }

  lemma Finish(stream: nat -> byte, sorted: seq<Segment>, segments: seq<Segment>, data: Bytes, holes: seq<(nat, nat)>)
    requires multiset(sorted) == multiset(segments) && sorted != [] && InOrder(sorted)
    requires Output(stream, sorted, sorted[0].start, MaxEnd(sorted), data, holes)
    ensures segments != [] && Output(stream, segments, MinStart(segments), MaxEnd(segments), data, holes)
  {
    LowestFirst(sorted);
    SameSegments(sorted, segments);
    SameFull(sorted, segments);
    hide Covered, Full, InHole, MinStart, MaxEnd, InOrder;
    CoverageDecides(stream, sorted, segments, MinStart(segments), MaxEnd(segments));
  }

  lemma LowestFirst(sorted: seq<Segment>)
    requires InOrder(sorted) && sorted != []
    ensures sorted[0].start == MinStart(sorted)
  {
  }

  lemma SameFull(a: seq<Segment>, b: seq<Segment>)
    requires multiset(a) == multiset(b)
    ensures Full(a) <==> Full(b)
  {
    SameMembers(a, b);
    SameMembers(b, a);
  }

  /** The result does not depend on arrival order or on duplicates: any two captures covering the
      same positions of the stream give the same bytes and, with no empty segment, the same holes. */
  lemma ArrivalOrderDoesNotMatter(stream: nat -> byte, a: seq<Segment>, b: seq<Segment>, dataA: Bytes, dataB: Bytes,
                                  holesA: seq<(nat, nat)>, holesB: seq<(nat, nat)>)
    requires a != [] && b != [] && MinStart(a) == MinStart(b) && MaxEnd(a) == MaxEnd(b)
    requires forall p: nat :: Covered(a, p) <==> Covered(b, p)
    requires Output(stream, a, MinStart(a), MaxEnd(a), dataA, holesA)
    requires Output(stream, b, MinStart(b), MaxEnd(b), dataB, holesB)
    ensures dataA == dataB
    ensures Full(a) && Full(b) ==> holesA == holesB
  {
    CoverageDecides(stream, a, b, MinStart(a), MaxEnd(a));
  }

  /** With every position covered there is no hole, and the output is the stream itself. */
  lemma {:induction false} CompleteCapture(stream: nat -> byte, segs: seq<Segment>, lo: nat, hi: nat)
    requires lo <= hi && forall p: nat :: lo <= p < hi ==> Covered(segs, p)
    ensures |Collect(stream, segs, lo, hi)| == hi - lo
    ensures forall k :: 0 <= k < hi - lo ==> Collect(stream, segs, lo, hi)[k] == stream(lo + k)
    ensures Gaps(segs, lo, hi) == []
  {
    if lo < hi {
      CompleteCapture(stream, segs, lo, hi - 1);
    }
  }
}

/** From payloads to frames to a capture and back: any arrival order, any duplication, mixed with frames going
    the other way. */
module RoundTrip {
  import opened Wrappers
  import opened BigEndian
  import opened Reassembly
  import opened TcpFrame
  import opened Capture

  /** The decoder's stream for the segments of a capture. */
  ghost function DataOf(segs: seq<Segment>): Bytes {
    if segs == [] then [] else Collect(Spelled(segs), segs, MinStart(segs), MaxEnd(segs))
  }

  ghost predicate Complete(segs: seq<Segment>) {
    segs != [] ==> forall p: nat :: MinStart(segs) <= p < MaxEnd(segs) ==> Covered(segs, p)
  }

  /** `reassemble` returns that stream, and no hole exactly for a complete capture. */
  method Stream(segs: seq<Segment>) returns (data: Bytes, holes: seq<(nat, nat)>)
    ensures data == DataOf(segs) && (holes == [] <==> Complete(segs))
  {
    hide Covered, Collect, Gaps, Full, Spelled, MinStart, MaxEnd;
    data, holes := Reassemble(segs);
    if segs != [] {
      HolesIffIncomplete(segs, data, holes);
    }
  }

  lemma HolesIffIncomplete(segs: seq<Segment>, data: Bytes, holes: seq<(nat, nat)>)
    requires segs != [] && Output(Spelled(segs), segs, MinStart(segs), MaxEnd(segs), data, holes)
    ensures holes == [] <==> Complete(segs)
  {
    hide Covered, Collect, Gaps, Full, Spelled, MinStart, MaxEnd;
    if holes != [] {
      var p := holes[0].0;
      assert InHole(holes, p);
    }
  }

  // ---- a stream cut into payloads ----

  /** The sequence number of payload `i` when the first is sent at `base`: each advances it by its length. */
  function SeqAt(base: nat, payloads: seq<Bytes>, i: nat): nat
    requires i <= |payloads|
  {
    base + Offset(payloads, i)
  }

  function SegAt(base: nat, payloads: seq<Bytes>, i: nat): Segment
    requires i < |payloads|
  {
    Segment(SeqAt(base, payloads, i), payloads[i])
  }

  /** One frame of a capture: payload `i` in a frame of either builder, or a frame going elsewhere. */
  datatype Item = Part(i: nat, ack: nat, ident: nat, padded: bool) | Elsewhere(f: Flow, n: Numbers, payload: Bytes)

  predicate Sound(f: Flow, base: nat, payloads: seq<Bytes>, it: Item) {
    match it
    case Part(i, ack, ident, _) =>
      i < |payloads| && Buildable(f, Numbers(SeqAt(base, payloads, i), ack, ident), payloads[i])
    case Elsewhere(g, n, p) => Buildable(g, n, p) && g.dstIp != f.dstIp
  }

  predicate AllSound(f: Flow, base: nat, payloads: seq<Bytes>, items: seq<Item>) {
    forall k :: 0 <= k < |items| ==> Sound(f, base, payloads, items[k])
  }

  function FrameOf(f: Flow, base: nat, payloads: seq<Bytes>, it: Item): Bytes
    requires Sound(f, base, payloads, it)
  {
    match it
    case Part(i, ack, ident, padded) =>
      var n := Numbers(SeqAt(base, payloads, i), ack, ident);
      if padded then ReplyFrame(f, n, payloads[i]) else OrderFrame(f, n, payloads[i])
    case Elsewhere(g, n, p) => OrderFrame(g, n, p)
  }

  function Frames(f: Flow, base: nat, payloads: seq<Bytes>, items: seq<Item>): seq<Bytes>
    requires AllSound(f, base, payloads, items)
  {
    if items == [] then []
    else Frames(f, base, payloads, items[..|items| - 1]) + [FrameOf(f, base, payloads, items[|items| - 1])]
  }

  ghost function Segments(base: nat, payloads: seq<Bytes>, items: seq<Item>): seq<Segment>
  {
    if items == [] then []
    else
      var front, it := Segments(base, payloads, items[..|items| - 1]), items[|items| - 1];
      if it.Part? && it.i < |payloads| then front + [SegAt(base, payloads, it.i)] else front
  }

  ghost predicate AllSent(payloads: seq<Bytes>) {
    forall i :: 0 <= i < |payloads| ==> payloads[i] != []
  }

  /** Extraction gives back the payloads with their sequence numbers, in capture order, and nothing else. */
  lemma {:induction false} InboundIsSegments(f: Flow, base: nat, payloads: seq<Bytes>, items: seq<Item>)
    requires AllSound(f, base, payloads, items) && AllSent(payloads)
    ensures Inbound(Frames(f, base, payloads, items), f.dstIp) == Some(Segments(base, payloads, items))
  {
    hide Extract, OrderFrame, ReplyFrame, SeqAt;
    if items != [] {
      var front, it := items[..|items| - 1], items[|items| - 1];
      assert Sound(f, base, payloads, it);
      InboundIsSegments(f, base, payloads, front);
      match it {
        case Part(i, ack, ident, padded) =>
          ExtractOfFrame(f, Numbers(SeqAt(base, payloads, i), ack, ident), payloads[i], f.dstIp);
        case Elsewhere(g, n, p) =>
          ExtractOfFrame(g, n, p, f.dstIp);
      }
      var fs := Frames(f, base, payloads, items);
      assert fs[..|fs| - 1] == Frames(f, base, payloads, front);
    }
  }

  /** The stream the payloads are cut from. */
  ghost function Source(base: nat, payloads: seq<Bytes>): nat -> byte {
    p => if base <= p < base + |Join(payloads)| then Join(payloads)[p - base] else 0
  }

  lemma SegIsSlice(base: nat, payloads: seq<Bytes>, i: nat)
    requires i < |payloads|
    ensures SliceOf(Source(base, payloads), SegAt(base, payloads, i))
    ensures base <= SeqAt(base, payloads, i) && End(SegAt(base, payloads, i)) == SeqAt(base, payloads, i + 1)
    ensures End(SegAt(base, payloads, i)) <= base + |Join(payloads)|
  {
    hide Join, Offset;
    FieldAt(payloads, i);
    var at, s := Offset(payloads, i), payloads[i];
    forall k | 0 <= k < |s|
      ensures s[k] == Join(payloads)[at + k]
    {
      assert Join(payloads)[at..at + |s|][k] == s[k];
    }
  }

  ghost predicate Arrives(items: seq<Item>, i: nat) {
    exists k :: 0 <= k < |items| && items[k].Part? && items[k].i == i
  }

  /** Each payload arrives at least once, in any order. */
  ghost predicate AllArrive(payloads: seq<Bytes>, items: seq<Item>) {
    forall i :: 0 <= i < |payloads| ==> Arrives(items, i)
  }

  lemma {:induction false} SegmentsAre(base: nat, payloads: seq<Bytes>, items: seq<Item>, j: nat)
    requires j < |Segments(base, payloads, items)|
    ensures exists i :: 0 <= i < |payloads| && Segments(base, payloads, items)[j] == SegAt(base, payloads, i)
  {
    if items != [] {
      var front := Segments(base, payloads, items[..|items| - 1]);
      if j < |front| {
        SegmentsAre(base, payloads, items[..|items| - 1], j);
      }
    }
  }

  lemma {:induction false} SegmentArrives(base: nat, payloads: seq<Bytes>, items: seq<Item>, k: nat)
    requires k < |items| && items[k].Part? && items[k].i < |payloads|
    ensures SegAt(base, payloads, items[k].i) in Segments(base, payloads, items)
  {
    if k < |items| - 1 {
      SegmentArrives(base, payloads, items[..|items| - 1], k);
    }
  }

  /** Every byte of the stream lies in some payload. */
  lemma {:induction false} FindPayload(base: nat, payloads: seq<Bytes>, k: nat, p: nat) returns (i: nat)
    requires k <= |payloads| && base <= p < SeqAt(base, payloads, k)
    ensures i < k && SeqAt(base, payloads, i) <= p < SeqAt(base, payloads, i + 1)
  {
    NextOffset(payloads, k - 1);
    if p < SeqAt(base, payloads, k - 1) {
      i := FindPayload(base, payloads, k - 1, p);
    } else {
      i := k - 1;
    }
  }

  lemma SegmentsAreSlices(base: nat, payloads: seq<Bytes>, items: seq<Item>)
    ensures Slices(Source(base, payloads), Segments(base, payloads, items))
    ensures forall j :: 0 <= j < |Segments(base, payloads, items)| ==>
      base <= Segments(base, payloads, items)[j].start
      && End(Segments(base, payloads, items)[j]) <= base + |Join(payloads)|
  {
    hide SliceOf, Source, Join, Segments, SeqAt;
    var segs := Segments(base, payloads, items);
    forall j | 0 <= j < |segs|
      ensures SliceOf(Source(base, payloads), segs[j]) && base <= segs[j].start && End(segs[j]) <= base + |Join(payloads)|
    {
      SegmentsAre(base, payloads, items, j);
      var i :| 0 <= i < |payloads| && segs[j] == SegAt(base, payloads, i);
      SegIsSlice(base, payloads, i);
    }
  }

  lemma ByteArrives(base: nat, payloads: seq<Bytes>, items: seq<Item>, p: nat)
    requires AllArrive(payloads, items) && base <= p < base + |Join(payloads)|
    ensures Covered(Segments(base, payloads, items), p)
  {
    hide Join, Segments, AllArrive, Arrives;
    Ends(payloads);
    var i := FindPayload(base, payloads, |payloads|, p);
    SegIsSlice(base, payloads, i);
    PayloadArrives(base, payloads, items, i);
    var segs := Segments(base, payloads, items);
    var j :| 0 <= j < |segs| && segs[j] == SegAt(base, payloads, i);
  }

  lemma PayloadArrives(base: nat, payloads: seq<Bytes>, items: seq<Item>, i: nat)
    requires AllArrive(payloads, items) && i < |payloads|
    ensures SegAt(base, payloads, i) in Segments(base, payloads, items)
  {
    hide SegAt, Segments;
    assert Arrives(items, i);
    var k :| 0 <= k < |items| && items[k].Part? && items[k].i == i;
    SegmentArrives(base, payloads, items, k);
  }

  lemma Extent(base: nat, total: nat, segs: seq<Segment>)
    requires forall j :: 0 <= j < |segs| ==> base <= segs[j].start && End(segs[j]) <= base + total
    requires forall p: nat :: base <= p < base + total ==> Covered(segs, p)
    requires 0 < total
    ensures segs != [] && MinStart(segs) == base && MaxEnd(segs) == base + total
  {
    assert Covered(segs, base) && Covered(segs, base + total - 1);
    var i :| 0 <= i < |segs| && segs[i].start <= base < End(segs[i]);
    var j :| 0 <= j < |segs| && segs[j].start <= base + total - 1 < End(segs[j]);
  }

  lemma {:induction false} JoinNotEmpty(payloads: seq<Bytes>)
    requires AllSent(payloads) && payloads != []
    ensures Join(payloads) != []
  {
    assert payloads[|payloads| - 1] != [];
  }

  /** The reassembled capture is the payloads joined in sending order, with no hole, whatever the arrival order,
      the duplicates and the frames going elsewhere. */
  lemma CaptureIsSource(base: nat, payloads: seq<Bytes>, items: seq<Item>)
    requires AllSent(payloads) && AllArrive(payloads, items)
    ensures DataOf(Segments(base, payloads, items)) == Join(payloads)
    ensures Complete(Segments(base, payloads, items))
  {
    if payloads == [] {
      NoSegments(base, payloads, items);
      NothingJoined();
    } else {
      hide Covered, Segments, Slices, Source, Join, AllArrive, AllSent, DataOf, MinStart, MaxEnd;
      JoinNotEmpty(payloads);
      SegmentsAreSlices(base, payloads, items);
      AllBytesArrive(base, payloads, items);
      SourceReads(base, payloads);
      Extent(base, |Join(payloads)|, Segments(base, payloads, items));
      DataIsSource(base, Join(payloads), Source(base, payloads), Segments(base, payloads, items));
    }
  }

  lemma SourceReads(base: nat, payloads: seq<Bytes>)
    ensures forall k :: 0 <= k < |Join(payloads)| ==> Join(payloads)[k] == Source(base, payloads)(base + k)
  {
    hide Join;
  }

  lemma NothingJoined()
    ensures Join([]) == [] && DataOf([]) == []
  {
  }

  lemma AllBytesArrive(base: nat, payloads: seq<Bytes>, items: seq<Item>)
    requires AllArrive(payloads, items)
    ensures forall p: nat :: base <= p < base + |Join(payloads)| ==> Covered(Segments(base, payloads, items), p)
  {
    hide Covered, Segments, Join, AllArrive;
    forall p: nat | base <= p < base + |Join(payloads)|
      ensures Covered(Segments(base, payloads, items), p)
    {
      ByteArrives(base, payloads, items, p);
    }
  }

  lemma {:induction false} NoSegments(base: nat, payloads: seq<Bytes>, items: seq<Item>)
    requires payloads == []
    ensures Segments(base, payloads, items) == []
  {
    if items != [] {
      NoSegments(base, payloads, items[..|items| - 1]);
    }
  }

  lemma DataIsSource(base: nat, data: Bytes, stream: nat -> byte, segs: seq<Segment>)
    requires segs != [] && MinStart(segs) == base && MaxEnd(segs) == base + |data| && Slices(stream, segs)
    requires forall p: nat :: base <= p < base + |data| ==> Covered(segs, p)
    requires forall k :: 0 <= k < |data| ==> data[k] == stream(base + k)
    ensures DataOf(segs) == data
  {
    hide Covered, Slices, Collect, Spelled, MinStart, MaxEnd;
    forall p: nat | base <= p < base + |data| && Covered(segs, p)
      ensures Spelled(segs)(p) == stream(p)
    {
      SpelledByStream(stream, segs, p);
    }
    SameBytes(Spelled(segs), stream, segs, base, base + |data|);
    CompleteCapture(stream, segs, base, base + |data|);
  }
}

/** What the risk gate and the edge detector guarantee over every run of the strategy. */
module StrategySafety {
  import opened MinMax
  import opened Strategy

  // ---- position ----

  /** Quantity bought less quantity sold. */
  function Position(out: seq<Order>): int {
    if out == [] then 0
    else
      var o := out[|out| - 1];
      Position(out[..|out| - 1]) + if o.buy then o.qty else -o.qty
  }

  ghost predicate Bounded(p: Params, s: State) {
    && s.pos == Position(s.out) && (s.out != [] ==> -p.posLimit <= s.pos <= p.posLimit)
    && forall i :: 0 <= i < |s.out| ==> 0 < s.out[i].qty < OUCH_MAX_SHARES && s.out[i].qty <= p.orderQty
  }

  lemma GateBounded(p: Params, s: State, ts: int, buy: bool, qty: int, px: int)
    requires Bounded(p, s) && qty <= p.orderQty
    ensures Bounded(p, Gate(p, s, ts, buy, qty, px))
  {
    var t := Gate(p, s, ts, buy, qty, px);
    if t != s {
      assert t.out[..|s.out|] == s.out;
    }
  }

  lemma StepBounded(p: Params, s: State, e: Event)
    requires Bounded(p, s)
    ensures Bounded(p, Step(p, s, e))
  {
    hide Gate, Position, Signal;
    match e
    case Bbo(ts, q) =>
      assert Bounded(p, Note(p, s, q));
      GateBounded(p, Note(p, s, q), ts, true, Min(p.orderQty, q.askQty), q.askPx);
      GateBounded(p, Note(p, s, q), ts, false, Min(p.orderQty, q.bidQty), q.bidPx);
    case Sweep(ts, buy) =>
      GateBounded(p, s, ts, true, Min(p.orderQty, s.held.askQty), s.held.askPx);
      GateBounded(p, s, ts, false, Min(p.orderQty, s.held.bidQty), s.held.bidPx);
  }

  /** For every parameter and every stream: the position is the signed sum of the orders emitted, never past the
      limit on either side, and each order's size is valid and no larger than configured. */
  lemma {:induction false} PositionBounded(p: Params, es: seq<Event>)
    ensures Bounded(p, After(p, es))
    ensures 0 <= p.posLimit ==> -p.posLimit <= After(p, es).pos <= p.posLimit
  {
    if es != [] {
      PositionBounded(p, es[..|es| - 1]);
      StepBounded(p, After(p, es[..|es| - 1]), es[|es| - 1]);
    }
  }

  // ---- orders in flight ----

  /** The record each order was sent in. */
  function Sent(p: Params, es: seq<Event>): seq<int> {
    if es == [] then []
    else
      var front := es[..|es| - 1];
      Sent(p, front) + if |After(p, es).out| > |After(p, front).out| then [After(p, es).rec] else []
  }

  /** Orders sent in the records after `lo` up to `hi`. */
  function CountIn(sent: seq<int>, lo: int, hi: int): nat {
    if sent == [] then 0
    else CountIn(sent[..|sent| - 1], lo, hi) + if lo < sent[|sent| - 1] <= hi then 1 else 0
  }

  lemma CountSnoc(sent: seq<int>, r: int, lo: int, hi: int)
    ensures CountIn(sent + [r], lo, hi) == CountIn(sent, lo, hi) + if lo < r <= hi then 1 else 0
  {
    assert (sent + [r])[..|sent|] == sent;
  }

  lemma {:induction false} CountJoin(sent: seq<int>, lo: int, mid: int, hi: int)
    requires lo <= mid <= hi
    ensures CountIn(sent, lo, mid) + CountIn(sent, mid, hi) == CountIn(sent, lo, hi)
  {
    if sent != [] {
      CountJoin(sent[..|sent| - 1], lo, mid, hi);
    }
  }

  predicate UpTo(sent: seq<int>, rec: int) {
    forall i :: 0 <= i < |sent| ==> sent[i] <= rec
  }

  lemma {:induction false} CountPast(sent: seq<int>, rec: int, hi: int)
    requires UpTo(sent, rec)
    ensures CountIn(sent, rec, hi) == 0
  {
    if sent != [] {
      CountPast(sent[..|sent| - 1], rec, hi);
    }
  }

  /** The scheduled acknowledgements are those of the orders sent in the last `ackGap` records, each due that many
      records after its order. */
  ghost predicate Scheduled(p: Params, acks: map<int, int>, rec: int, sent: seq<int>) {
    && (forall k :: k in acks ==> rec < k <= rec + p.ackGap)
    && (forall k :: rec < k <= rec + p.ackGap ==> Get(acks, k) == CountIn(sent, k - p.ackGap - 1, k - p.ackGap))
  }

  /** No more than the limit in any `ackGap` consecutive records. */
  ghost predicate Paced(p: Params, sent: seq<int>) {
    forall lo: int :: PacedFrom(p, sent, lo)
  }

  predicate PacedFrom(p: Params, sent: seq<int>, lo: int) {
    CountIn(sent, lo, lo + p.ackGap) <= if p.maxInflight < 0 then 0 else p.maxInflight
  }

  ghost predicate Flow(p: Params, s: State, sent: seq<int>) {
    && UpTo(sent, s.rec) && |sent| == |s.out|
    && s.inflight == CountIn(sent, s.rec - p.ackGap, s.rec)
    && Scheduled(p, s.acks, s.rec, sent) && Paced(p, sent)
  }

  lemma SendScheduled(p: Params, acks: map<int, int>, rec: int, sent: seq<int>)
    requires 1 <= p.ackGap && Scheduled(p, acks, rec, sent) && UpTo(sent, rec)
    ensures Scheduled(p, acks[rec + p.ackGap := Get(acks, rec + p.ackGap) + 1], rec, sent + [rec])
  {
    var more := acks[rec + p.ackGap := Get(acks, rec + p.ackGap) + 1];
    forall k | rec < k <= rec + p.ackGap
      ensures Get(more, k) == CountIn(sent + [rec], k - p.ackGap - 1, k - p.ackGap)
    {
      CountSnoc(sent, rec, k - p.ackGap - 1, k - p.ackGap);
      assert Get(acks, k) == CountIn(sent, k - p.ackGap - 1, k - p.ackGap);
    }
  }

  /** A window that holds the new order holds no order already acknowledged. */
  lemma SendPaced(p: Params, rec: int, sent: seq<int>)
    requires 1 <= p.ackGap && Paced(p, sent) && UpTo(sent, rec) && CountIn(sent, rec - p.ackGap, rec) < p.maxInflight
    ensures Paced(p, sent + [rec])
  {
    forall lo: int
      ensures PacedFrom(p, sent + [rec], lo)
    {
      assert PacedFrom(p, sent, lo);
      CountSnoc(sent, rec, lo, lo + p.ackGap);
      if lo < rec <= lo + p.ackGap {
        CountJoin(sent, lo, rec, lo + p.ackGap);
        CountPast(sent, rec, lo + p.ackGap);
        CountJoin(sent, rec - p.ackGap, lo, rec);
      }
    }
  }

  lemma GateFlows(p: Params, s: State, ts: int, buy: bool, qty: int, px: int, sent: seq<int>)
    requires 1 <= p.ackGap && Flow(p, s, sent)
    ensures Flow(p, Gate(p, s, ts, buy, qty, px),
                 sent + if |Gate(p, s, ts, buy, qty, px).out| > |s.out| then [s.rec] else [])
    ensures Gate(p, s, ts, buy, qty, px).rec == s.rec
  {
    hide Scheduled, Paced, CountIn;
    if Passes(p, s, buy, qty) {
      SendScheduled(p, s.acks, s.rec, sent);
      SendPaced(p, s.rec, sent);
      CountSnoc(sent, s.rec, s.rec - p.ackGap, s.rec);
    } else {
      assert sent + [] == sent;
    }
  }

  lemma NoteFlows(p: Params, s: State, q: Quote, sent: seq<int>)
    requires 1 <= p.ackGap && Flow(p, s, sent)
    ensures Flow(p, Note(p, s, q), sent)
  {
    hide Paced, CountIn, Signal;
    var g, r := p.ackGap, s.rec;
    CountJoin(sent, r - g, r + 1 - g, r + 1);
    CountJoin(sent, r - g, r, r + 1);
    CountPast(sent, r, r + 1);
    assert Get(s.acks, r + 1) == CountIn(sent, r - g, r + 1 - g);
    var acks := s.acks - {r + 1};
    forall k | r + 1 < k <= r + 1 + g
      ensures Get(acks, k) == CountIn(sent, k - g - 1, k - g)
    {
      if k <= r + g {
        assert Get(s.acks, k) == CountIn(sent, k - g - 1, k - g);
      } else {
        assert CountIn(sent, k - g - 1, k - g) == CountIn(sent, r, r + 1);
      }
    }
  }

  lemma StepFlows(p: Params, s: State, e: Event, sent: seq<int>)
    requires 1 <= p.ackGap && Flow(p, s, sent)
    ensures Flow(p, Step(p, s, e), sent + if |Step(p, s, e).out| > |s.out| then [Step(p, s, e).rec] else [])
  {
    hide Gate, Signal, Flow;
    assert sent + [] == sent;
    match e
    case Bbo(ts, q) =>
      var t := Note(p, s, q);
      NoteFlows(p, s, q, sent);
      GateFlows(p, t, ts, true, Min(p.orderQty, q.askQty), q.askPx, sent);
      GateFlows(p, t, ts, false, Min(p.orderQty, q.bidQty), q.bidPx, sent);
    case Sweep(ts, buy) =>
      GateFlows(p, s, ts, true, Min(p.orderQty, s.held.askQty), s.held.askPx, sent);
      GateFlows(p, s, ts, false, Min(p.orderQty, s.held.bidQty), s.held.bidPx, sent);
  }

  /** For every stream, with acknowledgements at least one record later: orders in flight are exactly those sent in
      the last `ackGap` records, the acknowledgements still scheduled are theirs, each due `ackGap` records after its
      order, and no `ackGap` consecutive records hold more orders than the limit. */
  lemma {:induction false} FlowHolds(p: Params, es: seq<Event>)
    requires 1 <= p.ackGap
    ensures Flow(p, After(p, es), Sent(p, es))
  {
    if es == [] {
      forall lo: int
        ensures PacedFrom(p, [], lo)
      {
      }
    } else {
      FlowHolds(p, es[..|es| - 1]);
      hide Flow, Step;
      StepFlows(p, After(p, es[..|es| - 1]), es[|es| - 1], Sent(p, es[..|es| - 1]));
    }
  }

  /** Acknowledgements scheduled in the records after `lo` up to `hi`. */
  function Due(acks: map<int, int>, lo: int, hi: int): int
    decreases hi - lo
  {
    if hi <= lo then 0 else Due(acks, lo, hi - 1) + Get(acks, hi)
  }

  lemma {:induction false} DueIsCount(p: Params, acks: map<int, int>, rec: int, sent: seq<int>, hi: int)
    requires Scheduled(p, acks, rec, sent) && rec <= hi <= rec + p.ackGap
    ensures Due(acks, rec, hi) == CountIn(sent, rec - p.ackGap, hi - p.ackGap)
    decreases hi - rec
  {
    hide Scheduled, CountIn;
    if rec < hi {
      DueIsCount(p, acks, rec, sent, hi - 1);
      DueAt(p, acks, rec, sent, hi);
      CountJoin(sent, rec - p.ackGap, hi - 1 - p.ackGap, hi - p.ackGap);
    } else {
      CountEmpty(sent, rec - p.ackGap);
    }
  }

  lemma DueAt(p: Params, acks: map<int, int>, rec: int, sent: seq<int>, k: int)
    requires Scheduled(p, acks, rec, sent) && rec < k <= rec + p.ackGap
    ensures Get(acks, k) == CountIn(sent, k - p.ackGap - 1, k - p.ackGap)
  {
  }

  lemma {:induction false} CountEmpty(sent: seq<int>, k: int)
    ensures CountIn(sent, k, k) == 0
  {
    if sent != [] {
      CountEmpty(sent[..|sent| - 1], k);
    }
  }

  /** The in-flight counter is the number of acknowledgements still scheduled, between zero and the limit. */
  lemma InflightIsScheduled(p: Params, es: seq<Event>)
    requires 1 <= p.ackGap
    ensures var s := After(p, es);
      && s.inflight == Due(s.acks, s.rec, s.rec + p.ackGap)
      && (forall k :: k in s.acks ==> s.rec < k <= s.rec + p.ackGap)
      && 0 <= s.inflight <= if p.maxInflight < 0 then 0 else p.maxInflight
  {
    FlowHolds(p, es);
    hide After, CountIn, Due;
    var s := After(p, es);
    DueIsCount(p, s.acks, s.rec, Sent(p, es), s.rec + p.ackGap);
    assert PacedFrom(p, Sent(p, es), s.rec - p.ackGap);
  }
}

/** The backlog simulation: one wire feeding single-server queues. Completion times, waits and
    what is in flight, as functions of the arrivals so far; and the simulator's state. */
module Backlog {
  import opened MinMax

  /** A message is available at `avail` and needs `srv` of the server. */
  datatype Arrival = Arrival(avail: nat, ts: nat, len: nat, srv: nat)

  datatype Pending = Pending(done: nat, len: nat)

  /** When the server finishes the last arrival: it starts when both are ready. */
  ghost function Done(tr: seq<Arrival>): nat {
    if tr == [] then 0 else Max(Done(tr[..|tr| - 1]), tr[|tr| - 1].avail) + tr[|tr| - 1].srv
  }

  /** How long the last arrival queues. */
  ghost function Wait(tr: seq<Arrival>): nat
    requires tr != []
  {
    Max(Done(tr[..|tr| - 1]), tr[|tr| - 1].avail) - tr[|tr| - 1].avail
  }

  /** Service demanded by the arrivals from `i` on. */
  ghost function Work(tr: seq<Arrival>, i: nat): nat
    requires i <= |tr|
  {
    if i == |tr| then 0 else Work(tr[..|tr| - 1], i) + tr[|tr| - 1].srv
  }

  /** Lindley's closed form: the server is done at the largest, over the arrivals so far, of the
      arrival's time plus all service demanded from it on. */
  lemma {:induction false} DoneClosedForm(tr: seq<Arrival>)
    ensures forall i :: 0 <= i < |tr| ==> tr[i].avail + Work(tr, i) <= Done(tr)
    ensures tr != [] ==> exists i :: 0 <= i < |tr| && tr[i].avail + Work(tr, i) == Done(tr)
  {
    if tr != [] {
      var front, last := tr[..|tr| - 1], tr[|tr| - 1];
      DoneClosedForm(front);
      assert Work(tr, |front|) == last.srv;
      forall i | 0 <= i < |front|
        ensures Work(tr, i) == Work(front, i) + last.srv && tr[i] == front[i]
      {
      }
      if Done(front) <= last.avail {
        assert tr[|front|].avail + Work(tr, |front|) == Done(tr);
      } else {
        var i :| 0 <= i < |front| && front[i].avail + Work(front, i) == Done(front);
        assert tr[i].avail + Work(tr, i) == Done(tr);
      }
    }
  }

  /** So a message's wait is the largest backlog any earlier arrival leaves, or zero. */
  lemma WaitClosedForm(tr: seq<Arrival>)
    requires tr != []
    ensures var front, now := tr[..|tr| - 1], tr[|tr| - 1].avail;
      && (forall i :: 0 <= i < |front| ==> front[i].avail + Work(front, i) - now <= Wait(tr))
      && (Wait(tr) == 0 || exists i :: 0 <= i < |front| && front[i].avail + Work(front, i) - now == Wait(tr))
  {
    DoneClosedForm(tr[..|tr| - 1]);
  }

  /** The arrivals of `tr` still unfinished at time `t`, in order. */
  ghost function NotDone(tr: seq<Arrival>, t: nat): seq<Pending> {
    if tr == [] then []
    else NotDone(tr[..|tr| - 1], t) + if Done(tr) > t then [Pending(Done(tr), tr[|tr| - 1].len)] else []
  }

  ghost predicate Ordered(tr: seq<Arrival>) {
    forall i, j :: 0 <= i < j < |tr| ==> tr[i].avail <= tr[j].avail
  }

  ghost function Bytes(q: seq<Pending>): nat {
    if q == [] then 0 else q[0].len + Bytes(q[1..])
  }

  lemma {:induction false} BytesSnoc(q: seq<Pending>, x: Pending)
    ensures Bytes(q + [x]) == Bytes(q) + x.len
  {
    if q == [] {
      assert [x][1..] == [];
      assert q + [x] == [x];
    } else {
      assert (q + [x])[1..] == q[1..] + [x];
      BytesSnoc(q[1..], x);
    }
  }

  /** Drop finished messages from the front. */
  ghost function Drain(q: seq<Pending>, t: nat): seq<Pending> {
    if q != [] && q[0].done <= t then Drain(q[1..], t) else q
  }

  lemma {:induction false} DrainSnoc(q: seq<Pending>, x: Pending, t: nat)
    requires Drain(q, t) != [] ==> x.done > t
    ensures Drain(q + [x], t) == Drain(q, t) + if x.done > t then [x] else []
  {
    if q != [] && q[0].done <= t {
      assert (q + [x])[1..] == q[1..] + [x];
      DrainSnoc(q[1..], x, t);
    } else if q == [] {
      assert q + [x] == [x];
      assert [x][1..] == [];
    }
  }

  lemma {:induction false} StillBusy(tr: seq<Arrival>, t: nat)
    requires NotDone(tr, t) != []
    ensures Done(tr) > t
  {
    if Done(tr) <= t {
      StillBusy(tr[..|tr| - 1], t);
    }
  }

  /** Popping only from the front finds every finished message, because they finish in order. */
  lemma {:induction false} DrainKeepsNotDone(tr: seq<Arrival>, t: nat, t': nat)
    requires t <= t'
    ensures Drain(NotDone(tr, t), t') == NotDone(tr, t')
  {
    if tr != [] {
      var front := tr[..|tr| - 1];
      DrainKeepsNotDone(front, t, t');
      if NotDone(front, t') != [] {
        StillBusy(front, t');
      }
      if Done(tr) > t {
        DrainSnoc(NotDone(front, t), Pending(Done(tr), tr[|tr| - 1].len), t');
      } else {
        assert NotDone(tr, t) == NotDone(front, t);
      }
    }
  }

  /** The simulator: busy-until time, ring contents, and the reported extremes. */
  datatype Sim = Sim(done: nat, queue: seq<Pending>, overflow: nat, drops: nat,
                     maxWait: nat, maxWaitTs: nat, maxMsgs: nat, maxTs: nat, maxBytes: nat)

  ghost function Feed(s: Sim, a: Arrival, cap: nat, fifo: nat): Sim {
    var drained := Drain(s.queue, a.avail);
    var start := Max(s.done, a.avail);
    var wait := start - a.avail;
    var full := |drained| >= cap;
    var queue := if full then drained else drained + [Pending(start + a.srv, a.len)];
    Sim(start + a.srv, queue,
        if full then s.overflow + 1 else s.overflow,
        if |queue| > fifo then s.drops + 1 else s.drops,
        Max(s.maxWait, wait), if wait > s.maxWait then a.ts else s.maxWaitTs,
        Max(s.maxMsgs, |queue|), if |queue| > s.maxMsgs then a.ts else s.maxTs,
        Max(s.maxBytes, Bytes(queue)))
  }

  ghost function After(tr: seq<Arrival>, cap: nat, fifo: nat): Sim {
    if tr == [] then Sim(0, [], 0, 0, 0, 0, 0, 0, 0)
    else Feed(After(tr[..|tr| - 1], cap, fifo), tr[|tr| - 1], cap, fifo)
  }

  /** Everything the last arrival finds unfinished, and itself. */
  ghost function InFlight(tr: seq<Arrival>): seq<Pending> {
    if tr == [] then []
    else NotDone(tr[..|tr| - 1], tr[|tr| - 1].avail) + [Pending(Done(tr), tr[|tr| - 1].len)]
  }

  /** While the ring has not overflowed it holds exactly the messages in flight. */
  lemma {:induction false} RingHoldsInFlight(tr: seq<Arrival>, cap: nat, fifo: nat)
    requires Ordered(tr)
    ensures After(tr, cap, fifo).done == Done(tr)
    ensures After(tr, cap, fifo).overflow == 0 ==> After(tr, cap, fifo).queue == InFlight(tr)
    ensures tr != [] && After(tr, cap, fifo).overflow == 0 ==>
      Drain(After(tr[..|tr| - 1], cap, fifo).queue, tr[|tr| - 1].avail) == NotDone(tr[..|tr| - 1], tr[|tr| - 1].avail)
  {
    if tr != [] {
      var front, last := tr[..|tr| - 1], tr[|tr| - 1];
      RingHoldsInFlight(front, cap, fifo);
      DrainsToNotDone(front, last.avail);
    }
  }

  lemma DrainsToNotDone(tr: seq<Arrival>, t: nat)
    requires tr != [] ==> tr[|tr| - 1].avail <= t
    ensures Drain(InFlight(tr), t) == NotDone(tr, t)
  {
    if tr != [] {
      var front, last := tr[..|tr| - 1], tr[|tr| - 1];
      DrainKeepsNotDone(front, last.avail, t);
      if NotDone(front, t) != [] {
        StillBusy(front, t);
      }
      DrainSnoc(NotDone(front, last.avail), Pending(Done(tr), last.len), t);
    }
  }

  lemma OverflowGrows(s: Sim, a: Arrival, cap: nat, fifo: nat)
    ensures s.overflow <= Feed(s, a, cap, fifo).overflow
  {
  }

  /** The reported worst wait is the largest of all waits. */
  lemma {:induction false} MaxWaitBounds(tr: seq<Arrival>, cap: nat, fifo: nat, k: nat)
    requires Ordered(tr) && 0 < k <= |tr|
    ensures Wait(tr[..k]) <= After(tr, cap, fifo).maxWait
  {
    RingHoldsInFlight(tr[..|tr| - 1], cap, fifo);
    if k == |tr| {
      assert tr[..k] == tr;
    } else {
      assert tr[..k] == tr[..|tr| - 1][..k];
      MaxWaitBounds(tr[..|tr| - 1], cap, fifo, k);
    }
  }

  lemma {:induction false} MaxWaitIsReached(tr: seq<Arrival>, cap: nat, fifo: nat) returns (k: nat)
    requires Ordered(tr) && After(tr, cap, fifo).maxWait > 0
    ensures 0 < k <= |tr| && Wait(tr[..k]) == After(tr, cap, fifo).maxWait
    ensures tr[k - 1].ts == After(tr, cap, fifo).maxWaitTs
  {
    var front := tr[..|tr| - 1];
    RingHoldsInFlight(front, cap, fifo);
    if After(tr, cap, fifo).maxWait == After(front, cap, fifo).maxWait {
      k := MaxWaitIsReached(front, cap, fifo);
      assert tr[..k] == front[..k];
    } else {
      k := |tr|;
      assert tr[..k] == tr;
    }
  }

  /** The same arrivals at a server that is never slower. */
  ghost predicate Faster(slow: seq<Arrival>, fast: seq<Arrival>) {
    && |slow| == |fast|
    && forall i :: 0 <= i < |slow| ==>
      fast[i].avail == slow[i].avail && fast[i].len == slow[i].len && fast[i].srv <= slow[i].srv
  }

  lemma {:induction false} FasterIsDoneSooner(slow: seq<Arrival>, fast: seq<Arrival>, t: nat)
    requires Faster(slow, fast)
    ensures Done(fast) <= Done(slow)
    ensures slow != [] ==> Wait(fast) <= Wait(slow)
    ensures |NotDone(fast, t)| <= |NotDone(slow, t)| && Bytes(NotDone(fast, t)) <= Bytes(NotDone(slow, t))
  {
    if slow != [] {
      var s, f := NotDone(slow[..|slow| - 1], t), NotDone(fast[..|fast| - 1], t);
      FasterIsDoneSooner(slow[..|slow| - 1], fast[..|fast| - 1], t);
      BytesSnoc(s, Pending(Done(slow), slow[|slow| - 1].len));
      BytesSnoc(f, Pending(Done(fast), fast[|fast| - 1].len));
      assert s + [] == s && f + [] == f;
    }
  }

  /** What an arrival finds unfinished at either server decides the two rings' next state. */
  lemma FeedCompared(s: Sim, f: Sim, a: Arrival, b: Arrival, cap: nat, fifo: nat)
    requires a.avail == b.avail && a.len == b.len && b.srv <= a.srv && f.done <= s.done
    requires |Drain(f.queue, a.avail)| <= |Drain(s.queue, a.avail)|
    requires Bytes(Drain(f.queue, a.avail)) <= Bytes(Drain(s.queue, a.avail))
    requires f.overflow == 0 && Feed(s, a, cap, fifo).overflow == 0
    requires f.drops <= s.drops && f.maxWait <= s.maxWait && f.maxMsgs <= s.maxMsgs && f.maxBytes <= s.maxBytes
    ensures Feed(f, b, cap, fifo).overflow == 0 && Feed(f, b, cap, fifo).drops <= Feed(s, a, cap, fifo).drops
    ensures Feed(f, b, cap, fifo).maxWait <= Feed(s, a, cap, fifo).maxWait
    ensures Feed(f, b, cap, fifo).maxMsgs <= Feed(s, a, cap, fifo).maxMsgs
    ensures Feed(f, b, cap, fifo).maxBytes <= Feed(s, a, cap, fifo).maxBytes
    ensures |Feed(f, b, cap, fifo).queue| <= |Feed(s, a, cap, fifo).queue|
    ensures Bytes(Feed(f, b, cap, fifo).queue) <= Bytes(Feed(s, a, cap, fifo).queue)
  {
    BytesSnoc(Drain(s.queue, a.avail), Pending(Max(s.done, a.avail) + a.srv, a.len));
    BytesSnoc(Drain(f.queue, a.avail), Pending(Max(f.done, a.avail) + b.srv, b.len));
  }

  /** On any trace that does not overflow the slower server's ring, the faster one does not overflow its own: after
      every message its wait, its queue in messages and bytes, and every reported figure are no larger. */
  lemma {:induction false} FasterIsNeverWorse(slow: seq<Arrival>, fast: seq<Arrival>, cap: nat, fifo: nat)
    requires Faster(slow, fast) && Ordered(slow)
    requires After(slow, cap, fifo).overflow == 0
    ensures After(fast, cap, fifo).overflow == 0
    ensures After(fast, cap, fifo).drops <= After(slow, cap, fifo).drops
    ensures After(fast, cap, fifo).maxWait <= After(slow, cap, fifo).maxWait
    ensures After(fast, cap, fifo).maxMsgs <= After(slow, cap, fifo).maxMsgs
    ensures After(fast, cap, fifo).maxBytes <= After(slow, cap, fifo).maxBytes
    ensures |After(fast, cap, fifo).queue| <= |After(slow, cap, fifo).queue|
    ensures Bytes(After(fast, cap, fifo).queue) <= Bytes(After(slow, cap, fifo).queue)
    ensures slow != [] ==> Wait(fast) <= Wait(slow)
  {
    FasterIsDoneSooner(slow, fast, 0);
    if slow != [] {
      var sf, ff, now := slow[..|slow| - 1], fast[..|fast| - 1], slow[|slow| - 1].avail;
      OverflowGrows(After(sf, cap, fifo), slow[|slow| - 1], cap, fifo);
      FasterIsNeverWorse(sf, ff, cap, fifo);
      RingHoldsInFlight(sf, cap, fifo);
      RingHoldsInFlight(ff, cap, fifo);
      DrainsToNotDone(sf, now);
      DrainsToNotDone(ff, now);
      FasterIsDoneSooner(sf, ff, now);
      hide Feed;
      FeedCompared(After(sf, cap, fifo), After(ff, cap, fifo), slow[|slow| - 1], fast[|fast| - 1], cap, fifo);
    }
  }
}

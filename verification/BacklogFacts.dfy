/** What the figures a backlog run reports are, message by message, and what feeds its servers. */
module BacklogFacts {
  import opened Backlog
  import opened BacklogSim

  /** Draining takes off a front of finished messages and stops at the first that is not. */
  lemma {:induction false} DrainIs(q: seq<Pending>, t: nat) returns (k: nat)
    ensures k <= |q| && Drain(q, t) == q[k..]
    ensures (forall i :: 0 <= i < k ==> q[i].done <= t) && (k < |q| ==> q[k].done > t)
  {
    if q != [] && q[0].done <= t {
      k := DrainIs(q[1..], t);
      assert q[1..][k..] == q[k + 1..];
      forall i | 0 <= i < k + 1
        ensures q[i].done <= t
      {
        assert i > 0 ==> q[i] == q[1..][i - 1];
      }
      k := k + 1;
    } else {
      k := 0;
    }
  }

  /** The queue after message `k`, counted from one. */
  ghost function QueueAt(tr: seq<Arrival>, cap: nat, fifo: nat, k: nat): seq<Pending>
    requires k <= |tr|
  {
    After(tr[..k], cap, fifo).queue
  }

  lemma {:induction false} DoneIs(tr: seq<Arrival>, cap: nat, fifo: nat)
    ensures After(tr, cap, fifo).done == Done(tr)
  {
    if tr != [] {
      DoneIs(tr[..|tr| - 1], cap, fifo);
    }
  }

  /** A message joins what it finds unfinished, with its own completion time and length, unless the ring is full. */
  lemma QueueNext(tr: seq<Arrival>, cap: nat, fifo: nat, k: nat)
    requires k < |tr|
    ensures var found := Drain(QueueAt(tr, cap, fifo, k), tr[k].avail);
      QueueAt(tr, cap, fifo, k + 1)
      == if |found| >= cap then found else found + [Pending(Done(tr[..k + 1]), tr[k].len)]
  {
    hide Drain, Done;
    assert tr[..k + 1][..k] == tr[..k];
    DoneIs(tr[..k + 1], cap, fifo);
  }

  /** The reported backlogs bound the queue after every message. */
  lemma {:induction false} MaxBacklogBounds(tr: seq<Arrival>, cap: nat, fifo: nat, k: nat)
    requires k <= |tr|
    ensures |QueueAt(tr, cap, fifo, k)| <= After(tr, cap, fifo).maxMsgs
    ensures Bytes(QueueAt(tr, cap, fifo, k)) <= After(tr, cap, fifo).maxBytes
  {
    hide Drain;
    if k == |tr| {
      assert tr[..k] == tr;
    } else {
      assert tr[..k] == tr[..|tr| - 1][..k];
      MaxBacklogBounds(tr[..|tr| - 1], cap, fifo, k);
    }
  }

  /** The most messages were waiting after some message, whose timestamp is reported. */
  lemma {:induction false} MaxMsgsIsReached(tr: seq<Arrival>, cap: nat, fifo: nat) returns (k: nat)
    requires After(tr, cap, fifo).maxMsgs > 0
    ensures 0 < k <= |tr| && |QueueAt(tr, cap, fifo, k)| == After(tr, cap, fifo).maxMsgs
    ensures tr[k - 1].ts == After(tr, cap, fifo).maxTs
  {
    hide Drain;
    var front := tr[..|tr| - 1];
    if After(tr, cap, fifo).maxMsgs == After(front, cap, fifo).maxMsgs {
      k := MaxMsgsIsReached(front, cap, fifo);
      assert tr[..k] == front[..k];
    } else {
      k := |tr|;
      assert tr[..k] == tr;
    }
  }

  /** So were the most bytes. */
  lemma {:induction false} MaxBytesIsReached(tr: seq<Arrival>, cap: nat, fifo: nat) returns (k: nat)
    ensures k <= |tr| && Bytes(QueueAt(tr, cap, fifo, k)) == After(tr, cap, fifo).maxBytes
  {
    hide Drain;
    if tr == [] {
      k := 0;
    } else {
      var front := tr[..|tr| - 1];
      if After(tr, cap, fifo).maxBytes == After(front, cap, fifo).maxBytes {
        k := MaxBytesIsReached(front, cap, fifo);
        assert tr[..k] == front[..k];
      } else {
        k := |tr|;
        assert tr[..k] == tr;
      }
    }
  }

  /** The messages after which more are waiting than the FIFO holds. */
  ghost function Spills(tr: seq<Arrival>, cap: nat, fifo: nat): set<nat> {
    set k | 0 < k <= |tr| && |QueueAt(tr, cap, fifo, k)| > fifo
  }

  /** The messages that find the ring full once the finished ones have left. */
  ghost function Overflows(tr: seq<Arrival>, cap: nat, fifo: nat): set<nat> {
    set k | 0 <= k < |tr| && |Drain(QueueAt(tr, cap, fifo, k), tr[k].avail)| >= cap
  }

  lemma QueueOfFront(tr: seq<Arrival>, cap: nat, fifo: nat, n: nat, k: nat)
    requires k <= n <= |tr|
    ensures QueueAt(tr[..n], cap, fifo, k) == QueueAt(tr, cap, fifo, k)
  {
    assert tr[..n][..k] == tr[..k];
  }

  lemma SpillsNext(tr: seq<Arrival>, cap: nat, fifo: nat, n: nat)
    requires |tr| == n + 1
    ensures |Spills(tr, cap, fifo)|
         == |Spills(tr[..n], cap, fifo)| + if |QueueAt(tr, cap, fifo, n + 1)| > fifo then 1 else 0
  {
    hide QueueAt;
    forall k | 0 <= k <= n
      ensures QueueAt(tr[..n], cap, fifo, k) == QueueAt(tr, cap, fifo, k)
    {
      QueueOfFront(tr, cap, fifo, n, k);
    }
    assert Spills(tr, cap, fifo)
        == Spills(tr[..n], cap, fifo) + if |QueueAt(tr, cap, fifo, n + 1)| > fifo then {n + 1} else {};
  }

  lemma OverflowsNext(tr: seq<Arrival>, cap: nat, fifo: nat, n: nat)
    requires |tr| == n + 1
    ensures |Overflows(tr, cap, fifo)| == |Overflows(tr[..n], cap, fifo)|
            + if |Drain(QueueAt(tr, cap, fifo, n), tr[n].avail)| >= cap then 1 else 0
  {
    hide QueueAt, Drain;
    forall k | 0 <= k <= n
      ensures QueueAt(tr[..n], cap, fifo, k) == QueueAt(tr, cap, fifo, k)
    {
      QueueOfFront(tr, cap, fifo, n, k);
    }
    assert Overflows(tr, cap, fifo)
        == Overflows(tr[..n], cap, fifo) + if |Drain(QueueAt(tr, cap, fifo, n), tr[n].avail)| >= cap then {n} else {};
  }

  /** The spill and overflow figures count those messages. */
  lemma {:induction false} LossesAreCounted(tr: seq<Arrival>, cap: nat, fifo: nat)
    ensures After(tr, cap, fifo).drops == |Spills(tr, cap, fifo)|
    ensures After(tr, cap, fifo).overflow == |Overflows(tr, cap, fifo)|
  {
    if tr != [] {
      var n := |tr| - 1;
      LossesAreCounted(tr[..n], cap, fifo);
      SpillsNext(tr, cap, fifo, n);
      OverflowsNext(tr, cap, fifo, n);
      hide Drain, Spills, Overflows;
      assert tr[..n + 1] == tr;
    }
  }

  // ---- what feeds the servers ----

  /** Wire time of the messages from `i` on, at 80 ps a byte with two bytes of framing each. */
  ghost function WireWork(msgs: seq<Message>, i: nat): nat
    requires i <= |msgs|
  {
    if i == |msgs| then 0 else WireWork(msgs[..|msgs| - 1], i) + 80 * (msgs[|msgs| - 1].len + 2)
  }

  /** The wire has delivered the last message at the largest, over the messages so far, of a timestamp in picoseconds
      plus the wire time of everything from it on. */
  lemma {:induction false} WireClosedForm(msgs: seq<Message>)
    ensures forall i :: 0 <= i < |msgs| ==> msgs[i].ts * 1000 + WireWork(msgs, i) <= Wire(msgs)
    ensures msgs != [] ==> exists i :: 0 <= i < |msgs| && msgs[i].ts * 1000 + WireWork(msgs, i) == Wire(msgs)
  {
    if msgs != [] {
      var n := |msgs| - 1;
      var front, last := msgs[..n], msgs[n];
      WireClosedForm(front);
      assert WireWork(msgs, n) == 80 * (last.len + 2);
      forall i | 0 <= i < n
        ensures WireWork(msgs, i) == WireWork(front, i) + 80 * (last.len + 2) && msgs[i] == front[i]
      {
      }
      if Wire(front) <= last.ts * 1000 {
        assert msgs[n].ts * 1000 + WireWork(msgs, n) == Wire(msgs);
      } else {
        var i :| 0 <= i < n && front[i].ts * 1000 + WireWork(front, i) == Wire(front);
        assert msgs[i].ts * 1000 + WireWork(msgs, i) == Wire(msgs);
      }
    }
  }

  /** Message `i` of a feed is available when the wire has delivered it, and needs 3103 ps of the splitter, five core
      cycles of 4545 ps (nine for a replace) of the iterative table, and one of the pipelined table. */
  lemma {:induction false} TraceAt(d: Design, msgs: seq<Message>, i: nat)
    requires i < |msgs|
    ensures |Trace(d, msgs)| == |msgs|
    ensures Trace(d, msgs)[i].avail == Wire(msgs[..i + 1])
    ensures Trace(d, msgs)[i].ts == msgs[i].ts && Trace(d, msgs)[i].len == msgs[i].len
    ensures Trace(d, msgs)[i].srv
         == if d == Splitter then 3103 else if d == Pipe then 4545 else if msgs[i].replace then 40905 else 22725
  {
    var n := |msgs| - 1;
    WireDeliversInOrder(d, msgs);
    WireDeliversInOrder(d, msgs[..n]);
    if i < n {
      TraceAt(d, msgs[..n], i);
      assert msgs[..n][..i + 1] == msgs[..i + 1];
    } else {
      assert msgs[..n + 1] == msgs;
    }
  }
}

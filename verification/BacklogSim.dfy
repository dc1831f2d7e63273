/** The simulator itself: per server a ring of pending messages indexed by wrapping 32-bit
    counters, and three servers fed by one wire. */
module BacklogSim {
  import opened ModArith
  import opened Backlog
  import opened MinMax

  const W: nat := 0x1_0000_0000  // the counters are uint32

  /** A ring size the counters can index: a divisor of 2^32 below it, as any smaller power of two is. */
  predicate RingSize(cap: nat) {
    0 < cap < W && W % cap == 0
  }

  /** The slot of the `k`-th pending message. */
  function Slot(first: nat, k: nat, cap: nat): (i: nat)
    requires 0 < cap
    ensures i < cap
  {
    (first + k) % cap
  }

  lemma SlotsDiffer(first: nat, k: nat, d: nat, cap: nat)
    requires k < d < cap
    ensures Slot(first, k, cap) != Slot(first, d, cap)
  {
    AddMod(first, k, cap);
    AddMod(first, d, cap);
  }

  ghost predicate Rings(q: seq<Pending>, first: nat, queue: seq<Pending>) {
    |queue| <= |q| && (q != [] ==> forall k :: 0 <= k < |queue| ==> q[Slot(first, k, |q|)] == queue[k])
  }

  lemma PopKeeps(q: seq<Pending>, first: nat, queue: seq<Pending>)
    requires Rings(q, first, queue) && queue != []
    ensures Rings(q, first + 1, queue[1..])
  {
    forall k | 0 <= k < |queue| - 1
      ensures q[Slot(first + 1, k, |q|)] == queue[1..][k]
    {
      assert Slot(first + 1, k, |q|) == Slot(first, k + 1, |q|);
    }
  }

  lemma PushKeeps(q: seq<Pending>, first: nat, queue: seq<Pending>, x: Pending)
    requires Rings(q, first, queue) && |queue| < |q|
    ensures Rings(q[Slot(first, |queue|, |q|) := x], first, queue + [x])
  {
    forall k | 0 <= k < |queue|
      ensures Slot(first, k, |q|) != Slot(first, |queue|, |q|)
    {
      SlotsDiffer(first, k, |queue|, |q|);
    }
  }

  class Server {
    const fifo: nat
    const q: array<Pending>
    var head: nat
    var tail: nat
    var done: nat
    var bytes: nat
    var overflow: nat
    var drops: nat
    var maxWait: nat
    var maxWaitTs: nat
    var maxMsgs: nat
    var maxTs: nat
    var maxBytes: nat
    ghost var first: nat  // messages popped so far
    ghost var queue: seq<Pending>

    ghost predicate Valid()
      reads this`head, this`tail, this`bytes, this`first, this`queue, q
    {
      && RingSize(q.Length)
      && Rings(q[..], first, queue)
      && head == first % W && tail == (first + |queue|) % W
      && bytes == Bytes(queue)
    }

    ghost function View(): Sim
      reads this
    {
      Sim(done, queue, overflow, drops, maxWait, maxWaitTs, maxMsgs, maxTs, maxBytes)
    }

    constructor (cap: nat, fifo: nat)
      requires RingSize(cap)
      ensures Valid() && fresh(q) && q.Length == cap && this.fifo == fifo
      ensures View() == Sim(0, [], 0, 0, 0, 0, 0, 0, 0)
    {
      this.fifo := fifo;
      q := new Pending[cap](_ => Pending(0, 0));
      head, tail, done, bytes, overflow, drops := 0, 0, 0, 0, 0, 0;
      maxWait, maxWaitTs, maxMsgs, maxTs, maxBytes := 0, 0, 0, 0, 0;
      first, queue := 0, [];
    }

    /** The wrapped counter difference is the number of pending messages. */
    function Depth(): nat
      reads this`head, this`tail
    {
      (tail - head) % W
    }

    lemma DepthIsPending()
      requires Valid()
      ensures Depth() == |queue| <= q.Length
      ensures head == tail <==> queue == []
    {
      DifferenceMod(first, |queue|, W);
      AddMod(first, |queue|, W);
    }

    lemma BytesArePending()
      requires Valid()
      ensures bytes == Bytes(queue)
    {
    }

    /** The pop loop: every finished message at the head leaves. */
    method PopDone(avail: nat)
      requires Valid()
      modifies this`head, this`bytes, this`first, this`queue
      ensures Valid() && queue == Drain(old(queue), avail)
    {
      hide Rings;
      DepthIsPending();
      while head != tail && q[head % q.Length].done <= avail
        invariant Valid() && q[..] == old(q[..])
        invariant Drain(queue, avail) == Drain(old(queue), avail)
        invariant head == tail <==> queue == []
        decreases |queue|
      {
        HeadSlot();
        PopKeeps(q[..], first, queue);
        bytes := bytes - q[head % q.Length].len;
        AddMod(first, 1, W);
        head := (head + 1) % W;
        NextWrap(first);
        first, queue := first + 1, queue[1..];
        DepthIsPending();
      }
      if queue != [] {
        HeadSlot();
      }
    }

    lemma NextWrap(x: nat)
      ensures (x % W + 1) % W == (x + 1) % W
    {
      AddMod(x, 1, W);
      AddMod(x % W, 1, W);
    }

    lemma HeadSlot()
      requires Valid() && queue != []
      ensures q[head % q.Length] == queue[0]
    {
      ModNest(first, W, q.Length);
      assert Slot(first, 0, q.Length) == head % q.Length;
      assert q[..][Slot(first, 0, q.Length)] == queue[0];
    }

    method Push(x: Pending)
      requires Valid() && |queue| < q.Length
      modifies this`tail, this`bytes, this`queue, q
      ensures Valid() && queue == old(queue) + [x]
    {
      hide Rings;
      ghost var s := q[..];
      ModNest(first + |queue|, W, q.Length);
      PushKeeps(s, first, queue, x);
      BytesSnoc(queue, x);
      q[tail % q.Length] := x;
      assert q[..] == s[Slot(first, |queue|, q.Length) := x];
      NextWrap(first + |queue|);
      tail := (tail + 1) % W;
      bytes := bytes + x.len;
      queue := queue + [x];
    }

    /** Into the ring if it has room, else counted as overflow. */
    method Offer(x: Pending)
      requires Valid()
      modifies this`tail, this`bytes, this`queue, this`overflow, q
      ensures Valid() && queue == if |old(queue)| >= q.Length then old(queue) else old(queue) + [x]
      ensures overflow == if |old(queue)| >= q.Length then old(overflow) + 1 else old(overflow)
    {
      hide Server.Valid, Rings, Bytes;
      DepthIsPending();
      if Depth() < q.Length {
        Push(x);
      } else {
        overflow := overflow + 1;
      }
    }

    /** `srv_feed`. */
    method Feed(a: Arrival)
      requires Valid()
      modifies this, q
      ensures Valid() && View() == Backlog.Feed(old(View()), a, q.Length, fifo)
    {
      hide Server.Valid, Server.Depth, Rings, Drain, Bytes;
      PopDone(a.avail);
      var start := if done > a.avail then done else a.avail;
      var wait := start - a.avail;
      if wait > maxWait {
        maxWait, maxWaitTs := wait, a.ts;
      }
      done := start + a.srv;
      Offer(Pending(done, a.len));
      Note(a.ts);
    }

    /** Update the extremes for the backlog the message leaves, and whether a FIFO would spill. */
    method Note(ts: nat)
      requires Valid()
      modifies this`maxMsgs, this`maxTs, this`maxBytes, this`drops
      ensures maxMsgs == Max(old(maxMsgs), |queue|) && maxBytes == Max(old(maxBytes), Bytes(queue))
      ensures maxTs == if |queue| > old(maxMsgs) then ts else old(maxTs)
      ensures drops == if |queue| > fifo then old(drops) + 1 else old(drops)
    {
      DepthIsPending();
      BytesArePending();
      var depth := Depth();
      if depth > maxMsgs {
        maxMsgs, maxTs := depth, ts;
      }
      if bytes > maxBytes {
        maxBytes := bytes;
      }
      if depth > fifo {
        drops := drops + 1;
      }
    }
  }

  datatype Message = Message(ts: nat, len: nat, replace: bool)

  const WIRE_PS_B := 80
  const SPLIT_PS := 3103
  const CORE_PS := 4545

  datatype Design = Splitter | Iterative | Pipe

  /** Service time of a message at each simulated design. */
  function Service(d: Design, msg: Message): nat {
    match d
    case Splitter => SPLIT_PS
    case Iterative => (if msg.replace then 9 else 5) * CORE_PS
    case Pipe => CORE_PS
  }

  /** When the wire has delivered the last message: never before its own timestamp. */
  ghost function Wire(msgs: seq<Message>): nat {
    if msgs == [] then 0
    else
      var msg := msgs[|msgs| - 1];
      Max(Wire(msgs[..|msgs| - 1]), msg.ts * 1000) + (msg.len + 2) * WIRE_PS_B
  }

  ghost function Trace(d: Design, msgs: seq<Message>): seq<Arrival> {
    if msgs == [] then []
    else
      var msg := msgs[|msgs| - 1];
      Trace(d, msgs[..|msgs| - 1]) + [Arrival(Wire(msgs), msg.ts, msg.len, Service(d, msg))]
  }

  /** Whatever order the timestamps come in, the wire delivers in order. */
  lemma {:induction false} WireDeliversInOrder(d: Design, msgs: seq<Message>)
    ensures Ordered(Trace(d, msgs)) && |Trace(d, msgs)| == |msgs|
    ensures forall i :: 0 <= i < |msgs| ==> Trace(d, msgs)[i].avail <= Wire(msgs)
  {
    if msgs != [] {
      WireDeliversInOrder(d, msgs[..|msgs| - 1]);
    }
  }

  lemma {:induction false} PipeIsFaster(msgs: seq<Message>)
    ensures Faster(Trace(Iterative, msgs), Trace(Pipe, msgs))
  {
    if msgs != [] {
      PipeIsFaster(msgs[..|msgs| - 1]);
    }
  }

  /** On every feed that does not overflow the iterative table's ring, the pipelined table shows no
      larger wait, backlog or spill count, and after every message has no more waiting. */
  lemma PipeNeverWorse(msgs: seq<Message>, cap: nat, fifo: nat)
    requires After(Trace(Iterative, msgs), cap, fifo).overflow == 0
    ensures After(Trace(Pipe, msgs), cap, fifo).overflow == 0
    ensures After(Trace(Pipe, msgs), cap, fifo).drops <= After(Trace(Iterative, msgs), cap, fifo).drops
    ensures After(Trace(Pipe, msgs), cap, fifo).maxWait <= After(Trace(Iterative, msgs), cap, fifo).maxWait
    ensures After(Trace(Pipe, msgs), cap, fifo).maxMsgs <= After(Trace(Iterative, msgs), cap, fifo).maxMsgs
    ensures After(Trace(Pipe, msgs), cap, fifo).maxBytes <= After(Trace(Iterative, msgs), cap, fifo).maxBytes
    ensures |After(Trace(Pipe, msgs), cap, fifo).queue| <= |After(Trace(Iterative, msgs), cap, fifo).queue|
    ensures Bytes(After(Trace(Pipe, msgs), cap, fifo).queue) <= Bytes(After(Trace(Iterative, msgs), cap, fifo).queue)
  {
    WireDeliversInOrder(Iterative, msgs);
    PipeIsFaster(msgs);
    FasterIsNeverWorse(Trace(Iterative, msgs), Trace(Pipe, msgs), cap, fifo);
  }

  /** `backlog_feed`: advance the wire and offer the message to each design. */
  method BacklogFeed(split: Server, otab: Server, pipe: Server, wire: nat, msg: Message) returns (wire': nat)
    requires split.Valid() && otab.Valid() && pipe.Valid()
    requires split != otab && otab != pipe && split != pipe
    requires split.q != otab.q && otab.q != pipe.q && split.q != pipe.q
    modifies split, split.q, otab, otab.q, pipe, pipe.q
    ensures split.Valid() && otab.Valid() && pipe.Valid()
    ensures wire' == Max(wire, msg.ts * 1000) + (msg.len + 2) * WIRE_PS_B
    ensures split.View() == FeedOne(old(split.View()), wire', msg, Splitter, split.q.Length, split.fifo)
    ensures otab.View() == FeedOne(old(otab.View()), wire', msg, Iterative, otab.q.Length, otab.fifo)
    ensures pipe.View() == FeedOne(old(pipe.View()), wire', msg, Pipe, pipe.q.Length, pipe.fifo)
  {
    hide Server.Valid, Backlog.Feed;
    wire' := (if wire > msg.ts * 1000 then wire else msg.ts * 1000) + (msg.len + 2) * WIRE_PS_B;
    split.Feed(Arrival(wire', msg.ts, msg.len, SPLIT_PS));
    otab.Feed(Arrival(wire', msg.ts, msg.len, (if msg.replace then 9 else 5) * CORE_PS));
    pipe.Feed(Arrival(wire', msg.ts, msg.len, CORE_PS));
  }

  ghost function FeedOne(s: Sim, avail: nat, msg: Message, d: Design, cap: nat, fifo: nat): Sim {
    Backlog.Feed(s, Arrival(avail, msg.ts, msg.len, Service(d, msg)), cap, fifo)
  }

  /** A whole feed: one wire cursor, three servers. */
  method Run(cap: nat, fifo: nat, msgs: seq<Message>) returns (split: Server, otab: Server, pipe: Server)
    requires RingSize(cap)
    ensures split.View() == After(Trace(Splitter, msgs), cap, fifo)
    ensures otab.View() == After(Trace(Iterative, msgs), cap, fifo)
    ensures pipe.View() == After(Trace(Pipe, msgs), cap, fifo)
  {
    hide Server.Valid, After;
    NoArrivals(cap, fifo);
    split := new Server(cap, fifo);
    otab := new Server(cap, fifo);
    pipe := new Server(cap, fifo);
    var wire := 0;
    for i := 0 to |msgs|
      invariant fresh(split) && fresh(otab) && fresh(pipe) && fresh(split.q) && fresh(otab.q) && fresh(pipe.q)
      invariant split != otab && otab != pipe && split != pipe
      invariant split.q != otab.q && otab.q != pipe.q && split.q != pipe.q
      invariant split.Valid() && otab.Valid() && pipe.Valid()
      invariant split.q.Length == otab.q.Length == pipe.q.Length == cap
      invariant split.fifo == otab.fifo == pipe.fifo == fifo
      invariant wire == Wire(msgs[..i])
      invariant split.View() == After(Trace(Splitter, msgs[..i]), cap, fifo)
      invariant otab.View() == After(Trace(Iterative, msgs[..i]), cap, fifo)
      invariant pipe.View() == After(Trace(Pipe, msgs[..i]), cap, fifo)
    {
      OneMoreArrival(msgs, i, Splitter, cap, fifo);
      OneMoreArrival(msgs, i, Iterative, cap, fifo);
      OneMoreArrival(msgs, i, Pipe, cap, fifo);
      hide Server.View, FeedOne, Trace, Wire;
      wire := BacklogFeed(split, otab, pipe, wire, msgs[i]);
    }
    assert msgs[..|msgs|] == msgs;
  }

  lemma NoArrivals(cap: nat, fifo: nat)
    ensures After([], cap, fifo) == Sim(0, [], 0, 0, 0, 0, 0, 0, 0)
  {
  }

  lemma OneMoreArrival(msgs: seq<Message>, i: nat, d: Design, cap: nat, fifo: nat)
    requires i < |msgs|
    ensures Wire(msgs[..i + 1]) == Max(Wire(msgs[..i]), msgs[i].ts * 1000) + (msgs[i].len + 2) * WIRE_PS_B
    ensures After(Trace(d, msgs[..i + 1]), cap, fifo)
         == FeedOne(After(Trace(d, msgs[..i]), cap, fifo), Wire(msgs[..i + 1]), msgs[i], d, cap, fifo)
  {
    assert msgs[..i + 1][..i] == msgs[..i];
    var a := Arrival(Wire(msgs[..i + 1]), msgs[i].ts, msgs[i].len, Service(d, msgs[i]));
    assert Trace(d, msgs[..i + 1]) == Trace(d, msgs[..i]) + [a];
    assert (Trace(d, msgs[..i]) + [a])[..|Trace(d, msgs[..i])|] == Trace(d, msgs[..i]);
  }
}

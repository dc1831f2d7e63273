/** The MoldUDP64 packers: a plan of data, losses, duplicates, heartbeats and an end, and the pattern packer of a
    recorded feed; and what a receiver makes of their packets. */
module MoldPlan {
  import opened Wrappers
  import opened BigEndian
  import opened Mold
  import opened MoldWire

  datatype Item = Data(n: nat) | Lost(n: nat) | Dup | Heartbeat | Eos

  function Count(it: Item): nat {
    match it
    case Data(n) => n
    case Lost(n) => n
    case _ => 0
  }

  /** Messages a plan goes through. */
  function At(plan: seq<Item>): nat {
    if plan == [] then 0 else At(plan[..|plan| - 1]) + Count(plan[|plan| - 1])
  }

  /** `msgs[i:i + n]`, which stops at the end. */
  function Part(msgs: seq<Bytes>, i: nat, n: nat): (p: seq<Bytes>)
    ensures i + n <= |msgs| ==> p == msgs[i..i + n]
  {
    if |msgs| <= i then [] else if |msgs| < i + n then msgs[i..] else msgs[i..i + n]
  }

  function LastData(plan: seq<Item>, msgs: seq<Bytes>): Option<Packet> {
    if plan == [] then None
    else
      var front, it := plan[..|plan| - 1], plan[|plan| - 1];
      if it.Data? then Some(Packet(At(front) + 1, it.n, Part(msgs, At(front), it.n))) else LastData(front, msgs)
  }

  /** Whether an item can be packed after `plan`: its packet fits, the blocks of a loss, which are built and dropped,
      fit, and a duplicate has something to repeat. */
  predicate ItemPacks(plan: seq<Item>, msgs: seq<Bytes>, it: Item) {
    match it
    case Data(n) => Fits(Packet(At(plan) + 1, n, Part(msgs, At(plan), n)))
    case Lost(n) => Sized(Part(msgs, At(plan), n))
    case Dup => LastData(plan, msgs).Some?
    case Heartbeat => Fits(Packet(At(plan) + 1, 0, []))
    case Eos => Fits(Packet(At(plan) + 1, EOS, []))
  }

  predicate Packs(plan: seq<Item>, msgs: seq<Bytes>) {
    plan != [] ==>
      var front, it := plan[..|plan| - 1], plan[|plan| - 1];
      Packs(front, msgs) && ItemPacks(front, msgs, it)
  }

  function Pack(plan: seq<Item>, msgs: seq<Bytes>): seq<Packet>
    requires Packs(plan, msgs)
  {
    if plan == [] then []
    else
      var front, it := plan[..|plan| - 1], plan[|plan| - 1];
      var ps, seqNo := Pack(front, msgs), At(front) + 1;
      match it
      case Data(n) => ps + [Packet(seqNo, n, Part(msgs, At(front), n))]
      case Lost(_) => ps
      case Dup => ps + [LastData(front, msgs).value]
      case Heartbeat => ps + [Packet(seqNo, 0, [])]
      case Eos => ps + [Packet(seqNo, EOS, [])]
  }

  lemma {:induction false} PacksPrefix(plan: seq<Item>, msgs: seq<Bytes>, k: nat)
    requires k <= |plan| && Packs(plan, msgs)
    ensures Packs(plan[..k], msgs)
  {
    if k < |plan| {
      PacksPrefix(plan[..|plan| - 1], msgs, k);
      assert plan[..|plan| - 1][..k] == plan[..k];
    } else {
      assert plan[..k] == plan;
    }
  }

  lemma StuckAt(plan: seq<Item>, msgs: seq<Bytes>, k: nat)
    requires k < |plan| && !ItemPacks(plan[..k], msgs, plan[k])
    ensures !Packs(plan, msgs)
  {
    assert plan[..k + 1][..k] == plan[..k];
    if Packs(plan, msgs) {
      PacksPrefix(plan, msgs, k + 1);
    }
  }

  /** One more item, for the packets and the packer's variables. */
  lemma PackMore(plan: seq<Item>, msgs: seq<Bytes>, it: Item)
    requires Packs(plan, msgs) && ItemPacks(plan, msgs, it)
    ensures Packs(plan + [it], msgs) && Pack(plan + [it], msgs) == Pack(plan, msgs) + Sent(plan, msgs, it)
  {
    hide Fits, Sized, Part, At, LastData;
    assert (plan + [it])[..|plan|] == plan;
    NothingMore(Pack(plan, msgs));
  }

  /** `mold_pack`: raises exactly when an item cannot be packed or the plan does not cover the messages. */
  method MoldPack(msgs: seq<Bytes>, plan: seq<Item>) returns (out: Option<seq<Packet>>)
    ensures out == if Packs(plan, msgs) && At(plan) == |msgs| then Some(Pack(plan, msgs)) else None
  {
    hide Fits, Sized, Part, At, LastData, Packs, Pack;
    var ps := [];
    var seqNo: nat, i: nat := 1, 0;
    var last: Option<Packet> := None;
    NothingPacked(msgs);
    for k := 0 to |plan|
      invariant Packs(plan[..k], msgs) && ps == Pack(plan[..k], msgs)
      invariant i == At(plan[..k]) && seqNo == i + 1 && last == LastData(plan[..k], msgs)
    {
      var it := plan[k];
      assert plan[..k + 1] == plan[..k] + [it];
      var ok, sent := PackItem(msgs, plan[..k], it, seqNo, i, last);
      if !ok {
        StuckAt(plan, msgs, k);
        return None;
      }
      PackMore(plan[..k], msgs, it);
      AtMore(plan[..k], it);
      LastMore(plan[..k], msgs, it);
      ps := ps + sent;
      if it.Data? {
        last := Some(sent[0]);
      }
      seqNo, i := seqNo + Count(it), i + Count(it);
    }
    assert plan[..|plan|] == plan;
    out := if i == |msgs| then Some(ps) else None;
  }

  /** The switch of the loop: not `ok` is a raise. */
  method PackItem(msgs: seq<Bytes>, ghost plan: seq<Item>, it: Item, seqNo: nat, i: nat, last: Option<Packet>)
    returns (ok: bool, sent: seq<Packet>)
    requires i == At(plan) && seqNo == i + 1 && last == LastData(plan, msgs)
    ensures ok <==> ItemPacks(plan, msgs, it)
    ensures ok ==> sent == Sent(plan, msgs, it)
  {
    hide Fits, Sized, Part, At, LastData;
    sent := [];
    match it
    case Heartbeat =>
      sent := [Packet(seqNo, 0, [])];
      ok := Fits(sent[0]);
    case Eos =>
      sent := [Packet(seqNo, EOS, [])];
      ok := Fits(sent[0]);
    case Dup =>
      ok := last.Some?;
      if ok {
        sent := [last.value];
      }
    case Data(n) =>
      sent := [Packet(seqNo, n, Part(msgs, i, n))];
      ok := Fits(sent[0]);
    case Lost(n) =>
      ok := Sized(Part(msgs, i, n));
  }

  lemma NothingPacked(msgs: seq<Bytes>)
    ensures Packs([], msgs) && Pack([], msgs) == [] && At([]) == 0 && LastData([], msgs) == None
  {
  }

  // ---- what a plan keeps and loses ----

  /** Not yet ended. */
  predicate Open(plan: seq<Item>) {
    forall i :: 0 <= i < |plan| ==> plan[i] != Eos
  }

  /** The part of a plan a receiver sees. */
  function Live(plan: seq<Item>): (l: seq<Item>)
    ensures l <= plan && Open(l)
    ensures l == plan || plan[|l|] == Eos
  {
    if plan == [] then []
    else
      var front := Live(plan[..|plan| - 1]);
      if |front| == |plan| - 1 && plan[|plan| - 1] != Eos then plan else front
  }

  /** How far the plan's data and heartbeats have told a receiver. */
  function Announced(plan: seq<Item>): (a: nat)
    ensures a <= At(plan)
  {
    if plan == [] then 0
    else
      var front, it := plan[..|plan| - 1], plan[|plan| - 1];
      if it.Data? || it == Heartbeat then At(plan) else Announced(front)
  }

  /** The messages that are sent, with their numbers. */
  function Kept(plan: seq<Item>, msgs: seq<Bytes>): seq<Line> {
    if plan == [] then []
    else
      var front, it := plan[..|plan| - 1], plan[|plan| - 1];
      Kept(front, msgs) + if it.Data? then Messages(At(front) + 1, Part(msgs, At(front), it.n)) else []
  }

  /** The numbers of the messages that are not sent. */
  function LostNumbers(plan: seq<Item>): seq<nat> {
    if plan == [] then []
    else
      var front, it := plan[..|plan| - 1], plan[|plan| - 1];
      LostNumbers(front) + if it.Lost? then Numbers(At(front) + 1, At(front) + 1 + it.n) else []
  }

  /** The receiver after a plan that has not ended: it has delivered what was sent, and reported what was lost
      before the last data or heartbeat. */
  ghost predicate Follows(plan: seq<Item>, msgs: seq<Bytes>, r: Receiver) {
    && !r.ended && r.expected == 1 + Announced(plan)
    && Delivered(r.lines) == Kept(plan, msgs)
    && LostNumbers(plan) == Missing(r.lines) + Numbers(Announced(plan) + 1, At(plan) + 1)
    && (LastData(plan, msgs).Some? ==>
          LastData(plan, msgs).value.count < EOS
          && LastData(plan, msgs).value.seqNo + LastData(plan, msgs).value.count <= r.expected)
  }

  /** What the gap branch does: everything up to the packet's number is now accounted for. */
  lemma GapReports(r: Receiver, seqNo: nat, lost: seq<nat>)
    requires r.expected <= seqNo && lost == Missing(r.lines) + Numbers(r.expected, seqNo)
    ensures var lines := if seqNo > r.expected then r.lines + [Gap(r.expected, seqNo)] else r.lines;
      Missing(lines) == lost && Delivered(lines) == Delivered(r.lines)
  {
    hide Missing, Delivered;
    if seqNo > r.expected {
      LineSnoc(r.lines, Gap(r.expected, seqNo));
    } else {
      assert lost == Missing(r.lines) + [];
    }
    assert Delivered(r.lines) + [] == Delivered(r.lines);
  }

  /** A data packet or heartbeat that starts at or after the number expected. */
  lemma TakeAhead(r: Receiver, p: Packet, lost: seq<nat>)
    requires !r.ended && p.count < EOS && r.expected <= p.seqNo
    requires p.count == 0 ==> p.msgs == []
    requires lost == Missing(r.lines) + Numbers(r.expected, p.seqNo)
    ensures Take(r, p).expected == p.seqNo + p.count && !Take(r, p).ended
    ensures Delivered(Take(r, p).lines) == Delivered(r.lines) + Messages(p.seqNo, p.msgs)
    ensures Missing(Take(r, p).lines) == lost
  {
    hide Missing, Delivered, Numbers, Messages;
    GapReports(r, p.seqNo, lost);
    var lines := if p.seqNo > r.expected then r.lines + [Gap(r.expected, p.seqNo)] else r.lines;
    if p.count == 0 {
      LineSnoc(lines, Beat(p.seqNo));
      NoMessages(p.seqNo);
      assert Delivered(lines) + [] == Delivered(lines) && Missing(lines) + [] == Missing(lines);
    } else {
      MessagesDelivered(lines, p.seqNo, p.msgs);
    }
  }

  lemma NoMessages(no: nat)
    ensures Messages(no, []) == []
  {
  }

  /** A repeated packet changes neither what is delivered nor what is reported. */
  lemma TakeRepeat(r: Receiver, p: Packet)
    requires !r.ended && p.count < EOS && p.seqNo + p.count <= r.expected
    ensures Take(r, p).expected == r.expected && !Take(r, p).ended
    ensures Delivered(Take(r, p).lines) == Delivered(r.lines) && Missing(Take(r, p).lines) == Missing(r.lines)
  {
    hide Missing, Delivered, Messages;
    if p.count == 0 {
      LineSnoc(r.lines, Beat(p.seqNo));
      assert Delivered(r.lines) + [] == Delivered(r.lines) && Missing(r.lines) + [] == Missing(r.lines);
    }
  }

  lemma LostJoins(lost: seq<nat>, missing: seq<nat>, a: nat, b: nat, c: nat)
    requires a <= b <= c && lost == missing + Numbers(a, b)
    ensures lost + Numbers(b, c) == missing + Numbers(a, c)
  {
    NumbersJoin(a, b, c);
  }

  lemma AtMore(plan: seq<Item>, it: Item)
    ensures At(plan + [it]) == At(plan) + Count(it)
    ensures Announced(plan + [it]) == if it.Data? || it == Heartbeat then At(plan) + Count(it) else Announced(plan)
  {
    assert (plan + [it])[..|plan|] == plan;
  }

  lemma LastMore(plan: seq<Item>, msgs: seq<Bytes>, it: Item)
    ensures LastData(plan + [it], msgs)
         == if it.Data? then Some(Packet(At(plan) + 1, it.n, Part(msgs, At(plan), it.n))) else LastData(plan, msgs)
  {
    hide At, Part;
    assert (plan + [it])[..|plan|] == plan;
  }

  lemma KeptMore(plan: seq<Item>, msgs: seq<Bytes>, it: Item)
    ensures Kept(plan + [it], msgs)
         == Kept(plan, msgs) + if it.Data? then Messages(At(plan) + 1, Part(msgs, At(plan), it.n)) else []
  {
    hide At, Part, Messages;
    assert (plan + [it])[..|plan|] == plan;
  }

  lemma LostMore(plan: seq<Item>, it: Item)
    ensures LostNumbers(plan + [it])
         == LostNumbers(plan) + if it.Lost? then Numbers(At(plan) + 1, At(plan) + 1 + it.n) else []
  {
    hide At, Numbers;
    assert (plan + [it])[..|plan|] == plan;
  }

  lemma OneMorePacked(plan: seq<Item>, msgs: seq<Bytes>, it: Item)
    requires Packs(plan + [it], msgs)
    ensures Packs(plan, msgs) && ItemPacks(plan, msgs, it)
    ensures Pack(plan + [it], msgs) == Pack(plan, msgs) + Sent(plan, msgs, it)
  {
    assert (plan + [it])[..|plan|] == plan;
    hide ItemPacks, Fits, Sized, Part;
    NothingMore(Pack(plan, msgs));
  }

  function Sent(plan: seq<Item>, msgs: seq<Bytes>, it: Item): seq<Packet>
    requires it == Dup ==> LastData(plan, msgs).Some?
  {
    match it
    case Data(n) => [Packet(At(plan) + 1, n, Part(msgs, At(plan), n))]
    case Lost(_) => []
    case Dup => [LastData(plan, msgs).value]
    case Heartbeat => [Packet(At(plan) + 1, 0, [])]
    case Eos => [Packet(At(plan) + 1, EOS, [])]
  }

  lemma StepData(plan: seq<Item>, msgs: seq<Bytes>, n: nat, r: Receiver)
    requires Follows(plan, msgs, r) && n < EOS && At(plan) + n <= |msgs|
    ensures Follows(plan + [Data(n)], msgs, Take(r, Packet(At(plan) + 1, n, Part(msgs, At(plan), n))))
  {
    hide Delivered, Missing, Numbers, Messages, Take, At, LastData, Announced, Kept, LostNumbers;
    AtMore(plan, Data(n));
    LastMore(plan, msgs, Data(n));
    KeptMore(plan, msgs, Data(n));
    LostMore(plan, Data(n));
    NoNumbers(At(plan) + n + 1);
    TakeAhead(r, Packet(At(plan) + 1, n, Part(msgs, At(plan), n)), LostNumbers(plan));
    NothingMore(LostNumbers(plan));
  }

  lemma StepBeat(plan: seq<Item>, msgs: seq<Bytes>, r: Receiver)
    requires Follows(plan, msgs, r)
    ensures Follows(plan + [Heartbeat], msgs, Take(r, Packet(At(plan) + 1, 0, [])))
  {
    hide Delivered, Missing, Numbers, Messages, Take, At, LastData, Announced, Kept, LostNumbers;
    AtMore(plan, Heartbeat);
    LastMore(plan, msgs, Heartbeat);
    KeptMore(plan, msgs, Heartbeat);
    LostMore(plan, Heartbeat);
    NoNumbers(At(plan) + 1);
    NoMessages(At(plan) + 1);
    TakeAhead(r, Packet(At(plan) + 1, 0, []), LostNumbers(plan));
    NothingMore(LostNumbers(plan));
    NothingMore(Kept(plan, msgs));
  }

  lemma NothingMore<T>(s: seq<T>)
    ensures s + [] == s
  {
  }

  lemma StepLost(plan: seq<Item>, msgs: seq<Bytes>, it: Item, r: Receiver)
    requires Follows(plan, msgs, r) && it.Lost?
    ensures Follows(plan + [it], msgs, r)
  {
    AtMore(plan, it);
    LastMore(plan, msgs, it);
    KeptMore(plan, msgs, it);
    LostMore(plan, it);
    hide Delivered, Missing, Numbers, Messages, At, LastData, Announced, Kept, LostNumbers;
    LostJoins(LostNumbers(plan), Missing(r.lines), Announced(plan) + 1, At(plan) + 1, At(plan) + 1 + it.n);
    assert Kept(plan, msgs) + [] == Kept(plan, msgs);
  }

  lemma StepDup(plan: seq<Item>, msgs: seq<Bytes>, it: Item, r: Receiver)
    requires Follows(plan, msgs, r) && it == Dup && LastData(plan, msgs).Some?
    ensures Follows(plan + [it], msgs, Take(r, LastData(plan, msgs).value))
  {
    AtMore(plan, it);
    LastMore(plan, msgs, it);
    KeptMore(plan, msgs, it);
    LostMore(plan, it);
    hide Delivered, Missing, Numbers, Messages, Take, At, LastData, Announced, Kept, LostNumbers;
    TakeRepeat(r, LastData(plan, msgs).value);
    assert Kept(plan, msgs) + [] == Kept(plan, msgs) && LostNumbers(plan) + [] == LostNumbers(plan);
  }

  lemma NoNumbers(k: nat)
    ensures Numbers(k, k) == []
  {
  }

  lemma RunSnoc(ps: seq<Packet>, p: Packet)
    ensures Run(ps + [p]) == Take(Run(ps), p) && ps + [] == ps
  {
    assert (ps + [p])[..|ps|] == ps;
  }

  lemma StepOpen(plan: seq<Item>, msgs: seq<Bytes>, it: Item)
    requires Packs(plan + [it], msgs) && it != Eos && At(plan) + Count(it) <= |msgs|
    requires Packs(plan, msgs) && Follows(plan, msgs, Run(Pack(plan, msgs)))
    ensures Follows(plan + [it], msgs, Run(Pack(plan + [it], msgs)))
  {
    hide Follows, Take, Run, At, Packs, Pack, Part, Fits, Sized;
    OneMorePacked(plan, msgs, it);
    var r := Run(Pack(plan, msgs));
    match it
    case Lost(_) =>
      NothingMore(Pack(plan, msgs));
      StepLost(plan, msgs, it, r);
    case Dup =>
      RunSnoc(Pack(plan, msgs), LastData(plan, msgs).value);
      StepDup(plan, msgs, it, r);
    case Data(n) =>
      CountIsNotEos(Packet(At(plan) + 1, n, Part(msgs, At(plan), n)));
      RunSnoc(Pack(plan, msgs), Packet(At(plan) + 1, n, Part(msgs, At(plan), n)));
      StepData(plan, msgs, n, r);
    case Heartbeat =>
      RunSnoc(Pack(plan, msgs), Packet(At(plan) + 1, 0, []));
      StepBeat(plan, msgs, r);
    case Eos =>
      assert false;
  }

  /** A receiver of a plan that has not ended has delivered exactly what was sent, in order and numbered, and has
      reported exactly the losses that a later data packet or heartbeat revealed. */
  lemma {:induction false} OpenPlan(plan: seq<Item>, msgs: seq<Bytes>)
    requires Packs(plan, msgs) && Open(plan) && At(plan) <= |msgs|
    ensures Follows(plan, msgs, Run(Pack(plan, msgs)))
  {
    if plan == [] {
      NoNumbers(1);
    } else {
      var front, it := plan[..|plan| - 1], plan[|plan| - 1];
      assert plan == front + [it] && it != Eos;
      hide Follows, Run, Pack;
      OpenPlan(front, msgs);
      StepOpen(front, msgs, it);
    }
  }

  /** The packets of the live part come first. */
  lemma {:induction false} PackPrefix(plan: seq<Item>, msgs: seq<Bytes>, k: nat)
    requires k <= |plan| && Packs(plan, msgs) && Packs(plan[..k], msgs)
    ensures Pack(plan[..k], msgs) <= Pack(plan, msgs)
  {
    if k < |plan| {
      assert plan[..|plan| - 1][..k] == plan[..k];
      PackPrefix(plan[..|plan| - 1], msgs, k);
    } else {
      assert plan[..k] == plan;
    }
  }

  lemma {:induction false} AtPrefix(plan: seq<Item>, k: nat)
    requires k <= |plan|
    ensures At(plan[..k]) <= At(plan)
  {
    if k < |plan| {
      AtPrefix(plan[..|plan| - 1], k);
      assert plan[..|plan| - 1][..k] == plan[..k];
    } else {
      assert plan[..k] == plan;
    }
  }

  /** An end packet stops the receiver, whatever follows. */
  lemma EndStops(live: seq<Item>, plan: seq<Item>, msgs: seq<Bytes>)
    requires live + [Eos] <= plan && Packs(plan, msgs) && Packs(live, msgs)
    requires !Run(Pack(live, msgs)).ended
    ensures Run(Pack(plan, msgs)) == Receiver(Run(Pack(live, msgs)).expected,
                                              Run(Pack(live, msgs)).lines + [End(At(live) + 1)], true)
  {
    hide Pack, Packs, Run, At, Take, ItemPacks;
    var all, k := live + [Eos], |live| + 1;
    assert plan[..k] == all;
    PacksPrefix(plan, msgs, k);
    OneMorePacked(live, msgs, Eos);
    PackPrefix(plan, msgs, k);
    var p := Packet(At(live) + 1, EOS, []);
    RunSnoc(Pack(live, msgs), p);
    TakeEnd(Run(Pack(live, msgs)), p);
    StopsAt(Pack(all, msgs), Pack(plan, msgs));
  }

  lemma TakeEnd(r: Receiver, p: Packet)
    requires !r.ended && p.count == EOS
    ensures Take(r, p) == Receiver(r.expected, r.lines + [End(p.seqNo)], true)
  {
  }

  lemma StopsAt(ps: seq<Packet>, qs: seq<Packet>)
    requires ps <= qs && Run(ps).ended
    ensures Run(qs) == Run(ps)
  {
    assert qs[..|ps|] == ps;
    EndedStays(qs, |ps|);
  }

  lemma LivePlan(plan: seq<Item>, msgs: seq<Bytes>)
    requires Packs(plan, msgs) && At(plan) <= |msgs|
    ensures Packs(Live(plan), msgs) && Follows(Live(plan), msgs, Run(Pack(Live(plan), msgs)))
  {
    var live := Live(plan);
    assert live == plan[..|live|];
    hide Live, Pack, Packs, At, Run, Follows;
    PacksPrefix(plan, msgs, |live|);
    AtPrefix(plan, |live|);
    OpenPlan(live, msgs);
  }

  /** What a receiver prints for a whole plan: what it prints for the live part, then the end if there is one. */
  lemma PlanRun(plan: seq<Item>, msgs: seq<Bytes>)
    requires Packs(plan, msgs) && At(plan) <= |msgs|
    ensures Packs(Live(plan), msgs) && Follows(Live(plan), msgs, Run(Pack(Live(plan), msgs)))
    ensures Live(plan) == plan ==> Run(Pack(plan, msgs)) == Run(Pack(Live(plan), msgs))
    ensures Live(plan) != plan ==>
      Run(Pack(plan, msgs)) == Receiver(Run(Pack(Live(plan), msgs)).expected,
                                        Run(Pack(Live(plan), msgs)).lines + [End(At(Live(plan)) + 1)], true)
  {
    hide Live, Pack, Packs, At, Run, Delivered, Missing, Kept, LostNumbers, Announced, LastData;
    LivePlan(plan, msgs);
    var live := Live(plan);
    assert live == plan[..|live|];
    if live != plan {
      assert live + [Eos] <= plan;
      EndStops(live, plan, msgs);
    }
  }

  lemma EndAddsNothing(lines: seq<Line>, at: nat)
    ensures Delivered(lines + [End(at)]) == Delivered(lines) && Missing(lines + [End(at)]) == Missing(lines)
  {
    hide Delivered, Missing;
    LineSnoc(lines, End(at));
    assert Delivered(lines) + [] == Delivered(lines) && Missing(lines) + [] == Missing(lines);
  }

  lemma AllIff(lost: seq<nat>, missing: seq<nat>, a: nat, b: nat)
    requires a <= b && lost == missing + Numbers(a, b)
    ensures missing == lost <==> a == b
  {
    if a < b {
      assert |lost| == |missing| + (b - a);
    }
  }

  /** Exactly the messages sent before the end are delivered; a loss is reported exactly when data or a heartbeat
      follows it, so everything lost is reported if and only if no loss is the last word. */
  lemma PlanDelivers(plan: seq<Item>, msgs: seq<Bytes>)
    requires Packs(plan, msgs) && At(plan) <= |msgs|
    ensures Delivered(Run(Pack(plan, msgs)).lines) == Kept(Live(plan), msgs)
    ensures LostNumbers(Live(plan))
         == Missing(Run(Pack(plan, msgs)).lines) + Numbers(Announced(Live(plan)) + 1, At(Live(plan)) + 1)
    ensures Missing(Run(Pack(plan, msgs)).lines) == LostNumbers(Live(plan))
       <==> Announced(Live(plan)) == At(Live(plan))
    ensures Run(Pack(plan, msgs)).expected == 1 + Announced(Live(plan))
  {
    hide Delivered, Missing, Kept, LostNumbers, Announced, At, Run, Pack, Live, Packs, Numbers, LastData;
    PlanRun(plan, msgs);
    var l := Run(Pack(Live(plan), msgs));
    EndAddsNothing(l.lines, At(Live(plan)) + 1);
    AllIff(LostNumbers(Live(plan)), Missing(l.lines), Announced(Live(plan)) + 1, At(Live(plan)) + 1);
  }

  // ---- the packer's own check ----

  lemma StepChecks(r: Receiver, p: Packet)
    requires !r.ended && WellFormed(p) && p.count < EOS
    ensures Gaps(Take(r, p).lines) == Gaps(r.lines) + if p.seqNo > r.expected then [(r.expected, p.seqNo - r.expected)] else []
    ensures |Delivered(Take(r, p).lines)|
         == |Delivered(r.lines)| + if 0 < p.count && p.seqNo >= r.expected then p.count else 0
  {
    hide Delivered, Missing, Gaps, Messages;
    var lines := if p.seqNo > r.expected then r.lines + [Gap(r.expected, p.seqNo)] else r.lines;
    GapsSnoc(r.lines, Gap(r.expected, p.seqNo));
    LineSnoc(r.lines, Gap(r.expected, p.seqNo));
    if p.count == 0 {
      GapsSnoc(lines, Beat(p.seqNo));
      LineSnoc(lines, Beat(p.seqNo));
    } else if p.seqNo >= r.expected {
      GapsOfMessages(lines, p.seqNo, p.msgs);
      MessagesDelivered(lines, p.seqNo, p.msgs);
    }
  }

  lemma GapsSnoc(ls: seq<Line>, l: Line)
    ensures Gaps(ls + [l]) == Gaps(ls) + if l.Gap? then [(l.expected, l.got - l.expected)] else []
  {
    assert (ls + [l])[..|ls|] == ls;
  }

  lemma {:induction false} GapsOfMessages(ls: seq<Line>, no: nat, msgs: seq<Bytes>)
    ensures Gaps(ls + Messages(no, msgs)) == Gaps(ls)
  {
    hide Gaps;
    if msgs == [] {
      assert ls + Messages(no, msgs) == ls;
    } else {
      var front, l := msgs[..|msgs| - 1], Message(no + |msgs| - 1, msgs[|msgs| - 1]);
      GapsOfMessages(ls, no, front);
      GapsSnoc(ls + Messages(no, front), l);
      Regroup(ls, Messages(no, front), [l]);
      assert Gaps(ls) + [] == Gaps(ls);
    }
  }

  function Total(gaps: seq<(nat, int)>): int {
    if gaps == [] then 0 else Total(gaps[..|gaps| - 1]) + gaps[|gaps| - 1].1
  }

  /** Data packets a receiver drops because they start below the number expected. */
  function Repeats(ps: seq<Packet>): nat {
    if ps == [] then 0
    else
      var r, p := Run(ps[..|ps| - 1]), ps[|ps| - 1];
      Repeats(ps[..|ps| - 1]) + if !r.ended && 0 < p.count < EOS && p.seqNo < r.expected then 1 else 0
  }

  lemma {:induction false} RepeatsStop(ps: seq<Packet>, k: nat)
    requires k <= |ps| && Run(ps[..k]).ended
    ensures Repeats(ps) == Repeats(ps[..k])
  {
    if k < |ps| {
      assert ps[..|ps| - 1][..k] == ps[..k];
      EndedStays(ps[..|ps| - 1], k);
      RepeatsStop(ps[..|ps| - 1], k);
    } else {
      assert ps[..k] == ps;
    }
  }

  datatype Checked = Checked(got: nat, gaps: seq<(nat, int)>, dups: nat)

  /** `mold_selfcheck`: it agrees with the receiver on what is delivered and on the gaps, and its assertion
      passes exactly when the receiver ends up expecting the number after the last message. */
  method SelfCheck(ps: seq<Packet>, total: nat) returns (out: Option<Checked>)
    requires forall i :: 0 <= i < |ps| ==> WellFormed(ps[i])
    ensures out.Some? <==> Run(ps).expected == total + 1
    ensures out.Some? ==> out.value.got == |Delivered(Run(ps).lines)| && out.value.gaps == Gaps(Run(ps).lines)
    ensures out.Some? ==> out.value.dups == Repeats(ps)
  {
    hide Gaps, Delivered, Messages, Run, Repeats, Total;
    var exp: nat, got: nat, dups: nat := 1, 0, 0;
    var gaps: seq<(nat, int)> := [];
    NothingChecked();
    var i := 0;
    var ended := false;
    while i < |ps| && !ended
      invariant 0 <= i <= |ps| && Run(ps[..i]).expected == exp && Run(ps[..i]).ended == ended
      invariant got == |Delivered(Run(ps[..i]).lines)| && gaps == Gaps(Run(ps[..i]).lines)
      invariant got + Total(gaps) == exp - 1 && dups == Repeats(ps[..i])
    {
      ghost var r := Run(ps[..i]);
      var p := ps[i];
      OneMore(ps, i);
      i := i + 1;
      if p.count == EOS {
        ended := true;
        EndChecks(r.lines, p.seqNo);
        continue;
      }
      StepChecks(r, p);
      if p.seqNo > exp {
        TotalSnoc(gaps, (exp, p.seqNo - exp));
        gaps := gaps + [(exp, p.seqNo - exp)];
        exp := p.seqNo;
      }
      if p.count == 0 {
        continue;
      }
      if p.seqNo < exp {
        dups := dups + 1;
        continue;
      }
      got := got + p.count;
      exp := p.seqNo + p.count;
    }
    if ended {
      EndedStays(ps, i);
      RepeatsStop(ps, i);
    } else {
      assert ps[..|ps|] == ps;
    }
    var lost := Total(gaps);
    out := if got + lost == total then Some(Checked(got, gaps, dups)) else None;
  }

  lemma NothingChecked()
    ensures Run([]) == START && Delivered([]) == [] && Gaps([]) == [] && Total([]) == 0 && Repeats([]) == 0
  {
  }

  lemma OneMore(ps: seq<Packet>, i: nat)
    requires i < |ps|
    ensures Run(ps[..i + 1]) == Take(Run(ps[..i]), ps[i])
    ensures var r, p := Run(ps[..i]), ps[i];
      Repeats(ps[..i + 1])
        == Repeats(ps[..i]) + if !r.ended && 0 < p.count < EOS && p.seqNo < r.expected then 1 else 0
  {
    assert ps[..i + 1][..i] == ps[..i];
  }

  lemma TotalSnoc(gaps: seq<(nat, int)>, g: (nat, int))
    ensures Total(gaps + [g]) == Total(gaps) + g.1
  {
    assert (gaps + [g])[..|gaps|] == gaps;
  }

  lemma EndChecks(lines: seq<Line>, at: nat)
    ensures Delivered(lines + [End(at)]) == Delivered(lines) && Gaps(lines + [End(at)]) == Gaps(lines)
  {
    hide Delivered, Gaps;
    EndAddsNothing(lines, at);
    GapsSnoc(lines, End(at));
    assert Gaps(lines) + [] == Gaps(lines);
  }

  ghost predicate Sendable(p: Packet) {
    Fits(p) && WellFormed(p) && (p.count == EOS ==> p.msgs == [])
  }

  /** The packets of a plan that stays within the messages are well formed, and can be written to a file and read
      back. */
  lemma {:induction false} PackedIsWritable(plan: seq<Item>, msgs: seq<Bytes>)
    requires Packs(plan, msgs) && At(plan) <= |msgs|
    ensures Writable(Pack(plan, msgs)) && forall p :: p in Pack(plan, msgs) ==> WellFormed(p)
    ensures LastData(plan, msgs).Some? ==> Sendable(LastData(plan, msgs).value)
  {
    hide Fits;
    if plan != [] {
      var front, it := plan[..|plan| - 1], plan[|plan| - 1];
      PackedIsWritable(front, msgs);
      if it.Data? {
        CountIsNotEos(Packet(At(front) + 1, it.n, Part(msgs, At(front), it.n)));
      }
    }
  }

  /** On a packed plan the check passes exactly when the plan runs to the last message before it ends and a data
      packet or heartbeat follows every loss. */
  lemma SelfCheckPassesIff(plan: seq<Item>, msgs: seq<Bytes>)
    requires Packs(plan, msgs) && At(plan) == |msgs|
    ensures Run(Pack(plan, msgs)).expected == |msgs| + 1
       <==> At(Live(plan)) == |msgs| && Missing(Run(Pack(plan, msgs)).lines) == LostNumbers(Live(plan))
  {
    hide Pack, Packs, Run, Live, Missing, LostNumbers, At, Announced;
    PlanDelivers(plan, msgs);
    assert Live(plan) == plan[..|Live(plan)|];
    AtPrefix(plan, |Live(plan)|);
  }
}

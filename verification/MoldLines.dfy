/** Which lines a receiver prints for a stream of packets, told from the packets. */
module MoldLines {
  import opened BigEndian
  import opened Mold
  import opened MoldPlan
  import opened MoldWire
  import opened MoldFeed

  /** A packet's messages are printed in order, each with its own number and its own body. */
  lemma {:induction false} MessagesAt(no: nat, msgs: seq<Bytes>)
    ensures |Messages(no, msgs)| == |msgs|
    ensures forall i :: 0 <= i < |msgs| ==> Messages(no, msgs)[i] == Message(no + i, msgs[i])
  {
    if msgs != [] {
      MessagesAt(no, msgs[..|msgs| - 1]);
    }
  }

  /** How many numbers the lines of a stream account for, delivered or reported missing. */
  function Told(ps: seq<Packet>): nat {
    |Accounted(Run(ps).lines)|
  }

  predicate Going(ps: seq<Packet>) {
    forall i :: 0 <= i < |ps| ==> ps[i].count != EOS
  }

  /** After the packets `ps`, packet `p` prints line `l`. */
  predicate Prints(ps: seq<Packet>, p: Packet, l: Line) {
    && Going(ps)
    && match l
       case Message(no, body) =>
         0 < p.count < EOS && Told(ps) < p.seqNo <= no < p.seqNo + |p.msgs| && body == p.msgs[no - p.seqNo]
       case Gap(expected, got) => p.count < EOS && Told(ps) + 1 == expected < got == p.seqNo
       case Beat(seqNo) => p.count == 0 && seqNo == p.seqNo
       case End(seqNo) => p.count == EOS && seqNo == p.seqNo
  }

  ghost predicate AllWellFormed(ps: seq<Packet>) {
    forall i :: 0 <= i < |ps| ==> WellFormed(ps[i])
  }

  lemma {:induction false} EndedIff(ps: seq<Packet>)
    ensures Run(ps).ended <==> !Going(ps)
  {
    if ps != [] {
      EndedIff(ps[..|ps| - 1]);
      assert Going(ps) <==> Going(ps[..|ps| - 1]) && ps[|ps| - 1].count != EOS;
    }
  }

  lemma ToldIs(ps: seq<Packet>)
    requires AllWellFormed(ps)
    ensures Run(ps).expected == Told(ps) + 1
  {
    EveryNumberOnce(ps);
  }

  /** What `p` prints where `next` is the next number expected. */
  predicate PrintsNext(next: nat, p: Packet, l: Line) {
    match l
    case Message(no, body) =>
      0 < p.count < EOS && next <= p.seqNo <= no < p.seqNo + |p.msgs| && body == p.msgs[no - p.seqNo]
    case Gap(expected, got) => p.count < EOS && next == expected < got == p.seqNo
    case Beat(seqNo) => p.count == 0 && seqNo == p.seqNo
    case End(seqNo) => p.count == EOS && seqNo == p.seqNo
  }

  lemma TakePrints(r: Receiver, p: Packet, l: Line)
    requires WellFormed(p) && !r.ended
    ensures l in Take(r, p).lines <==> l in r.lines || PrintsNext(r.expected, p, l)
  {
    hide Messages;
    MessagesAt(p.seqNo, p.msgs);
    if l.Message? && p.seqNo <= l.no < p.seqNo + |p.msgs| {
      assert Messages(p.seqNo, p.msgs)[l.no - p.seqNo] == Message(l.no, p.msgs[l.no - p.seqNo]);
    }
  }

  lemma LastPrints(ps: seq<Packet>, n: nat, l: Line)
    requires AllWellFormed(ps) && |ps| == n + 1
    ensures l in Run(ps).lines <==> l in Run(ps[..n]).lines || Prints(ps[..n], ps[n], l)
  {
    hide Going, Told;
    EndedIff(ps[..n]);
    ToldIs(ps[..n]);
    if Going(ps[..n]) {
      hide Take;
      TakePrints(Run(ps[..n]), ps[n], l);
    }
  }

  /** For every packet stream: a line is printed exactly if some packet before the end prints it. A message carries the
      body found in its packet at its number, and a packet that starts at or before a number told already prints none. */
  lemma {:induction false} PrintedIff(ps: seq<Packet>, l: Line)
    requires AllWellFormed(ps)
    ensures l in Run(ps).lines <==> exists i :: 0 <= i < |ps| && Prints(ps[..i], ps[i], l)
  {
    hide Prints;
    if ps != [] {
      var n := |ps| - 1;
      LastPrints(ps, n, l);
      PrintedIff(ps[..n], l);
      hide Run;
      forall i | 0 <= i < n
        ensures ps[..n][..i] == ps[..i]
      {
      }
    }
  }

  /** Lines printed stay printed, in their places. */
  lemma {:induction false} LinesGrow(ps: seq<Packet>, k: nat)
    requires k <= |ps|
    ensures Run(ps[..k]).lines <= Run(ps).lines
  {
    if k < |ps| {
      assert ps[..|ps| - 1][..k] == ps[..k];
      LinesGrow(ps[..|ps| - 1], k);
    } else {
      assert ps[..k] == ps;
    }
  }

  // ---- the figures of the packer's own check ----

  /** The data packets that start at or before a number told already. */
  ghost function RepeatedPackets(ps: seq<Packet>): set<nat> {
    set i | 0 <= i < |ps| && Going(ps[..i]) && 0 < ps[i].count < EOS && ps[i].seqNo <= Told(ps[..i])
  }

  lemma RepeatedNext(ps: seq<Packet>, n: nat)
    requires |ps| == n + 1
    ensures |RepeatedPackets(ps)| == |RepeatedPackets(ps[..n])|
            + if Going(ps[..n]) && 0 < ps[n].count < EOS && ps[n].seqNo <= Told(ps[..n]) then 1 else 0
  {
    hide Going, Told;
    forall i | 0 <= i < n
      ensures ps[..n][..i] == ps[..i] && ps[..n][i] == ps[i]
    {
    }
    var last := if Going(ps[..n]) && 0 < ps[n].count < EOS && ps[n].seqNo <= Told(ps[..n]) then {n} else {};
    assert RepeatedPackets(ps) == RepeatedPackets(ps[..n]) + last;
  }

  /** The duplicates counted are those packets. */
  lemma {:induction false} RepeatsAreCounted(ps: seq<Packet>)
    requires AllWellFormed(ps)
    ensures Repeats(ps) == |RepeatedPackets(ps)|
  {
    if ps != [] {
      var n := |ps| - 1;
      RepeatsAreCounted(ps[..n]);
      RepeatedNext(ps, n);
      EndedIff(ps[..n]);
      ToldIs(ps[..n]);
      hide Going, Told, RepeatedPackets, Run;
    }
  }

  /** The gaps listed are the first missing number and the length of each gap printed. */
  lemma {:induction false} GapsIff(ls: seq<Line>, first: nat, len: int)
    ensures (first, len) in Gaps(ls) <==> exists i :: 0 <= i < |ls| && ls[i].Gap? && ls[i].expected == first && ls[i].got == first + len
  {
    if ls != [] {
      var n := |ls| - 1;
      GapsIff(ls[..n], first, len);
      if i :| 0 <= i < n && ls[..n][i].Gap? && ls[..n][i].expected == first && ls[..n][i].got == first + len {
        assert ls[i] == ls[..n][i];
      }
    }
  }

  // ---- the packets of a plan, item by item ----

  /** `p` has the messages of data item `j`, under the number that follows those of the items before it. */
  ghost predicate IsDataOf(plan: seq<Item>, msgs: seq<Bytes>, j: nat, p: Packet)
    requires j < |plan|
  {
    && plan[j].Data? && At(plan[..j]) + plan[j].n <= |msgs|
    && p == Packet(At(plan[..j]) + 1, plan[j].n, msgs[At(plan[..j])..At(plan[..j]) + plan[j].n])
  }

  ghost predicate NoDataBetween(plan: seq<Item>, j: nat, k: nat)
    requires k <= |plan|
  {
    forall i :: j < i < k ==> !plan[i].Data?
  }

  /** `p` is what item `k` of a plan sends: its messages, a repeat of the last data packet, or an empty packet with the
      next number and the count of a heartbeat or of an end. */
  ghost predicate IsPacketOf(plan: seq<Item>, msgs: seq<Bytes>, k: nat, p: Packet)
    requires k < |plan|
  {
    match plan[k]
    case Data(_) => IsDataOf(plan, msgs, k, p)
    case Lost(_) => false
    case Dup => exists j :: 0 <= j < k && IsDataOf(plan, msgs, j, p) && NoDataBetween(plan, j, k)
    case Heartbeat => p == Packet(At(plan[..k]) + 1, 0, [])
    case Eos => p == Packet(At(plan[..k]) + 1, 0xFFFF, [])
  }

  lemma DataPrefix(plan: seq<Item>, msgs: seq<Bytes>, n: nat, j: nat, p: Packet)
    requires j < n <= |plan|
    ensures IsDataOf(plan[..n], msgs, j, p) <==> IsDataOf(plan, msgs, j, p)
  {
    assert plan[..n][..j] == plan[..j];
  }

  lemma {:induction false} LastDataIs(plan: seq<Item>, msgs: seq<Bytes>) returns (j: nat)
    requires LastData(plan, msgs).Some? && At(plan) <= |msgs|
    ensures j < |plan| && IsDataOf(plan, msgs, j, LastData(plan, msgs).value) && NoDataBetween(plan, j, |plan|)
  {
    var n := |plan| - 1;
    if plan[n].Data? {
      j := n;
    } else {
      j := LastDataIs(plan[..n], msgs);
      DataPrefix(plan, msgs, n, j, LastData(plan, msgs).value);
      hide IsDataOf;
      assert forall i :: 0 <= i < n ==> plan[..n][i] == plan[i];
    }
  }

  lemma LastPacket(plan: seq<Item>, msgs: seq<Bytes>, n: nat)
    requires |plan| == n + 1 && Packs(plan, msgs) && At(plan) <= |msgs|
    ensures Packs(plan[..n], msgs) && At(plan[..n]) <= At(plan)
    ensures plan[n].Lost? ==> Pack(plan, msgs) == Pack(plan[..n], msgs)
    ensures !plan[n].Lost? ==>
      && |Pack(plan, msgs)| == |Pack(plan[..n], msgs)| + 1 && Pack(plan[..n], msgs) == Pack(plan, msgs)[..|Pack(plan[..n], msgs)|]
      && IsPacketOf(plan, msgs, n, Pack(plan, msgs)[|Pack(plan[..n], msgs)|])
  {
    hide Fits, Sized;
    if plan[n] == Dup {
      var j := LastDataIs(plan[..n], msgs);
      DataPrefix(plan, msgs, n, j, LastData(plan[..n], msgs).value);
      hide IsDataOf;
      assert forall i :: 0 <= i < n ==> plan[..n][i] == plan[i];
      assert NoDataBetween(plan, j, n);
    }
  }

  lemma PacketPrefix(plan: seq<Item>, msgs: seq<Bytes>, n: nat, k: nat, p: Packet)
    requires k < n <= |plan| && IsPacketOf(plan[..n], msgs, k, p)
    ensures IsPacketOf(plan, msgs, k, p)
  {
    assert plan[..n][..k] == plan[..k];
    DataPrefix(plan, msgs, n, k, p);
    if plan[k] == Dup {
      var j :| 0 <= j < k && IsDataOf(plan[..n], msgs, j, p) && NoDataBetween(plan[..n], j, k);
      DataPrefix(plan, msgs, n, j, p);
      hide IsDataOf, At;
      assert forall i :: 0 <= i < n ==> plan[..n][i] == plan[i];
      assert NoDataBetween(plan, j, k);
    }
  }

  /** Items `ks`, in order, send the packets `ps`, and every item but a loss is among them. */
  ghost predicate ArePackets(plan: seq<Item>, msgs: seq<Bytes>, ks: seq<nat>, ps: seq<Packet>) {
    && |ks| == |ps|
    && (forall i :: 0 <= i < |ks| ==> ks[i] < |plan| && IsPacketOf(plan, msgs, ks[i], ps[i]))
    && (forall i, j :: 0 <= i < j < |ks| ==> ks[i] < ks[j])
    && (forall k :: 0 <= k < |plan| && !plan[k].Lost? ==> k in ks)
  }

  lemma PacketsMore(plan: seq<Item>, msgs: seq<Bytes>, n: nat, ks: seq<nat>, ps: seq<Packet>)
    requires |plan| == n + 1 && ArePackets(plan[..n], msgs, ks, ps)
    ensures plan[n].Lost? ==> ArePackets(plan, msgs, ks, ps)
    ensures !plan[n].Lost? ==> forall p :: IsPacketOf(plan, msgs, n, p) ==> ArePackets(plan, msgs, ks + [n], ps + [p])
  {
    hide IsPacketOf;
    forall i | 0 <= i < |ks|
      ensures ks[i] < n && IsPacketOf(plan, msgs, ks[i], ps[i])
    {
      PacketPrefix(plan, msgs, n, ks[i], ps[i]);
    }
    assert forall k :: 0 <= k < n ==> plan[..n][k] == plan[k];
  }

  /** The packets of a plan are those of its items, losses left out, one each and in order. */
  lemma {:induction false} PacketsAre(plan: seq<Item>, msgs: seq<Bytes>) returns (ks: seq<nat>)
    requires Packs(plan, msgs) && At(plan) <= |msgs|
    ensures ArePackets(plan, msgs, ks, Pack(plan, msgs))
  {
    ks := [];
    if plan == [] {
      NothingPacked(msgs);
    } else {
      hide IsPacketOf, ArePackets, Packs, Pack, At;
      var n := |plan| - 1;
      LastPacket(plan, msgs, n);
      ks := PacketsAre(plan[..n], msgs);
      PacketsMore(plan, msgs, n, ks, Pack(plan[..n], msgs));
      if !plan[n].Lost? {
        ks := ks + [n];
        var p := Pack(plan, msgs)[|Pack(plan[..n], msgs)|];
        assert Pack(plan, msgs) == Pack(plan[..n], msgs) + [p];
      }
    }
  }

  // ---- packed plans and feeds, message by message ----

  /** Message number `no` is sent: a data item of the plan covers it. */
  predicate SentNumber(plan: seq<Item>, no: nat) {
    exists k :: 0 <= k < |plan| && plan[k].Data? && At(plan[..k]) < no <= At(plan[..k]) + plan[k].n
  }

  lemma SentNumberNext(plan: seq<Item>, no: nat)
    requires plan != []
    ensures var n := |plan| - 1;
      SentNumber(plan, no)
      <==> SentNumber(plan[..n], no) || (plan[n].Data? && At(plan[..n]) < no <= At(plan[..n]) + plan[n].n)
  {
    hide At;
    var n := |plan| - 1;
    forall k | 0 <= k < n
      ensures plan[..n][..k] == plan[..k]
    {
    }
    if SentNumber(plan[..n], no) {
      var k :| 0 <= k < n && plan[..n][k].Data? && At(plan[..n][..k]) < no <= At(plan[..n][..k]) + plan[..n][k].n;
      assert plan[k].Data? && At(plan[..k]) < no <= At(plan[..k]) + plan[k].n;
    }
  }

  /** Lines that are messages of `msgs`, each with the body of its own number, in increasing order of their numbers. */
  predicate TrueMessages(ls: seq<Line>, msgs: seq<Bytes>) {
    && (forall i :: 0 <= i < |ls| ==> ls[i].Message? && 1 <= ls[i].no <= |msgs| && ls[i].body == msgs[ls[i].no - 1])
    && (forall i, j :: 0 <= i < j < |ls| ==> ls[i].no < ls[j].no)
  }

  lemma KeptLast(plan: seq<Item>, msgs: seq<Bytes>)
    requires plan != [] && At(plan) <= |msgs|
    ensures var front, it := plan[..|plan| - 1], plan[|plan| - 1];
      && At(plan) == At(front) + Count(it)
      && (it.Data? ==> Kept(plan, msgs) == Kept(front, msgs) + Messages(At(front) + 1, msgs[At(front)..At(front) + it.n]))
      && (!it.Data? ==> Kept(plan, msgs) == Kept(front, msgs))
  {
    hide Messages;
  }

  lemma TrueMore(ls: seq<Line>, at: nat, n: nat, msgs: seq<Bytes>)
    requires TrueMessages(ls, msgs) && at + n <= |msgs|
    requires forall i :: 0 <= i < |ls| ==> ls[i].no <= at
    ensures TrueMessages(ls + Messages(at + 1, msgs[at..at + n]), msgs)
    ensures forall l :: l in ls + Messages(at + 1, msgs[at..at + n]) ==> l.no <= at + n
  {
    var more := Messages(at + 1, msgs[at..at + n]);
    MessagesAt(at + 1, msgs[at..at + n]);
    hide Messages;
    forall i | 0 <= i < |more|
      ensures more[i] == Message(at + 1 + i, msgs[at + i])
    {
    }
  }

  lemma {:induction false} KeptAre(plan: seq<Item>, msgs: seq<Bytes>)
    requires At(plan) <= |msgs|
    ensures TrueMessages(Kept(plan, msgs), msgs)
    ensures forall i :: 0 <= i < |Kept(plan, msgs)| ==> Kept(plan, msgs)[i].no <= At(plan)
  {
    if plan != [] {
      KeptLast(plan, msgs);
      hide At, Kept, Messages;
      var front, it := plan[..|plan| - 1], plan[|plan| - 1];
      KeptAre(front, msgs);
      if it.Data? {
        TrueMore(Kept(front, msgs), At(front), it.n, msgs);
      }
    }
  }

  predicate HasNumber(ls: seq<Line>, no: nat) {
    exists i :: 0 <= i < |ls| && ls[i].Message? && ls[i].no == no
  }

  lemma NumberInMessages(ls: seq<Line>, first: nat, msgs: seq<Bytes>, no: nat)
    ensures HasNumber(ls + Messages(first, msgs), no) <==> HasNumber(ls, no) || first <= no < first + |msgs|
  {
    MessagesAt(first, msgs);
    hide Messages;
    var all := ls + Messages(first, msgs);
    if HasNumber(ls, no) {
      var i :| 0 <= i < |ls| && ls[i].Message? && ls[i].no == no;
      assert all[i] == ls[i];
    }
    if first <= no < first + |msgs| {
      assert all[|ls| + (no - first)] == Message(no, msgs[no - first]);
    }
  }

  lemma {:induction false} KeptIff(plan: seq<Item>, msgs: seq<Bytes>, no: nat)
    requires At(plan) <= |msgs|
    ensures HasNumber(Kept(plan, msgs), no) <==> SentNumber(plan, no)
  {
    if plan != [] {
      KeptLast(plan, msgs);
      SentNumberNext(plan, no);
      hide SentNumber, At, Kept, Messages, HasNumber;
      var front, it := plan[..|plan| - 1], plan[|plan| - 1];
      KeptIff(front, msgs, no);
      if it.Data? {
        NumberInMessages(Kept(front, msgs), At(front) + 1, msgs[At(front)..At(front) + it.n], no);
      }
    }
  }

  /** What a receiver delivers of a packed plan: each delivered message has the body of its own number, in increasing
      order, and a number is delivered exactly if a data item before the end covers it. */
  lemma PlanBodies(plan: seq<Item>, msgs: seq<Bytes>, no: nat)
    requires Packs(plan, msgs) && At(plan) <= |msgs|
    ensures TrueMessages(Delivered(Run(Pack(plan, msgs)).lines), msgs)
    ensures HasNumber(Delivered(Run(Pack(plan, msgs)).lines), no) <==> SentNumber(Live(plan), no)
  {
    hide TrueMessages, HasNumber, SentNumber, Delivered, Missing, LostNumbers, Run, Pack, Packs, Kept;
    PlanDelivers(plan, msgs);
    assert Live(plan) == plan[..|Live(plan)|];
    hide At, Live;
    AtPrefix(plan, |Live(plan)|);
    KeptAre(Live(plan), msgs);
    KeptIff(Live(plan), msgs, no);
  }

  /** What a receiver delivers of a packed feed: message for message the feed, numbered from one. */
  lemma FeedBodies(msgs: seq<Bytes>)
    requires Packs(FeedPlan(|msgs|), msgs)
    ensures var ls := Delivered(Run(Pack(FeedPlan(|msgs|), msgs)).lines);
      |ls| == |msgs| && forall i :: 0 <= i < |msgs| ==> ls[i] == Message(i + 1, msgs[i])
  {
    hide Delivered, Run, Pack, Packs, FeedPlan, Messages;
    FeedArrives(msgs);
    MessagesAt(1, msgs);
  }
}

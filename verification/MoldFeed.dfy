/** The packer of a recorded feed: a fixed pattern of packet sizes, a heartbeat now and then, and an end. */
module MoldFeed {
  import opened Wrappers
  import opened BigEndian
  import opened Mold
  import opened MoldPlan
  import opened MoldWire

  const PATTERN: seq<nat> := [1, 2, 3, 5, 8, 4, 7, 6]
  const HB_EVERY := 97

  function Want(k: nat): (w: nat)
    ensures 1 <= w <= 8
  {
    PATTERN[k % |PATTERN|]
  }

  function BeatAfter(k: nat): seq<Item> {
    if (k + 1) % HB_EVERY == 0 then [Heartbeat] else []
  }

  /** One full round: a data packet, and a heartbeat after every 97th. */
  function Round(k: nat): seq<Item> {
    [Data(Want(k))] + BeatAfter(k)
  }

  /** The plan the packer follows from packet `k` on with `left` messages to go, up to the end packet. */
  function Layout(k: nat, left: nat): seq<Item>
    decreases left
  {
    if left < Want(k) then if left > 0 then [Data(left)] else []
    else Round(k) + Layout(k + 1, left - Want(k))
  }

  /** Plain items of a recorded feed: data packets that read as data, and heartbeats. */
  predicate Plain(plan: seq<Item>) {
    forall i :: 0 <= i < |plan| ==> plan[i] == Heartbeat || (plan[i].Data? && 0 < plan[i].n < EOS)
  }

  lemma {:induction false} AtJoin(a: seq<Item>, b: seq<Item>)
    ensures At(a + b) == At(a) + At(b)
  {
    if b == [] {
      assert a + b == a;
    } else {
      assert (a + b)[..|a + b| - 1] == a + b[..|b| - 1];
      AtJoin(a, b[..|b| - 1]);
    }
  }

  lemma RoundIsPlain(k: nat)
    ensures Plain(Round(k)) && At(Round(k)) == Want(k)
  {
    hide At;
    AtOne(Data(Want(k)));
    AtOne(Heartbeat);
    AtJoin([Data(Want(k))], [Heartbeat]);
    assert [Data(Want(k))] + [] == [Data(Want(k))];
  }

  lemma AtOne(it: Item)
    ensures At([it]) == Count(it) && At([]) == 0
  {
    assert [it][..0] == [];
  }

  lemma PlainJoin(a: seq<Item>, b: seq<Item>)
    requires Plain(a) && Plain(b)
    ensures Plain(a + b)
  {
  }

  /** The layout is plain items that cover exactly the messages. */
  lemma {:induction false} LayoutShape(k: nat, left: nat)
    ensures Plain(Layout(k, left)) && At(Layout(k, left)) == left
    decreases left
  {
    if left < Want(k) {
      AtOne(Data(left));
    } else {
      hide Plain, At;
      LayoutShape(k + 1, left - Want(k));
      RoundIsPlain(k);
      PlainJoin(Round(k), Layout(k + 1, left - Want(k)));
      AtJoin(Round(k), Layout(k + 1, left - Want(k)));
    }
  }

  lemma {:induction false} PlainKeepsNothingBack(plan: seq<Item>)
    requires Plain(plan)
    ensures Open(plan) && LostNumbers(plan) == [] && Announced(plan) == At(plan)
  {
    if plan != [] {
      var it := plan[|plan| - 1];
      PlainKeepsNothingBack(plan[..|plan| - 1]);
    }
  }

  lemma PlainLast(plan: seq<Item>, msgs: seq<Bytes>)
    requires Plain(plan) && plan != []
    ensures var front, it := plan[..|plan| - 1], plan[|plan| - 1];
      && Plain(front) && (it == Heartbeat || it.Data?) && At(plan) == At(front) + Count(it)
      && Kept(plan, msgs) == if it.Data? then Kept(front, msgs) + Messages(At(front) + 1, Part(msgs, At(front), it.n))
                             else Kept(front, msgs)
  {
    hide Messages, Part;
    NothingMore(Kept(plan[..|plan| - 1], msgs));
  }

  /** Every message, numbered from one. */
  lemma {:induction false} PlainKeepsAll(plan: seq<Item>, msgs: seq<Bytes>)
    requires Plain(plan) && At(plan) <= |msgs|
    ensures Kept(plan, msgs) == Messages(1, msgs[..At(plan)])
  {
    if plan != [] {
      hide Messages, Kept, At, Part, Plain;
      PlainLast(plan, msgs);
      var front, it := plan[..|plan| - 1], plan[|plan| - 1];
      PlainKeepsAll(front, msgs);
      if it.Data? {
        SentSoFar(msgs, At(front), it.n);
      }
    }
  }

  lemma SentSoFar(msgs: seq<Bytes>, at: nat, n: nat)
    requires at + n <= |msgs|
    ensures Messages(1, msgs[..at]) + Messages(at + 1, Part(msgs, at, n)) == Messages(1, msgs[..at + n])
  {
    hide Messages;
    assert msgs[..at] + msgs[at..at + n] == msgs[..at + n];
    MessagesJoin(1, msgs[..at], msgs[at..at + n]);
  }

  lemma {:induction false} MessagesJoin(no: nat, a: seq<Bytes>, b: seq<Bytes>)
    ensures Messages(no, a) + Messages(no + |a|, b) == Messages(no, a + b)
  {
    if b == [] {
      assert a + b == a;
    } else {
      assert (a + b)[..|a + b| - 1] == a + b[..|b| - 1];
      MessagesJoin(no, a, b[..|b| - 1]);
    }
  }

  /** What is packed for a recorded feed. */
  function FeedPlan(n: nat): seq<Item> {
    Layout(0, n) + [Eos]
  }

  /** A recorded feed, packed, is received gap-free and complete: every message once, in order, with no loss
      reported, and the end packet numbered after the last message. */
  lemma FeedArrives(msgs: seq<Bytes>)
    requires Packs(FeedPlan(|msgs|), msgs)
    ensures var r := Run(Pack(FeedPlan(|msgs|), msgs));
      && Delivered(r.lines) == Messages(1, msgs) && Missing(r.lines) == [] && r.ended
      && r.expected == |msgs| + 1 && r.lines != [] && r.lines[|r.lines| - 1] == End(|msgs| + 1)
  {
    LayoutShape(0, |msgs|);
    hide Layout;
    PlainArrives(Layout(0, |msgs|), msgs);
  }

  lemma PlainArrives(live: seq<Item>, msgs: seq<Bytes>)
    requires Plain(live) && At(live) == |msgs| && Packs(live + [Eos], msgs)
    ensures var r := Run(Pack(live + [Eos], msgs));
      && Delivered(r.lines) == Messages(1, msgs) && Missing(r.lines) == [] && r.ended
      && r.expected == |msgs| + 1 && r.lines != [] && r.lines[|r.lines| - 1] == End(|msgs| + 1)
  {
    hide Delivered, Missing, Kept, LostNumbers, Announced, At, Run, Live, Plain, Messages, Numbers, Open, Pack, Packs;
    PlainKeepsNothingBack(live);
    PlainKeepsAll(live, msgs);
    assert msgs[..|msgs|] == msgs;
    EndsAt(live);
    AtMore(live, Eos);
    PlanDelivers(live + [Eos], msgs);
    PlanRun(live + [Eos], msgs);
  }

  lemma EndsAt(live: seq<Item>)
    requires Open(live)
    ensures Live(live + [Eos]) == live
  {
    assert (live + [Eos])[..|live|] == live;
    OpenIsLive(live);
  }

  lemma {:induction false} OpenIsLive(plan: seq<Item>)
    requires Open(plan)
    ensures Live(plan) == plan
  {
    if plan != [] {
      OpenIsLive(plan[..|plan| - 1]);
    }
  }

  /** How one round of the loop continues the plan. */
  lemma NextRound(k: nat, left: nat)
    ensures Want(k) <= left ==>
      Layout(k, left) + [Eos] == [Data(Want(k))] + (BeatAfter(k) + (Layout(k + 1, left - Want(k)) + [Eos]))
    ensures 0 < left < Want(k) ==> Layout(k, left) + [Eos] == [Data(left)] + [Eos]
    ensures left == 0 ==> Layout(k, left) + [Eos] == [Eos]
  {
    hide Want, BeatAfter;
    if Want(k) <= left {
      Assoc([Data(Want(k))], BeatAfter(k), Layout(k + 1, left - Want(k)), [Eos]);
    }
  }

  lemma Assoc<T>(a: seq<T>, b: seq<T>, c: seq<T>, d: seq<T>)
    ensures a + b + c + d == a + (b + (c + d))
  {
  }

  lemma Regroup3<T>(a: seq<T>, x: T, b: seq<T>)
    ensures a + ([x] + b) == a + [x] + b
  {
  }

  /** Send packet `p` of item `it`, unless it does not fit; `rest` is what the plan still has after it. */
  method Emit(msgs: seq<Bytes>, ghost plan: seq<Item>, ghost it: Item, ghost rest: seq<Item>, out: seq<Packet>, p: Packet)
    returns (ok: bool, more: seq<Packet>)
    requires Packs(plan, msgs) && out == Pack(plan, msgs) && FeedPlan(|msgs|) == plan + ([it] + rest)
    requires it.Data? || it == Heartbeat || it == Eos
    requires Sent(plan, msgs, it) == [p]
    ensures !ok ==> !Packs(FeedPlan(|msgs|), msgs)
    ensures ok ==> Packs(plan + [it], msgs) && more == Pack(plan + [it], msgs)
    ensures At(plan + [it]) == At(plan) + Count(it) && FeedPlan(|msgs|) == plan + [it] + rest
  {
    hide At, Packs, Pack, Part, Fits, LastData, FeedPlan;
    AtMore(plan, it);
    Regroup3(plan, it, rest);
    ok := Fits(p);
    more := out;
    if ok {
      PackMore(plan, msgs, it);
      more := out + [p];
    } else {
      StuckAt(FeedPlan(|msgs|), msgs, |plan|);
    }
  }

  /** `itch2mold.main` on the messages of a recorded feed: it raises exactly when a packet of the feed's plan does not
      fit. */
  method Packetize(msgs: seq<Bytes>) returns (out: Option<seq<Packet>>)
    ensures out == if Packs(FeedPlan(|msgs|), msgs) then Some(Pack(FeedPlan(|msgs|), msgs)) else None
  {
    hide Layout, Want, At, Packs, Pack, Part, FeedPlan;
    var ps := [];
    var seqNo: nat, pi: nat, dataPkts: nat, next: nat := 1, 0, 0, 0;
    ghost var plan: seq<Item>, rest := [], FeedPlan(|msgs|);
    var done := false;
    var ok := true;
    Begin(msgs);
    while !done
      invariant Packs(plan, msgs) && ps == Pack(plan, msgs) && plan + rest == FeedPlan(|msgs|)
      invariant next <= |msgs| && At(plan) == next && seqNo == next + 1
      invariant !done ==> dataPkts == pi && rest == Layout(pi, |msgs| - next) + [Eos]
      invariant done ==> rest == [Eos]
      decreases !done, |msgs| - next
    {
      NextRound(pi, |msgs| - next);
      var want := Want(pi);
      pi := pi + 1;
      var buf;
      buf, done := Gather(msgs, next, want);
      if buf != [] {
        rest := if done then [Eos] else BeatAfter(dataPkts) + (Layout(pi, |msgs| - next - want) + [Eos]);
        ok, ps := Emit(msgs, plan, Data(|buf|), rest, ps, Packet(seqNo, |buf|, buf));
        if !ok {
          return None;
        }
        plan := plan + [Data(|buf|)];
        seqNo, next, dataPkts := seqNo + |buf|, next + |buf|, dataPkts + 1;
      }
      if !done && dataPkts % HB_EVERY == 0 {
        rest := Layout(pi, |msgs| - next) + [Eos];
        ok, ps := Emit(msgs, plan, Heartbeat, rest, ps, Packet(seqNo, 0, []));
        if !ok {
          return None;
        }
        plan := plan + [Heartbeat];
      }
    }
    ok, ps := Emit(msgs, plan, Eos, [], ps, Packet(seqNo, EOS, []));
    if !ok {
      return None;
    }
    NothingMore(plan + [Eos]);
    out := Some(ps);
  }

  lemma Begin(msgs: seq<Bytes>)
    ensures Packs([], msgs) && Pack([], msgs) == [] && At([]) == 0
    ensures [] + FeedPlan(|msgs|) == FeedPlan(|msgs|) == Layout(0, |msgs|) + [Eos]
  {
  }

  /** Up to `want` messages from the feed; done when it runs out first. */
  method Gather(msgs: seq<Bytes>, next: nat, want: nat) returns (buf: seq<Bytes>, done: bool)
    requires next <= |msgs|
    ensures done <==> |msgs| - next < want
    ensures buf == Part(msgs, next, |buf|)
    ensures |buf| == if done then |msgs| - next else want
  {
    buf, done := [], false;
    for j := 0 to want
      invariant |buf| == j && next + j <= |msgs| && buf == msgs[next..next + j]
    {
      if next + j == |msgs| {
        done := true;
        return;
      }
      buf := buf + [msgs[next + j]];
    }
  }

  // ---- the packer's own check ----

  /** Every data packet a receiver sees starts at the number it expects. */
  function Continuous(ps: seq<Packet>): bool {
    ps == [] ||
    (var r, p := Run(ps[..|ps| - 1]), ps[|ps| - 1];
     Continuous(ps[..|ps| - 1]) && (r.ended || p.count == 0 || p.count == EOS || p.seqNo == r.expected))
  }

  lemma {:induction false} BreaksStay(ps: seq<Packet>, k: nat)
    requires k <= |ps| && !Continuous(ps[..k])
    ensures !Continuous(ps)
  {
    if k < |ps| {
      assert ps[..|ps| - 1][..k] == ps[..k];
      BreaksStay(ps[..|ps| - 1], k);
    } else {
      assert ps[..k] == ps;
    }
  }

  lemma {:induction false} EndedIsContinuous(ps: seq<Packet>, k: nat)
    requires k <= |ps| && Continuous(ps[..k]) && Run(ps[..k]).ended
    ensures Continuous(ps)
  {
    if k < |ps| {
      assert ps[..|ps| - 1][..k] == ps[..k];
      EndedStays(ps[..|ps| - 1], k);
      EndedIsContinuous(ps[..|ps| - 1], k);
    } else {
      assert ps[..k] == ps;
    }
  }

  /** `selfcheck`: it fails exactly on a data packet out of turn, and otherwise counts what is delivered. */
  method SelfCheckFeed(ps: seq<Packet>) returns (got: Option<nat>)
    requires forall i :: 0 <= i < |ps| ==> WellFormed(ps[i])
    ensures got.Some? <==> Continuous(ps)
    ensures got.Some? ==> got.value == |Delivered(Run(ps).lines)|
  {
    hide Delivered, Gaps, Messages;
    NothingChecked();
    var exp: nat, n: nat := 1, 0;
    var i := 0;
    while i < |ps|
      invariant 0 <= i <= |ps| && Continuous(ps[..i])
      invariant Run(ps[..i]).expected == exp && !Run(ps[..i]).ended && n == |Delivered(Run(ps[..i]).lines)|
    {
      ghost var r := Run(ps[..i]);
      var p := ps[i];
      assert ps[..i + 1][..i] == ps[..i];
      i := i + 1;
      if p.count == EOS {
        EndChecks(r.lines, p.seqNo);
        EndedStays(ps, i);
        EndedIsContinuous(ps, i);
        return Some(n);
      }
      StepChecks(r, p);
      if p.count == 0 {
        exp := if p.seqNo > exp then p.seqNo else exp;
        continue;
      }
      if p.seqNo != exp {
        BreaksStay(ps, i);
        return None;
      }
      n := n + p.count;
      exp := p.seqNo + p.count;
    }
    assert ps[..|ps|] == ps;
    got := Some(n);
  }

  lemma {:induction false} PlainIsContinuous(plan: seq<Item>, msgs: seq<Bytes>)
    requires Plain(plan) && At(plan) <= |msgs| && Packs(plan, msgs)
    ensures Continuous(Pack(plan, msgs)) && Run(Pack(plan, msgs)).expected == At(plan) + 1
  {
    PlainKeepsNothingBack(plan);
    OpenPlan(plan, msgs);
    hide Messages, Part, ItemPacks;
    if plan != [] {
      var front, it := plan[..|plan| - 1], plan[|plan| - 1];
      PlainIsContinuous(front, msgs);
      var ps := Pack(plan, msgs);
      assert ps[..|ps| - 1] == Pack(front, msgs);
    }
  }

  /** A packed feed passes the check, and the count it asserts is the number of messages. */
  lemma FeedPassesCheck(msgs: seq<Bytes>)
    requires Packs(FeedPlan(|msgs|), msgs)
    ensures Continuous(Pack(FeedPlan(|msgs|), msgs))
    ensures |Delivered(Run(Pack(FeedPlan(|msgs|), msgs)).lines)| == |msgs|
  {
    var live := Layout(0, |msgs|);
    LayoutShape(0, |msgs|);
    FeedArrives(msgs);
    hide Layout, Delivered, Run, Pack, At, Plain, Packs, ItemPacks;
    OneMorePacked(live, msgs, Eos);
    PlainIsContinuous(live, msgs);
    OneMoreContinuous(Pack(live, msgs), Packet(At(live) + 1, EOS, []));
  }

  lemma OneMoreContinuous(ps: seq<Packet>, p: Packet)
    requires Continuous(ps) && p.count == EOS
    ensures Continuous(ps + [p])
  {
    assert (ps + [p])[..|ps|] == ps;
  }

  // ---- when a feed can be packed ----

  predicate Small(msgs: seq<Bytes>) {
    forall i :: 0 <= i < |msgs| ==> |msgs[i]| <= 8187
  }

  lemma {:induction false} BlocksOfSmall(msgs: seq<Bytes>)
    requires Small(msgs)
    ensures Sized(msgs) && |Blocks(msgs)| <= 8189 * |msgs|
  {
    if msgs != [] {
      BlocksOfSmall(msgs[1..]);
      hide Small, U2;
      FirstBlock(msgs);
    }
  }

  lemma FirstBlock(msgs: seq<Bytes>)
    requires msgs != [] && Small(msgs) && Sized(msgs[1..])
    ensures Sized(msgs) && |Block(msgs[0])| <= 8189
  {
    hide U2;
    forall i | 0 <= i < |msgs|
      ensures |msgs[i]| < U16
    {
    }
  }

  /** Data packets of at most eight messages, as the pattern makes them. */
  predicate Short(plan: seq<Item>) {
    forall i :: 0 <= i < |plan| ==> plan[i] == Heartbeat || (plan[i].Data? && plan[i].n <= 8)
  }

  lemma {:induction false} LayoutShort(k: nat, left: nat)
    ensures Short(Layout(k, left))
    decreases left
  {
    if Want(k) <= left {
      LayoutShort(k + 1, left - Want(k));
    }
  }

  /** Messages of at most 8187 bytes, far above any ITCH message, always pack. */
  lemma SmallMessagesPack(msgs: seq<Bytes>)
    requires |msgs| + 1 < U64 && Small(msgs)
    ensures Packs(FeedPlan(|msgs|), msgs)
  {
    var live := Layout(0, |msgs|);
    LayoutShape(0, |msgs|);
    LayoutShort(0, |msgs|);
    hide Layout, Packs, Fits;
    ShortPacks(live, msgs);
    BeatFits(At(live) + 1);
    PackMore(live, msgs, Eos);
  }

  lemma SmallPacketFits(seqNo: nat, part: seq<Bytes>, n: nat)
    requires |part| <= n <= 8 && Small(part) && seqNo < U64
    ensures Fits(Packet(seqNo, n, part))
  {
    hide Blocks, Sized;
    BlocksOfSmall(part);
  }

  lemma SmallPart(msgs: seq<Bytes>, at: nat, n: nat)
    requires Small(msgs) && at + n <= |msgs|
    ensures Small(Part(msgs, at, n)) && |Part(msgs, at, n)| == n
  {
  }

  lemma {:induction false} ShortPacks(plan: seq<Item>, msgs: seq<Bytes>)
    requires Short(plan) && At(plan) <= |msgs| && |msgs| + 1 < U64 && Small(msgs)
    ensures Packs(plan, msgs)
  {
    if plan != [] {
      hide Fits, Small, Part;
      var front, it := plan[..|plan| - 1], plan[|plan| - 1];
      ShortPacks(front, msgs);
      if it.Data? {
        SmallPart(msgs, At(front), it.n);
        SmallPacketFits(At(front) + 1, Part(msgs, At(front), it.n), it.n);
      } else {
        BeatFits(At(front) + 1);
      }
    }
  }

  lemma BeatFits(seqNo: nat)
    requires seqNo < U64
    ensures Fits(Packet(seqNo, 0, [])) && Fits(Packet(seqNo, EOS, []))
  {
  }
}

/** The loops that number and frame what each side sends: the venue's replies, and the card's orders. */
module Generators {
  import opened Wrappers
  import opened BigEndian
  import opened ModArith
  import opened Ouch
  import opened Tokens
  import opened TcpFrame
  import opened Capture
  import opened RoundTrip
  import SoupBin

  // ---- replies ----

  /** Each reply once, in order; reply `i` acknowledges `i + 1` orders. */
  function ReplyItems(n: nat, ack: nat, ackBytes: nat): (items: seq<Item>)
    ensures |items| == n
    ensures forall i :: 0 <= i < n ==> items[i] == Part(i, ack + ackBytes * (i + 1), 0x7000 + i, true)
  {
    seq(n, (i: nat) => Part(i, ack + ackBytes * (i + 1), 0x7000 + i, true))
  }

  lemma AllInOrderArrive(payloads: seq<Bytes>, items: seq<Item>)
    requires |items| == |payloads| && forall i :: 0 <= i < |items| ==> items[i].Part? && items[i].i == i
    ensures AllArrive(payloads, items)
  {
    forall i | 0 <= i < |payloads|
      ensures Arrives(items, i)
    {
      assert items[i].Part?;
    }
  }

  /** `gen_session.main`: the frames of the replies in order, with sequence numbers that leave no gap; it raises
      exactly when a number outgrows its field. */
  method GenerateReplies(f: Flow, base: nat, ack: nat, ackBytes: nat, payloads: seq<Bytes>)
    returns (out: Option<seq<Bytes>>)
    ensures var items := ReplyItems(|payloads|, ack, ackBytes);
      if AllSound(f, base, payloads, items) then out == Some(Frames(f, base, payloads, items)) else out == None
  {
    hide Frames, ReplyFrame, Join, Buildable;
    ghost var items := ReplyItems(|payloads|, ack, ackBytes);
    var frames := [];
    var seqNo := base;
    NothingSent(f, base, payloads);
    for i := 0 to |payloads|
      invariant seqNo == SeqAt(base, payloads, i)
      invariant AllSound(f, base, payloads, items[..i]) && frames == Frames(f, base, payloads, items[..i])
    {
      var n := Numbers(seqNo, ack + ackBytes * (i + 1), 0x7000 + i);
      if !Buildable(f, n, payloads[i]) {
        assert !Sound(f, base, payloads, items[i]);
        return None;
      }
      assert Sound(f, base, payloads, items[i]);
      OneMoreFrame(f, base, payloads, items, i);
      frames := frames + [ReplyFrame(f, n, payloads[i])];
      seqNo := seqNo + |payloads[i]|;
      NextOffset(payloads, i);
    }
    assert items[..|items|] == items;
    out := Some(frames);
  }

  /** Frame `i` of the replies has a sequence number past all earlier payloads, acknowledges `i + 1` orders, and has
      the next identification. */
  lemma ReplyFrameIs(f: Flow, base: nat, ack: nat, ackBytes: nat, payloads: seq<Bytes>, i: nat)
    requires AllSound(f, base, payloads, ReplyItems(|payloads|, ack, ackBytes)) && i < |payloads|
    ensures var n := Numbers(base + |Join(payloads[..i])|, ack + ackBytes * (i + 1), 0x7000 + i);
      && Buildable(f, n, payloads[i])
      && |Frames(f, base, payloads, ReplyItems(|payloads|, ack, ackBytes))| == |payloads|
      && Frames(f, base, payloads, ReplyItems(|payloads|, ack, ackBytes))[i] == ReplyFrame(f, n, payloads[i])
  {
    hide ReplyFrame, Join, Buildable, Frames;
    var items := ReplyItems(|payloads|, ack, ackBytes);
    assert Sound(f, base, payloads, items[i]);
    FrameAt(f, base, payloads, items, i);
  }

  lemma {:induction false} FrameAt(f: Flow, base: nat, payloads: seq<Bytes>, items: seq<Item>, i: nat)
    requires AllSound(f, base, payloads, items) && i < |items|
    ensures |Frames(f, base, payloads, items)| == |items|
    ensures Frames(f, base, payloads, items)[i] == FrameOf(f, base, payloads, items[i])
  {
    hide FrameOf, Sound;
    if i < |items| - 1 {
      FrameAt(f, base, payloads, items[..|items| - 1], i);
    } else if 0 < i {
      FrameAt(f, base, payloads, items[..|items| - 1], 0);
    }
  }

  lemma NothingSent(f: Flow, base: nat, payloads: seq<Bytes>)
    ensures Frames(f, base, payloads, []) == [] && SeqAt(base, payloads, 0) == base
  {
  }

  lemma OneMoreFrame(f: Flow, base: nat, payloads: seq<Bytes>, items: seq<Item>, k: nat)
    requires k < |items| && AllSound(f, base, payloads, items[..k]) && Sound(f, base, payloads, items[k])
    ensures AllSound(f, base, payloads, items[..k + 1])
    ensures Frames(f, base, payloads, items[..k + 1])
         == Frames(f, base, payloads, items[..k]) + [FrameOf(f, base, payloads, items[k])]
  {
    assert items[..k + 1][..k] == items[..k];
  }

  // ---- orders ----

  /** Packet `i` of a run that starts at `base`: the numbers wrap in their fields. */
  function OrderNumbers(base: nat, ack: nat, ident: nat, payloads: seq<Bytes>, i: nat): Numbers
    requires i <= |payloads|
  {
    Numbers((base + Offset(payloads, i)) % U32, ack, (ident + i) % U16)
  }

  lemma AdvanceMod(x: nat, d: nat, m: nat)
    requires 0 < m
    ensures (x % m + d) % m == (x + d) % m
  {
    assert x + d == x % m + d + (x / m) * m;
    ModPlusMultiple(x % m + d, x / m, m);
  }

  /** `dump_tcp.main`: packet `i` carries the sequence number its predecessors' bytes bring it to, modulo 2^32. */
  method FrameOrders(f: Flow, base: nat, ack: nat, ident: nat, payloads: seq<Bytes>) returns (out: Option<seq<Bytes>>)
    requires OnWire(f) && base < U32 && ack < U32 && ident < U16
    ensures out.Some? <==> forall i :: 0 <= i < |payloads| ==> 40 + |payloads[i]| < U16
    ensures out.Some? ==> |out.value| == |payloads|
    ensures out.Some? ==> forall i :: 0 <= i < |payloads| ==>
      && Buildable(f, OrderNumbers(base, ack, ident, payloads, i), payloads[i])
      && out.value[i] == OrderFrame(f, OrderNumbers(base, ack, ident, payloads, i), payloads[i])
  {
    hide OrderFrame, Join;
    var frames := [];
    var seqNo: nat, id: nat := base, ident;
    Start(base, ack, ident, payloads);
    for i := 0 to |payloads|
      invariant |frames| == i && forall k :: 0 <= k < i ==> 40 + |payloads[k]| < U16
      invariant Numbers(seqNo, ack, id) == OrderNumbers(base, ack, ident, payloads, i)
      invariant forall k :: 0 <= k < i ==>
        && Buildable(f, OrderNumbers(base, ack, ident, payloads, k), payloads[k])
        && frames[k] == OrderFrame(f, OrderNumbers(base, ack, ident, payloads, k), payloads[k])
    {
      if 40 + |payloads[i]| >= U16 {
        return None;
      }
      frames := frames + [OrderFrame(f, Numbers(seqNo, ack, id), payloads[i])];
      Advance(base, ack, ident, payloads, i);
      seqNo := (seqNo + |payloads[i]|) % U32;
      id := (id + 1) % U16;
    }
    out := Some(frames);
  }

  lemma Start(base: nat, ack: nat, ident: nat, payloads: seq<Bytes>)
    requires base < U32 && ident < U16
    ensures OrderNumbers(base, ack, ident, payloads, 0) == Numbers(base, ack, ident)
  {
  }

  lemma Advance(base: nat, ack: nat, ident: nat, payloads: seq<Bytes>, i: nat)
    requires i < |payloads|
    ensures var n := OrderNumbers(base, ack, ident, payloads, i);
      OrderNumbers(base, ack, ident, payloads, i + 1)
      == Numbers((n.seqNo + |payloads[i]|) % U32, ack, (n.ident + 1) % U16)
  {
    NextOffset(payloads, i);
    AdvanceMod(base + Offset(payloads, i), |payloads[i]|, U32);
    AdvanceMod(ident + i, 1, U16);
  }

  // ---- order packets ----

  datatype Intended = Intended(buy: bool, qty: nat, price: nat)
  datatype Names = Names(stock: Bytes, firm: Bytes, prefix: Bytes)

  const ATTRIBUTABLE: Bytes := ['A' as int]
  const PRINCIPAL: Bytes := ['P' as int]
  const NO: Bytes := ['N' as int]

  /** The order the packet stands for, as the host's encoder would be given it. */
  function CardOrder(count: nat, t: Intended, names: Names): Order {
    Order(Token(names.prefix, count), t.buy, t.qty, names.stock, t.price, 0, names.firm, ATTRIBUTABLE, PRINCIPAL, NO, 0,
          NO, NO)
  }

  function BuildFields(count: nat, t: Intended, names: Names): seq<Bytes>
    requires t.qty < U32 && t.price < U32
  {
    [[ENTER_ORDER], Token(names.prefix, count), Side(t.buy), U4(t.qty), Pad(names.stock, 8), U4(t.price), U4(0),
     Pad(names.firm, 4), ATTRIBUTABLE, PRINCIPAL, NO, U4(0), NO, NO]
  }

  /** `dump_ouch.build`: fails on a number over 32 bits, and on a body that is not 49 bytes. */
  function Build(count: nat, t: Intended, names: Names): Option<Bytes> {
    if t.qty >= U32 || t.price >= U32 then None
    else
      var body := Join(BuildFields(count, t, names));
      if |body| != 49 then None else Some(SoupBin.Pack(SoupBin.UNSEQUENCED_DATA, body))
  }

  lemma FieldsMatch(count: nat, t: Intended, names: Names)
    requires t.qty < U32 && t.price < U32
    ensures Encodable(CardOrder(count, t, names)) && |EnterFields(CardOrder(count, t, names))[1]| == 14
    ensures BuildFields(count, t, names)
         == EnterFields(CardOrder(count, t, names))[1 := Token(names.prefix, count)]
    ensures |Token(names.prefix, count)| == 14 ==>
      EnterFields(CardOrder(count, t, names)) == BuildFields(count, t, names)
  {
    hide Pad, U4, Side, Token;
    if |Token(names.prefix, count)| == 14 {
      PadExact(Token(names.prefix, count), 14);
    }
  }

  /** The card's packet is byte for byte the host encoder's order in an unsequenced packet, and it can be built
      exactly while the counter, quantity and price fit 32 bits. */
  lemma BuildIsEnterOrder(count: nat, t: Intended, names: Names)
    ensures Build(count, t, names).Some? <==> count < U32 && t.qty < U32 && t.price < U32
    ensures Build(count, t, names).Some? ==>
      Encodable(CardOrder(count, t, names)) && |EnterOrder(CardOrder(count, t, names))| == 49
      && Build(count, t, names) == Some(SoupBin.Pack(SoupBin.UNSEQUENCED_DATA, EnterOrder(CardOrder(count, t, names))))
  {
    if t.qty < U32 && t.price < U32 {
      var o := CardOrder(count, t, names);
      FieldsMatch(count, t, names);
      hide CardOrder, BuildFields, EnterFields, Token, Pad, Join, SoupBin.Pack, Encodable;
      TokenFitsIff(names.prefix, count);
      EnterOrderRoundTrip(o);
      assert |EnterFields(o)| > 1;
      SwapToken(EnterFields(o), Token(names.prefix, count));
    }
  }

  lemma SwapToken(s: seq<Bytes>, token: Bytes)
    requires 1 < |s|
    ensures |Join(s[1 := token])| == |Join(s)| - |s[1]| + |token|
  {
    SplitAt(s, 1);
    SplitAt(s[1 := token], 1);
    assert s[1 := token][..1] == s[..1] && s[1 := token][2..] == s[2..];
  }

  /** `dump_ouch.main`: the counter numbers the orders from zero, and one that cannot be built stops the run. */
  method BuildAll(ts: seq<Intended>, names: Names) returns (out: Option<seq<Bytes>>)
    ensures out.Some? <==> forall i :: 0 <= i < |ts| ==> Build(i, ts[i], names).Some?
    ensures out.Some? ==> |out.value| == |ts|
    ensures out.Some? ==> forall i :: 0 <= i < |ts| ==> Build(i, ts[i], names) == Some(out.value[i])
  {
    hide Build;
    var packets := [];
    for i := 0 to |ts|
      invariant |packets| == i && forall k :: 0 <= k < i ==> Build(k, ts[k], names) == Some(packets[k])
    {
      var p := Build(i, ts[i], names);
      if p == None {
        return None;
      }
      packets := packets + [p.value];
    }
    out := Some(packets);
  }

  predicate Buildables(ts: seq<Intended>) {
    forall i :: 0 <= i < |ts| ==> Fits(i, ts[i])
  }

  predicate Fits(count: nat, t: Intended) {
    count < U32 && t.qty < U32 && t.price < U32
  }

  function CardBody(count: nat, t: Intended, names: Names): (b: Bytes)
    requires Fits(count, t)
    ensures |b| == 49
  {
    BuildIsEnterOrder(count, t, names);
    EnterOrder(CardOrder(count, t, names))
  }

  lemma BuiltPacket(count: nat, t: Intended, names: Names)
    requires Fits(count, t)
    ensures Build(count, t, names) == Some(SoupBin.Pack(SoupBin.UNSEQUENCED_DATA, CardBody(count, t, names)))
  {
    hide Build, EnterOrder, SoupBin.Pack;
    BuildIsEnterOrder(count, t, names);
  }

  function CardBodies(ts: seq<Intended>, names: Names): (bs: seq<Bytes>)
    requires Buildables(ts)
    ensures |bs| == |ts| && SoupBin.Framable(bs)
    ensures forall i :: 0 <= i < |ts| ==> bs[i] == CardBody(i, ts[i], names)
  {
    seq(|ts|, i requires 0 <= i < |ts| => CardBody(i, ts[i], names))
  }

  /** The packets that are built are those bodies in unsequenced packets. */
  lemma {:induction false} BuiltPackets(ts: seq<Intended>, names: Names, packets: seq<Bytes>)
    requires Buildables(ts) && |packets| == |ts|
    requires forall i :: 0 <= i < |ts| ==> Build(i, ts[i], names) == Some(packets[i])
    ensures packets == SoupBin.PackEach(SoupBin.UNSEQUENCED_DATA, CardBodies(ts, names))
  {
    hide Build, CardBody, SoupBin.Pack;
    if ts != [] {
      var i := |ts| - 1;
      BuiltPackets(ts[..i], names, packets[..i]);
      BuiltPacket(i, ts[i], names);
      assert CardBodies(ts, names)[..i] == CardBodies(ts[..i], names);
    }
  }

  function OrderItems(n: nat, ack: nat, ident: nat): (items: seq<Item>)
    ensures |items| == n && forall i :: 0 <= i < n ==> items[i] == Part(i, ack, (ident + i) % U16, false)
  {
    seq(n, (i: nat) => Part(i, ack, (ident + i) % U16, false))
  }

  /** While the sequence numbers do not wrap, what `dump_tcp` emits is a capture of the payloads in order. */
  lemma FramedOrders(f: Flow, base: nat, ack: nat, ident: nat, payloads: seq<Bytes>, frames: seq<Bytes>)
    requires base + |Join(payloads)| <= U32 && AllSent(payloads) && |frames| == |payloads|
    requires forall i :: 0 <= i < |payloads| ==>
      && Buildable(f, OrderNumbers(base, ack, ident, payloads, i), payloads[i])
      && frames[i] == OrderFrame(f, OrderNumbers(base, ack, ident, payloads, i), payloads[i])
    ensures AllSound(f, base, payloads, OrderItems(|payloads|, ack, ident))
    ensures frames == Frames(f, base, payloads, OrderItems(|payloads|, ack, ident))
  {
    hide OrderFrame, Join, Buildable, Offset;
    var items := OrderItems(|payloads|, ack, ident);
    forall i | 0 <= i < |items|
      ensures Sound(f, base, payloads, items[i]) && frames[i] == FrameOf(f, base, payloads, items[i])
    {
      NoWrap(base, payloads, i);
    }
    FramesElementwise(f, base, payloads, items, frames);
  }

  lemma NoWrap(base: nat, payloads: seq<Bytes>, i: nat)
    requires base + |Join(payloads)| <= U32 && AllSent(payloads) && i < |payloads|
    ensures (base + Offset(payloads, i)) % U32 == SeqAt(base, payloads, i)
  {
    FieldAt(payloads, i);
    assert payloads[i] != [];
  }

  lemma {:induction false} FramesElementwise(f: Flow, base: nat, payloads: seq<Bytes>, items: seq<Item>, frames: seq<Bytes>)
    requires AllSound(f, base, payloads, items) && |frames| == |items|
    requires forall i :: 0 <= i < |items| ==> frames[i] == FrameOf(f, base, payloads, items[i])
    ensures frames == Frames(f, base, payloads, items)
  {
    hide FrameOf, Sound;
    if items != [] {
      FramesElementwise(f, base, payloads, items[..|items| - 1], frames[..|items| - 1]);
    }
  }

  /** The card's orders, framed and captured in any order with any duplicates, are de-framed and parsed back to the
      orders that were intended, each once, in order, with their distinct tokens. */
  lemma OrdersRoundTrip(f: Flow, base: nat, ts: seq<Intended>, names: Names, items: seq<Item>)
    requires Buildables(ts)
    requires AllSound(f, base, SoupBin.PackEach(SoupBin.UNSEQUENCED_DATA, CardBodies(ts, names)), items)
    requires AllArrive(SoupBin.PackEach(SoupBin.UNSEQUENCED_DATA, CardBodies(ts, names)), items)
    ensures var frames := Frames(f, base, SoupBin.PackEach(SoupBin.UNSEQUENCED_DATA, CardBodies(ts, names)), items);
      match Inbound(frames, f.dstIp)
      case None => false
      case Some(segs) =>
        && SoupBin.Packets(DataOf(segs)) == SoupBin.EachPacket(SoupBin.UNSEQUENCED_DATA, CardBodies(ts, names))
        && Complete(segs) && SoupBin.Rest(DataOf(segs)) == []
    ensures forall i :: 0 <= i < |ts| ==> ReadsAs(CardBodies(ts, names)[i], i, ts[i], names)
  {
    hide Buildables, AllSound, AllArrive, SoupBin.PackEach, CardBodies, Frames, Inbound, DataOf, Complete,
      SoupBin.Packets, SoupBin.Rest, SoupBin.EachPacket, ReadsAs;
    var payloads := SoupBin.PackEach(SoupBin.UNSEQUENCED_DATA, CardBodies(ts, names));
    OrdersRead(ts, names);
    SoupBin.PacketsOfEach(SoupBin.UNSEQUENCED_DATA, CardBodies(ts, names));
    InboundIsSegments(f, base, payloads, items);
    CaptureIsSource(base, payloads, items);
  }

  /** The venue reads order `count` of the card in this body: the intended side, quantity and price under the counter's
      token, the names as their fields hold them, and the fixed fields. */
  ghost predicate ReadsAs(body: Bytes, count: nat, t: Intended, names: Names) {
    && ParseEnterOrder(body).Some?
    && var o := ParseEnterOrder(body).value;
       && o.token == Token(names.prefix, count) && o.buy == t.buy && o.shares == t.qty && o.price == t.price
       && o.stock == Strip(Cut(names.stock, 8)) && o.firm == Strip(Cut(names.firm, 4)) && o.tif == 0 && o.minQty == 0
       && o.display == ['A' as int] && o.capacity == ['P' as int]
       && o.sweep == o.cross == o.cust == ['N' as int]
  }

  lemma OrdersRead(ts: seq<Intended>, names: Names)
    requires Buildables(ts)
    ensures forall i :: 0 <= i < |ts| ==> ReadsAs(CardBodies(ts, names)[i], i, ts[i], names)
  {
    hide ReadsAs, CardBody;
    forall i | 0 <= i < |ts|
      ensures ReadsAs(CardBodies(ts, names)[i], i, ts[i], names)
    {
      OrderReads(i, ts[i], names);
    }
  }

  lemma OrderReads(count: nat, t: Intended, names: Names)
    requires Fits(count, t)
    ensures ReadsAs(CardBody(count, t, names), count, t, names)
  {
    BuildIsEnterOrder(count, t, names);
    hide ParseEnterOrder, EnterOrder, Strip, Pad, Token;
    TokenFitsIff(names.prefix, count);
    EnterOrderRoundTrip(CardOrder(count, t, names));
  }

  /** The bytes the card emits for an order. */
  lemma BuiltBytes(count: nat, t: Intended, names: Names)
    requires Fits(count, t)
    ensures Build(count, t, names).Some?
    ensures var b := Build(count, t, names).value;
      && |b| == 52 && b[0..2] == U2(50) && b[2..3] == ['U' as int]
      && PlainBody(b[3..], Token(names.prefix, count), t.buy, t.qty, names.stock, t.price, names.firm)
  {
    BuildIsEnterOrder(count, t, names);
    EnterLayout(CardOrder(count, t, names));
    hide Build, EnterOrder, Pad, Token, U4;
    BodyPacked(EnterOrder(CardOrder(count, t, names)));
  }

  lemma BodyPacked(body: Bytes)
    requires |body| == 49
    ensures var b := SoupBin.Pack(SoupBin.UNSEQUENCED_DATA, body);
      |b| == 52 && b[0..2] == U2(50) && b[2..3] == [SoupBin.UNSEQUENCED_DATA] && b[3..] == body
  {
    hide Enc;
  }

  lemma {:induction false} JoinOfEqual(s: seq<Bytes>, len: nat)
    requires forall i :: 0 <= i < |s| ==> |s[i]| == len
    ensures |Join(s)| == len * |s|
  {
    if s != [] {
      JoinOfEqual(s[..|s| - 1], len);
    }
  }

  lemma PacketSizes(ts: seq<Intended>, names: Names)
    requires Buildables(ts)
    ensures var payloads := SoupBin.PackEach(SoupBin.UNSEQUENCED_DATA, CardBodies(ts, names));
      && |payloads| == |ts| && AllSent(payloads) && |Join(payloads)| == 52 * |ts|
      && forall i :: 0 <= i < |payloads| ==> |payloads[i]| == 52
  {
    hide Join, CardBody;
    JoinOfEqual(SoupBin.PackEach(SoupBin.UNSEQUENCED_DATA, CardBodies(ts, names)), 52);
  }

  /** From the strategy's orders to the wire: built, numbered and framed, while the sequence numbers do not wrap, they
      are de-framed as exactly the order packets, complete and with nothing left over. */
  method SendOrders(f: Flow, base: nat, ack: nat, ident: nat, ts: seq<Intended>, names: Names)
    returns (frames: seq<Bytes>)
    requires OnWire(f) && base < U32 && ack < U32 && ident < U16
    requires Buildables(ts) && base + 52 * |ts| <= U32
    ensures match Inbound(frames, f.dstIp)
      case None => false
      case Some(segs) =>
        && SoupBin.Packets(DataOf(segs)) == SoupBin.EachPacket(SoupBin.UNSEQUENCED_DATA, CardBodies(ts, names))
        && Complete(segs) && SoupBin.Rest(DataOf(segs)) == []
  {
    hide Buildable, Build, CardBodies, OrderFrame, Frames, Inbound, DataOf, Complete, Join, Offset, OrderNumbers,
      SoupBin.PackEach, SoupBin.Packets, SoupBin.Rest, SoupBin.EachPacket, AllSound, AllArrive;
    forall i | 0 <= i < |ts|
      ensures Build(i, ts[i], names).Some?
    {
      BuiltPacket(i, ts[i], names);
    }
    var packets := BuildAll(ts, names);
    BuiltPackets(ts, names, packets.value);
    PacketSizes(ts, names);
    var framed := FrameOrders(f, base, ack, ident, packets.value);
    frames := framed.value;
    FramedOrders(f, base, ack, ident, packets.value, frames);
    var items := OrderItems(|ts|, ack, ident);
    AllInOrderArrive(packets.value, items);
    OrdersRoundTrip(f, base, ts, names, items);
  }
}

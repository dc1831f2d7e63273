/** The capture decoder end to end: frames to printed lines, and the replies it must give back. */
module SessionDump {
  import opened Wrappers
  import opened BigEndian
  import opened Ouch
  import opened Capture
  import opened RoundTrip
  import TcpFrame
  import Generators
  import SoupBin

  datatype Line =
    | AcceptedLine(token: Bytes, buy: bool, shares: nat, stock: Bytes, price: nat, orderRef: nat)
    | ExecutedLine(token: Bytes, shares: nat, price: nat, matchRef: nat)
    | RejectedLine(token: Bytes, reason: Bytes)
    | UnknownLine(mtype: Bytes, len: nat)
    | SoupLine(ptype: Bytes)

  /** One line per OUCH message; none where a parser raises on a short body. */
  function Describe(body: Bytes): Option<Line> {
    var t := Cut(body, 1);
    if t == [ORDER_ACCEPTED] then
      match ParseOrderAccepted(body)
      case None => None
      case Some(m) => Some(AcceptedLine(Strip(m.token), m.buy, m.shares, m.stock, m.price, m.orderRef))
    else if t == [EXECUTED] then
      match ParseExecuted(body)
      case None => None
      case Some(m) => Some(ExecutedLine(Strip(m.token), m.shares, m.price, m.matchRef))
    else if t == [REJECTED] then Some(RejectedLine(Strip(Slice(body, 1, 14)), Slice(body, 15, 1)))
    else Some(UnknownLine(t, |body|))
  }

  /** The lines one packet prints. */
  function LinesOf(p: SoupBin.Packet): Option<seq<Line>> {
    if p.ptype == [SoupBin.SEQUENCED_DATA] then
      match Describe(p.payload)
      case None => None
      case Some(l) => Some([l])
    else if p.ptype == [SoupBin.SERVER_HEARTBEAT] then Some([])
    else Some([SoupLine(p.ptype)])
  }

  function AllLines(ps: seq<SoupBin.Packet>): Option<seq<Line>> {
    if ps == [] then Some([])
    else
      match AllLines(ps[..|ps| - 1])
      case None => None
      case Some(ls) =>
        match LinesOf(ps[|ps| - 1])
        case None => None
        case Some(l) => Some(ls + l)
  }

  lemma {:induction false} RaisedStays(ps: seq<SoupBin.Packet>, k: nat)
    requires k <= |ps| && AllLines(ps[..k]) == None
    ensures AllLines(ps) == None
  {
    if k < |ps| {
      assert ps[..|ps| - 1][..k] == ps[..k];
      RaisedStays(ps[..|ps| - 1], k);
    } else {
      assert ps[..k] == ps;
    }
  }

  /** `main`: extract, reassemble, de-frame, describe. The status is zero exactly for a capture with no hole and
      no partial packet left over. */
  method Dump(frames: seq<Bytes>, localIp: nat) returns (lines: Option<seq<Line>>, status: nat)
    ensures match Inbound(frames, localIp)
      case None => lines == None
      case Some(segs) =>
        && lines == AllLines(SoupBin.Packets(DataOf(segs)))
        && (lines.Some? ==> (status == 0 <==> Complete(segs) && SoupBin.Rest(DataOf(segs)) == []))
  {
    hide Inbound, DataOf, Complete, SoupBin.Packets, SoupBin.Rest, LinesOf;
    status := 1;
    var segs := InboundSegments(frames, localIp);
    if segs == None {
      return None, status;
    }
    var data, holes := Stream(segs.value);
    var rd := new SoupBin.Reader();
    rd.Feed(data);
    assert [] + data == data;
    var ps := rd.Drain();
    var out := [];
    for i := 0 to |ps|
      invariant AllLines(ps[..i]) == Some(out)
    {
      assert ps[..i + 1][..i] == ps[..i];
      match LinesOf(ps[i])
      case None =>
        RaisedStays(ps, i + 1);
        return None, status;
      case Some(l) => out := out + l;
    }
    assert ps[..|ps|] == ps;
    lines := Some(out);
    if holes == [] && rd.buf == [] {
      status := 0;
    }
  }

  // ---- the replies a venue sends ----

  datatype Reply = AcceptReply(a: Accepted) | FillReply(e: Fill) | RejectReply(token: Bytes, reason: Bytes)

  predicate Sendable(r: Reply) {
    match r
    case AcceptReply(a) => AcceptedEncodable(a)
    case FillReply(e) => FillEncodable(e)
    case RejectReply(_, reason) => |reason| < 0xFF00
  }

  function Body(r: Reply): (b: Bytes)
    requires Sendable(r)
    ensures |b| < 0xFFFF
  {
    match r
    case AcceptReply(a) => AcceptedLayout(a); OrderAccepted(a)
    case FillReply(e) => ExecutedRoundTrip(e); Executed(e)
    case RejectReply(token, reason) => [REJECTED] + Pad(token, 14) + reason
  }

  /** What the decoder must print for a reply: names without outer blanks and cut to their field. */
  function Shown(r: Reply): Line {
    match r
    case AcceptReply(a) =>
      AcceptedLine(Strip(Cut(a.token, 14)), a.buy, a.shares, Strip(Cut(a.stock, 8)), a.price, a.orderRef)
    case FillReply(e) => ExecutedLine(Strip(Cut(e.token, 14)), e.shares, e.price, e.matchRef)
    case RejectReply(token, reason) => RejectedLine(Strip(Cut(token, 14)), Cut(reason, 1))
  }

  predicate AllSendable(rs: seq<Reply>) {
    forall i :: 0 <= i < |rs| ==> Sendable(rs[i])
  }

  function Bodies(rs: seq<Reply>): (bs: seq<Bytes>)
    requires AllSendable(rs)
    ensures |bs| == |rs| && SoupBin.Framable(bs)
    ensures forall i :: 0 <= i < |rs| ==> bs[i] == Body(rs[i])
  {
    if rs == [] then [] else Bodies(rs[..|rs| - 1]) + [Body(rs[|rs| - 1])]
  }

  function ShownAll(rs: seq<Reply>): seq<Line> {
    if rs == [] then [] else ShownAll(rs[..|rs| - 1]) + [Shown(rs[|rs| - 1])]
  }

  lemma DescribeBody(r: Reply)
    requires Sendable(r)
    ensures Describe(Body(r)) == Some(Shown(r))
  {
    match r
    case AcceptReply(a) =>
      AcceptedRoundTrip(a);
      StripOfPad(a.token, 14);
      hide OrderAccepted, ParseOrderAccepted, Strip, Pad;
      assert Cut(Body(r), 1) == [ORDER_ACCEPTED];
    case FillReply(e) =>
      ExecutedRoundTrip(e);
      StripOfPad(e.token, 14);
      hide Executed, ParseExecuted, Strip, Pad;
      assert Cut(Body(r), 1) == [EXECUTED];
    case RejectReply(token, reason) =>
      StripOfPad(token, 14);
      hide Strip, Pad;
      var b := Body(r);
      assert Cut(b, 1) == [REJECTED];
      assert b[1..15] == Pad(token, 14) && b[15..] == reason;
      assert Slice(b, 15, 1) == Cut(reason, 1);
  }

  /** The lines of replies, field by field. */
  ghost predicate LineTells(l: Line, r: Reply) {
    match r
    case AcceptReply(a) =>
      && l.AcceptedLine? && l.token == Strip(Cut(a.token, 14)) && l.buy == a.buy && l.shares == a.shares
      && l.stock == Strip(Cut(a.stock, 8)) && l.price == a.price && l.orderRef == a.orderRef
    case FillReply(e) =>
      && l.ExecutedLine? && l.token == Strip(Cut(e.token, 14)) && l.shares == e.shares && l.price == e.price
      && l.matchRef == e.matchRef
    case RejectReply(token, reason) =>
      l.RejectedLine? && l.token == Strip(Cut(token, 14)) && l.reason == Cut(reason, 1)
  }

  lemma {:induction false} ShownTell(rs: seq<Reply>)
    ensures |ShownAll(rs)| == |rs| && forall i :: 0 <= i < |rs| ==> LineTells(ShownAll(rs)[i], rs[i])
  {
    if rs != [] {
      ShownTell(rs[..|rs| - 1]);
      hide LineTells, Shown;
      OneTells(rs[|rs| - 1]);
    }
  }

  /** What the other packets print: a heartbeat nothing, one of another type a line with its type, an OUCH message of
      another type a line with its type and length. */
  lemma OtherLines(p: SoupBin.Packet)
    ensures p.ptype == ['H' as int] ==> LinesOf(p) == Some([])
    ensures p.ptype != ['H' as int] && p.ptype != ['S' as int] ==> LinesOf(p) == Some([SoupLine(p.ptype)])
    ensures p.ptype == ['S' as int] && (p.payload == [] || p.payload[0] !in ['A' as int, 'E' as int, 'J' as int]) ==>
      LinesOf(p) == Some([UnknownLine(Cut(p.payload, 1), |p.payload|)])
  {
  }

  lemma OneTells(r: Reply)
    ensures LineTells(Shown(r), r)
  {
  }

  lemma {:induction false} LinesOfBodies(rs: seq<Reply>)
    requires AllSendable(rs)
    ensures AllLines(SoupBin.EachPacket(SoupBin.SEQUENCED_DATA, Bodies(rs))) == Some(ShownAll(rs))
  {
    hide Describe, Body, Shown;
    if rs != [] {
      var front := rs[..|rs| - 1];
      LinesOfBodies(front);
      DescribeBody(rs[|rs| - 1]);
      var ps := SoupBin.EachPacket(SoupBin.SEQUENCED_DATA, Bodies(rs));
      assert ps[..|ps| - 1] == SoupBin.EachPacket(SoupBin.SEQUENCED_DATA, Bodies(front));
    }
  }

  /** End to end: for any list of replies, framed and captured in any order with any duplicates, among any frames
      addressed elsewhere, the decoder prints exactly one line per reply in sending order, and its status is
      zero. */
  lemma RepliesRoundTrip(f: TcpFrame.Flow, base: nat, rs: seq<Reply>, items: seq<Item>)
    requires AllSendable(rs)
    requires AllSound(f, base, SoupBin.PackEach(SoupBin.SEQUENCED_DATA, Bodies(rs)), items)
    requires AllArrive(SoupBin.PackEach(SoupBin.SEQUENCED_DATA, Bodies(rs)), items)
    ensures var frames := Frames(f, base, SoupBin.PackEach(SoupBin.SEQUENCED_DATA, Bodies(rs)), items);
      match Inbound(frames, f.dstIp)
      case None => false
      case Some(segs) =>
        && AllLines(SoupBin.Packets(DataOf(segs))) == Some(ShownAll(rs))
        && Complete(segs) && SoupBin.Rest(DataOf(segs)) == []
  {
    var payloads := SoupBin.PackEach(SoupBin.SEQUENCED_DATA, Bodies(rs));
    hide AllSendable, AllSound, AllArrive, SoupBin.PackEach, Bodies, Frames, Inbound, DataOf, Complete, AllLines,
      ShownAll, SoupBin.Packets, SoupBin.Rest, SoupBin.EachPacket;
    SoupBin.PacketsOfEach(SoupBin.SEQUENCED_DATA, Bodies(rs));
    InboundIsSegments(f, base, payloads, items);
    CaptureIsSource(base, payloads, items);
    LinesOfBodies(rs);
  }

  /** In particular the generator's own frames, in the order it writes them. */
  lemma GeneratedRepliesDecode(f: TcpFrame.Flow, base: nat, ack: nat, ackBytes: nat, rs: seq<Reply>)
    requires AllSendable(rs)
    requires AllSound(f, base, SoupBin.PackEach(SoupBin.SEQUENCED_DATA, Bodies(rs)),
                      Generators.ReplyItems(|rs|, ack, ackBytes))
    ensures var frames := Frames(f, base, SoupBin.PackEach(SoupBin.SEQUENCED_DATA, Bodies(rs)),
                                 Generators.ReplyItems(|rs|, ack, ackBytes));
      match Inbound(frames, f.dstIp)
      case None => false
      case Some(segs) => AllLines(SoupBin.Packets(DataOf(segs))) == Some(ShownAll(rs)) && Complete(segs)
  {
    hide AllSendable, AllSound, AllArrive, SoupBin.PackEach, Bodies, Frames, Inbound, DataOf, Complete, AllLines,
      ShownAll, SoupBin.Packets, SoupBin.Rest;
    var payloads := SoupBin.PackEach(SoupBin.SEQUENCED_DATA, Bodies(rs));
    Generators.AllInOrderArrive(payloads, Generators.ReplyItems(|rs|, ack, ackBytes));
    RepliesRoundTrip(f, base, rs, Generators.ReplyItems(|rs|, ack, ackBytes));
  }

  /** The generator's own golden line, with the stock as it was given. */
  function Golden(a: Accepted): Line {
    AcceptedLine(Strip(a.token), a.buy, a.shares, a.stock, a.price, a.orderRef)
  }

  /** The printed line is the golden one exactly when the stock fits its field and has no outer blanks; the
      generator's tokens are always fourteen bytes. */
  lemma GoldenIff(a: Accepted)
    requires |a.token| == 14
    ensures Shown(AcceptReply(a)) == Golden(a) <==> a.stock == Strip(Cut(a.stock, 8))
  {
  }
}

/** What the capture decoder takes from a buffer of frames: the TCP payloads addressed to the card. */
module Capture {
  import opened Wrappers
  import opened BigEndian
  import opened Checksum
  import opened Reassembly
  import opened TcpFrame

  datatype Extraction = Skipped | IndexError | Taken(seg: Segment)

  /** One turn of `inbound_segments`. The payload length comes from the IP total length; the slice taken is
      shorter when the frame is. */
  function Extract(fr: Bytes, localIp: nat): Extraction {
    if |fr| < 54 || fr[12] != 0x08 || fr[13] != 0x00 then Skipped
    else
      var ihl := fr[14] % 16 * 4;
      if fr[23] != 6 || Dec(fr[30..34]) != localIp then Skipped
      else
        var tcpOff := 14 + ihl;
        if tcpOff + 12 >= |fr| then IndexError
        else
          var doff := fr[tcpOff + 12] / 16 * 4;
          var payLen := Dec(fr[16..18]) - ihl - doff;
          if payLen <= 0 then Skipped
          else Taken(Segment(Dec(fr[tcpOff + 4..tcpOff + 8]), Slice(fr, tcpOff + doff, payLen)))
  }

  /** `b[at:at + len]`, which stops at the end of `b`. */
  function Slice(b: Bytes, at: nat, len: nat): Bytes {
    if |b| <= at then [] else if |b| < at + len then b[at..] else b[at..at + len]
  }

  /** The segments of the frames before the first one that raises. */
  function Inbound(frames: seq<Bytes>, localIp: nat): Option<seq<Segment>> {
    if frames == [] then Some([])
    else
      match Inbound(frames[..|frames| - 1], localIp)
      case None => None
      case Some(segs) =>
        match Extract(frames[|frames| - 1], localIp)
        case IndexError => None
        case Skipped => Some(segs)
        case Taken(s) => Some(segs + [s])
  }

  method InboundSegments(frames: seq<Bytes>, localIp: nat) returns (out: Option<seq<Segment>>)
    ensures out == Inbound(frames, localIp)
  {
    hide Extract;
    var segs := [];
    for i := 0 to |frames|
      invariant Inbound(frames[..i], localIp) == Some(segs)
    {
      assert frames[..i + 1][..i] == frames[..i];
      match Extract(frames[i], localIp)
      case Skipped =>
      case Taken(s) => segs := segs + [s];
      case IndexError =>
        RaisedStays(frames, i + 1, localIp);
        return None;
    }
    assert frames[..|frames|] == frames;
    out := Some(segs);
  }

  lemma {:induction false} RaisedStays(frames: seq<Bytes>, k: nat, localIp: nat)
    requires k <= |frames| && Inbound(frames[..k], localIp) == None
    ensures Inbound(frames, localIp) == None
  {
    if k < |frames| {
      assert frames[..|frames| - 1][..k] == frames[..k];
      RaisedStays(frames[..|frames| - 1], k, localIp);
    } else {
      assert frames[..k] == frames;
    }
  }

  // ---- what the builders put where ----

  function FrameFields(f: Flow, n: Numbers, payload: Bytes, ipSum: nat, tcpSum: nat, pad: Bytes): seq<Bytes>
    requires Buildable(f, n, payload) && ipSum < U16 && tcpSum < U16
  {
    [f.dstMac, f.srcMac, [0x08, 0x00]] + IpFields(f, 40 + |payload|, n.ident, ipSum) + TcpFields(f, n, tcpSum)
    + [payload, pad]
  }

  lemma FramesAreFields(f: Flow, n: Numbers, payload: Bytes, ip: Bytes, tcp: Bytes, ipSum: nat, tcpSum: nat, pad: Bytes)
    requires Buildable(f, n, payload) && ipSum < U16 && tcpSum < U16
    requires ip == Join(IpFields(f, 40 + |payload|, n.ident, ipSum)) && tcp == Join(TcpFields(f, n, tcpSum))
    ensures f.dstMac + f.srcMac + [0x08, 0x00] + ip + tcp + payload + pad
         == Join(FrameFields(f, n, payload, ipSum, tcpSum, pad))
  {
    hide IpFields, TcpFields, U2, U4;
    var eth, tail := [f.dstMac, f.srcMac, [0x08, 0x00]], [payload, pad];
    JoinThree(f.dstMac, f.srcMac, [0x08, 0x00]);
    JoinPair(payload, pad);
    hide Join;
    var i, t := IpFields(f, 40 + |payload|, n.ident, ipSum), TcpFields(f, n, tcpSum);
    JoinAppend(eth, i);
    JoinAppend(eth + i, t);
    JoinAppend(eth + i + t, tail);
  }

  lemma JoinThree(a: Bytes, b: Bytes, c: Bytes)
    ensures Join([a, b, c]) == a + b + c
  {
    assert [a, b, c][..2] == [a, b] && [a, b][..1] == [a] && [a][..0] == [];
    assert Join([a]) == [] + a == a;
  }

  /** The Ethernet and IPv4 headers, byte by byte (section 3.1 of RFC 791). */
  ghost predicate LinkBytes(fr: Bytes, f: Flow, total: nat, ident: nat, ipSum: nat)
    requires OnWire(f) && total < U16 && ident < U16 && ipSum < U16
  {
    && |fr| >= 34 && fr[0..6] == f.dstMac && fr[6..12] == f.srcMac && fr[12..14] == [0x08, 0x00] && fr[14..15] == [0x45]
    && fr[15..16] == [0] && fr[16..18] == U2(total) && fr[18..20] == U2(ident) && fr[20..22] == [0x40, 0]
    && fr[22..23] == [64] && fr[23..24] == [6] && fr[24..26] == U2(ipSum) && fr[26..30] == U4(f.srcIp)
    && fr[30..34] == U4(f.dstIp)
  }

  /** The TCP header and payload, byte by byte (section 3.1 of RFC 9293), and the padding. */
  ghost predicate TcpBytes(fr: Bytes, f: Flow, n: Numbers, payload: Bytes, tcpSum: nat, pad: Bytes)
    requires Buildable(f, n, payload) && tcpSum < U16
  {
    && |fr| == 54 + |payload| + |pad| && fr[34..36] == U2(f.srcPort) && fr[36..38] == U2(f.dstPort)
    && fr[38..42] == U4(n.seqNo) && fr[42..46] == U4(n.ack) && fr[46..47] == [0x50] && fr[47..48] == [0x18]
    && fr[48..50] == U2(0xFFFF) && fr[50..52] == U2(tcpSum) && fr[52..54] == U2(0)
    && fr[54..54 + |payload|] == payload && fr[54 + |payload|..] == pad
  }

  lemma LinkAndIpLayout(f: Flow, n: Numbers, payload: Bytes, ipSum: nat, tcpSum: nat, pad: Bytes)
    requires Buildable(f, n, payload) && ipSum < U16 && tcpSum < U16
    ensures var s := FrameFields(f, n, payload, ipSum, tcpSum, pad);
      Offset(s, 13) == 34 && LinkBytes(Join(s), f, 40 + |payload|, n.ident, ipSum)
  {
    hide U2, U4, Join, Offset;
    var s := FrameFields(f, n, payload, ipSum, tcpSum, pad);
    Ends(s);
    FieldAt(s, 0); FieldAt(s, 1); FieldAt(s, 2); FieldAt(s, 3); FieldAt(s, 4); FieldAt(s, 5); FieldAt(s, 6);
    FieldAt(s, 7); FieldAt(s, 8); FieldAt(s, 9); FieldAt(s, 10); FieldAt(s, 11); FieldAt(s, 12);
  }

  lemma TcpLayout(f: Flow, n: Numbers, payload: Bytes, ipSum: nat, tcpSum: nat, pad: Bytes)
    requires Buildable(f, n, payload) && ipSum < U16 && tcpSum < U16
    requires Offset(FrameFields(f, n, payload, ipSum, tcpSum, pad), 13) == 34
    ensures TcpBytes(Join(FrameFields(f, n, payload, ipSum, tcpSum, pad)), f, n, payload, tcpSum, pad)
  {
    hide U2, U4, Join, Offset;
    var s := FrameFields(f, n, payload, ipSum, tcpSum, pad);
    Ends(s);
    FieldAt(s, 13); FieldAt(s, 14); FieldAt(s, 15); FieldAt(s, 16); FieldAt(s, 17); FieldAt(s, 18); FieldAt(s, 19);
    FieldAt(s, 20); FieldAt(s, 21); FieldAt(s, 22); FieldAt(s, 23);
  }

  /** Every byte of a frame of either kind. */
  lemma FrameLayout(f: Flow, n: Numbers, payload: Bytes, ipSum: nat, tcpSum: nat, pad: Bytes)
    requires Buildable(f, n, payload) && ipSum < U16 && tcpSum < U16
    ensures var fr := Join(FrameFields(f, n, payload, ipSum, tcpSum, pad));
      LinkBytes(fr, f, 40 + |payload|, n.ident, ipSum) && TcpBytes(fr, f, n, payload, tcpSum, pad)
  {
    hide U2, U4, Join, Offset, FrameFields, LinkBytes, TcpBytes;
    LinkAndIpLayout(f, n, payload, ipSum, tcpSum, pad);
    TcpLayout(f, n, payload, ipSum, tcpSum, pad);
  }

  lemma ExtractLaidOut(fr: Bytes, f: Flow, n: Numbers, payload: Bytes, ipSum: nat, tcpSum: nat, pad: Bytes, localIp: nat)
    requires Buildable(f, n, payload) && ipSum < U16 && tcpSum < U16
    requires LinkBytes(fr, f, 40 + |payload|, n.ident, ipSum) && TcpBytes(fr, f, n, payload, tcpSum, pad)
    ensures Extract(fr, localIp)
         == if f.dstIp != localIp || payload == [] then Skipped else Taken(Segment(n.seqNo, payload))
  {
    hide Dec, Enc, Pow256;
    assert fr[12] == fr[12..14][0] && fr[13] == fr[12..14][1] && fr[14] == fr[14..15][0];
    assert fr[23] == fr[23..24][0] && fr[46] == fr[46..47][0];
  }

  /** Headers with options: from any IPv4 and TCP frame to the card whose header lengths, in words, are `ihl` and `doff`,
      the decoder takes the sequence number and exactly the payload that the total length announces. */
  lemma ExtractWithOptions(fr: Bytes, localIp: nat, ihl: nat, doff: nat, len: nat)
    requires 5 <= ihl && 5 <= doff && 0 < len && 14 + 4 * ihl + 4 * doff + len <= |fr|
    requires fr[12] == 0x08 && fr[13] == 0x00 && fr[14] % 16 == ihl && fr[23] == 6
    requires Dec(fr[30..34]) == localIp && Dec(fr[16..18]) == 4 * ihl + 4 * doff + len
    requires fr[14 + 4 * ihl + 12] / 16 == doff
    ensures var tcp, data := 14 + 4 * ihl, 14 + 4 * ihl + 4 * doff;
      Extract(fr, localIp) == Taken(Segment(Dec(fr[tcp + 4..tcp + 8]), fr[data..data + len]))
  {
    hide Dec;
  }

  /** A frame is passed over exactly if it is short, not IPv4, not TCP, not for the card or without payload, and raises
      exactly if its TCP header would start past its end. */
  lemma ExtractOutcome(fr: Bytes, localIp: nat)
    ensures var forCard := |fr| >= 54 && fr[12..14] == [0x08, 0x00] && fr[23] == 6 && Dec(fr[30..34]) == localIp;
      && (Extract(fr, localIp) == IndexError <==> forCard && |fr| <= 26 + fr[14] % 16 * 4)
      && (Extract(fr, localIp) == Skipped <==>
            !forCard || (26 + fr[14] % 16 * 4 < |fr|
                         && Dec(fr[16..18]) <= fr[14] % 16 * 4 + fr[26 + fr[14] % 16 * 4] / 16 * 4))
  {
    hide Dec;
  }

  /** From an order frame or a reply frame the decoder takes exactly its sequence number and payload, never the
      padding, and only when it is addressed to the card. */
  lemma ExtractOfFrame(f: Flow, n: Numbers, payload: Bytes, localIp: nat)
    requires Buildable(f, n, payload)
    ensures Extract(OrderFrame(f, n, payload), localIp) == Extract(ReplyFrame(f, n, payload), localIp)
         == if f.dstIp != localIp || payload == [] then Skipped else Taken(Segment(n.seqNo, payload))
  {
    hide IpHeader, TcpHeader, BlankTcp, Csum, Extract, U2, U4, Join, Pseudo, IpFields, TcpFields;
    var ipSum := Csum(Join(IpFields(f, 40 + |payload|, n.ident, 0)));
    IpHeaderVerifies(f, n, payload);
    TcpSegmentVerifies(f, n, payload);
    BlankIsFields(f, n, payload);
    var tcpSum := Csum(Pseudo(f, 20 + |payload|) + BlankTcp(f, n, payload) + payload);
    ExtractFields(f, n, payload, IpHeader(f, n, payload), TcpHeader(f, n, payload), ipSum, tcpSum, [], localIp);
    var o := OrderFrame(f, n, payload);
    assert o + [] == o;
    var pad := seq(if |payload| < 6 then 6 - |payload| else 0, _ => 0);
    ExtractFields(f, n, payload, IpHeader(f, n, payload), BlankTcp(f, n, payload), ipSum, 0, pad, localIp);
  }

  lemma BlankIsFields(f: Flow, n: Numbers, payload: Bytes)
    requires Buildable(f, n, payload)
    ensures BlankTcp(f, n, payload) == Join(TcpFields(f, n, 0))
  {
  }

  /** A frame put together from its two headers is the fields laid out. */
  lemma FrameIs(f: Flow, n: Numbers, payload: Bytes, ip: Bytes, tcp: Bytes, ipSum: nat, tcpSum: nat, pad: Bytes)
    requires Buildable(f, n, payload) && ipSum < U16 && tcpSum < U16
    requires ip == Join(IpFields(f, 40 + |payload|, n.ident, ipSum)) && tcp == Join(TcpFields(f, n, tcpSum))
    ensures var fr := f.dstMac + f.srcMac + [0x08, 0x00] + ip + tcp + payload + pad;
      LinkBytes(fr, f, 40 + |payload|, n.ident, ipSum) && TcpBytes(fr, f, n, payload, tcpSum, pad)
  {
    hide FrameFields, Join, IpFields, TcpFields, U2, U4, LinkBytes, TcpBytes;
    FramesAreFields(f, n, payload, ip, tcp, ipSum, tcpSum, pad);
    FrameLayout(f, n, payload, ipSum, tcpSum, pad);
  }

  /** The order frame byte by byte: both checksums are there, and the header, and the pseudo-header with the segment,
      fold to all ones. */
  lemma OrderFrameBytes(f: Flow, n: Numbers, payload: Bytes) returns (ipSum: nat, tcpSum: nat)
    requires Buildable(f, n, payload)
    ensures ipSum < U16 && tcpSum < U16
    ensures var fr := OrderFrame(f, n, payload);
      && LinkBytes(fr, f, 40 + |payload|, n.ident, ipSum) && TcpBytes(fr, f, n, payload, tcpSum, [])
      && Verifies(fr[14..34]) && Verifies(fr[26..34] + [0, 6] + U2(20 + |payload|) + fr[34..])
  {
    hide IpHeader, TcpHeader, BlankTcp, Csum, Extract, U2, U4, Join, IpFields, TcpFields, LinkBytes, TcpBytes, Verifies;
    ipSum := Csum(Join(IpFields(f, 40 + |payload|, n.ident, 0)));
    tcpSum := Csum(Pseudo(f, 20 + |payload|) + BlankTcp(f, n, payload) + payload);
    IpHeaderVerifies(f, n, payload);
    TcpSegmentVerifies(f, n, payload);
    FrameIs(f, n, payload, IpHeader(f, n, payload), TcpHeader(f, n, payload), ipSum, tcpSum, []);
    var fr := OrderFrame(f, n, payload);
    assert fr + [] == fr;
    HeaderSizes(f, n, payload, ipSum, tcpSum);
    FramePieces(f.dstMac + f.srcMac + [0x08, 0x00], IpHeader(f, n, payload), TcpHeader(f, n, payload), payload);
    AddressBytes(fr, f, 40 + |payload|, n.ident, ipSum);
    Regrouped(Pseudo(f, 20 + |payload|), TcpHeader(f, n, payload), payload);
  }

  lemma HeaderSizes(f: Flow, n: Numbers, payload: Bytes, ipSum: nat, tcpSum: nat)
    requires Buildable(f, n, payload) && ipSum < U16 && tcpSum < U16
    ensures |Join(IpFields(f, 40 + |payload|, n.ident, ipSum))| == 20 && |Join(TcpFields(f, n, tcpSum))| == 20
  {
    IpLength(f, 40 + |payload|, n.ident, ipSum);
    TcpLength(f, n, tcpSum);
  }

  lemma FramePieces(eth: Bytes, ip: Bytes, tcp: Bytes, payload: Bytes)
    requires |eth| == 14 && |ip| == 20
    ensures (eth + ip + tcp + payload)[14..34] == ip && (eth + ip + tcp + payload)[34..] == tcp + payload
  {
  }

  lemma AddressBytes(fr: Bytes, f: Flow, total: nat, ident: nat, ipSum: nat)
    requires OnWire(f) && total < U16 && ident < U16 && ipSum < U16 && LinkBytes(fr, f, total, ident, ipSum)
    ensures |fr| >= 34 && fr[26..34] == U4(f.srcIp) + U4(f.dstIp)
  {
    hide U2, U4;
    assert fr[26..34] == fr[26..30] + fr[30..34];
  }

  lemma Regrouped(a: Bytes, b: Bytes, c: Bytes)
    ensures a + (b + c) == a + b + c
  {
  }

  /** The reply frame byte by byte: no TCP checksum, and zeros up to sixty bytes. */
  lemma ReplyFrameBytes(f: Flow, n: Numbers, payload: Bytes) returns (ipSum: nat, pad: Bytes)
    requires Buildable(f, n, payload)
    ensures ipSum < U16 && |pad| == (if |payload| < 6 then 6 - |payload| else 0) && forall i :: 0 <= i < |pad| ==> pad[i] == 0
    ensures var fr := ReplyFrame(f, n, payload);
      && LinkBytes(fr, f, 40 + |payload|, n.ident, ipSum) && TcpBytes(fr, f, n, payload, 0, pad)
      && Verifies(fr[14..34])
  {
    hide IpHeader, BlankTcp, Csum, Extract, U2, U4, Join, IpFields, TcpFields, LinkBytes, TcpBytes, Verifies;
    ipSum := Csum(Join(IpFields(f, 40 + |payload|, n.ident, 0)));
    pad := seq(if |payload| < 6 then 6 - |payload| else 0, _ => 0);
    IpHeaderVerifies(f, n, payload);
    BlankIsFields(f, n, payload);
    FrameIs(f, n, payload, IpHeader(f, n, payload), BlankTcp(f, n, payload), ipSum, 0, pad);
    HeaderSizes(f, n, payload, ipSum, 0);
    FramePieces(f.dstMac + f.srcMac + [0x08, 0x00], IpHeader(f, n, payload), BlankTcp(f, n, payload), payload + pad);
    Regrouped(f.dstMac + f.srcMac + [0x08, 0x00] + IpHeader(f, n, payload) + BlankTcp(f, n, payload), payload, pad);
  }

  lemma ExtractFields(f: Flow, n: Numbers, payload: Bytes, ip: Bytes, tcp: Bytes, ipSum: nat, tcpSum: nat, pad: Bytes,
                      localIp: nat)
    requires Buildable(f, n, payload) && ipSum < U16 && tcpSum < U16
    requires ip == Join(IpFields(f, 40 + |payload|, n.ident, ipSum)) && tcp == Join(TcpFields(f, n, tcpSum))
    ensures Extract(f.dstMac + f.srcMac + [0x08, 0x00] + ip + tcp + payload + pad, localIp)
         == if f.dstIp != localIp || payload == [] then Skipped else Taken(Segment(n.seqNo, payload))
  {
    hide Extract, Join, IpFields, TcpFields, LinkBytes, TcpBytes;
    FrameIs(f, n, payload, ip, tcp, ipSum, tcpSum, pad);
    ExtractLaidOut(f.dstMac + f.srcMac + [0x08, 0x00] + ip + tcp + payload + pad, f, n, payload, ipSum, tcpSum, pad, localIp);
  }
}

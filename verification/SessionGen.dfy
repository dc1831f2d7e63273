/** The reply generator: the replies it makes up, the frames and golden lines it writes, and what a capture of those
    frames decodes to. */
module SessionGen {
  import opened Wrappers
  import opened BigEndian
  import opened Checksum
  import opened Ouch
  import opened Tokens
  import opened TcpFrame
  import opened Capture
  import opened RoundTrip
  import opened Generators
  import opened SessionDump
  import SoupBin

  const PREFIX: Bytes := ['F' as int, 'P' as int, 'G' as int, 'A' as int, '0' as int, '1' as int]

  function DecStr(n: nat): (s: Bytes)
    ensures s != []
  {
    if n < 10 then [ZERO + n] else DecStr(n / 10) + [ZERO + n % 10]
  }

  /** `"FPGA01%08d"`, cut and filled to the 14 bytes of the token. */
  function ReplyToken(i: nat): (t: Bytes)
    ensures |t| == 14
  {
    var s := DecStr(i);
    Pad(PREFIX + (if |s| < 8 then Zeros(8 - |s|) + s else s), 14)
  }

  /** Reply `i`: buys and sells in turn, one tick apart. */
  function ReplyAt(i: nat, stock: Bytes): Accepted {
    Accepted(ReplyToken(i), i % 2 == 0, 100, stock, 2_800_000 + 100 * i, 0x5000 + i)
  }

  /** Reads decimal digits. */
  function Value10(s: Bytes): int {
    if s == [] then 0 else Value10(s[..|s| - 1]) * 10 + (s[|s| - 1] - '0' as int)
  }

  lemma {:induction false} DecStrReads(n: nat)
    ensures Value10(DecStr(n)) == n
    ensures forall i :: 0 <= i < |DecStr(n)| ==> '0' as int <= DecStr(n)[i] <= '9' as int
  {
    if n >= 10 {
      DecStrReads(n / 10);
      assert DecStr(n)[..|DecStr(n)| - 1] == DecStr(n / 10);
    } else {
      assert DecStr(n)[..0] == [];
    }
  }

  function Pow10(k: nat): nat {
    if k == 0 then 1 else 10 * Pow10(k - 1)
  }

  lemma {:induction false} DecStrLength(n: nat, k: nat)
    requires 0 < k && n < Pow10(k)
    ensures |DecStr(n)| <= k
  {
    if k > 1 && n >= 10 {
      DecStrLength(n / 10, k - 1);
    }
  }

  lemma {:induction false} ZerosRead(k: nat)
    ensures Value10(Zeros(k)) == 0 && forall i :: 0 <= i < k ==> Zeros(k)[i] == '0' as int
  {
    if k > 0 {
      ZerosRead(k - 1);
      ZerosEnd(k);
    }
  }

  lemma {:induction false} PaddedReads(k: nat, s: Bytes)
    ensures Value10(Zeros(k) + s) == Value10(s)
  {
    if s == [] {
      ZerosRead(k);
      assert Zeros(k) + s == Zeros(k);
    } else {
      hide Zeros;
      assert (Zeros(k) + s)[..k + |s| - 1] == Zeros(k) + s[..|s| - 1];
      PaddedReads(k, s[..|s| - 1]);
    }
  }

  lemma DigitsRead(i: nat) returns (s: Bytes)
    requires i < 1_0000_0000
    ensures |s| == 8 && Value10(s) == i && forall k :: 0 <= k < 8 ==> '0' as int <= s[k] <= '9' as int
    ensures ReplyToken(i) == PREFIX + s
  {
    var d := DecStr(i);
    assert Pow10(8) == 1_0000_0000;
    DecStrLength(i, 8);
    DecStrReads(i);
    PaddedReads(8 - |d|, d);
    ZerosRead(8 - |d|);
    hide Value10, DecStr, Zeros, Pad;
    s := if |d| < 8 then Zeros(8 - |d|) + d else d;
    PadExact(PREFIX + s, 14);
  }

  /** Reply `i` of the generator, value by value: its token is FPGA01 and the eight decimal digits of `i`. */
  lemma ReplyIs(i: nat, stock: Bytes)
    requires i < 1_0000_0000
    ensures var a := ReplyAt(i, stock);
      && |a.token| == 14 && a.token[..6] == ['F' as int, 'P' as int, 'G' as int, 'A' as int, '0' as int, '1' as int]
      && Value10(a.token[6..]) == i && (forall k :: 6 <= k < 14 ==> '0' as int <= a.token[k] <= '9' as int)
      && (a.buy <==> i % 2 == 0) && a.shares == 100 && a.price == 2800000 + 100 * i && a.orderRef == 20480 + i
      && a.stock == stock
  {
    hide Value10;
    var s := DigitsRead(i);
    hide ReplyToken;
    assert (PREFIX + s)[6..] == s;
  }

  function Replies(count: nat, stock: Bytes): (rs: seq<Reply>)
    ensures |rs| == count && forall i :: 0 <= i < count ==> rs[i] == AcceptReply(ReplyAt(i, stock))
  {
    seq(count, (i: nat) => AcceptReply(ReplyAt(i, stock)))
  }

  function GoldenLines(count: nat, stock: Bytes): (ls: seq<Line>)
    ensures |ls| == count && forall i :: 0 <= i < count ==> ls[i] == Golden(ReplyAt(i, stock))
  {
    seq(count, (i: nat) => Golden(ReplyAt(i, stock)))
  }

  function ReplyPayloads(count: nat, stock: Bytes): seq<Bytes>
    requires AllSendable(Replies(count, stock))
  {
    SoupBin.PackEach(SoupBin.SEQUENCED_DATA, Bodies(Replies(count, stock)))
  }

  /** What the generator can write: every reply packs, and every frame's numbers fit their fields. */
  predicate CanGenerate(f: Flow, base: nat, ack: nat, ackBytes: nat, count: nat, stock: Bytes) {
    && AllSendable(Replies(count, stock))
    && AllSound(f, base, ReplyPayloads(count, stock), ReplyItems(count, ack, ackBytes))
  }

  lemma PayloadsMore(i: nat, stock: Bytes)
    requires AllSendable(Replies(i, stock)) && Sendable(AcceptReply(ReplyAt(i, stock)))
    ensures AllSendable(Replies(i + 1, stock))
    ensures ReplyPayloads(i + 1, stock)
         == ReplyPayloads(i, stock) + [SoupBin.Pack(SoupBin.SEQUENCED_DATA, Body(AcceptReply(ReplyAt(i, stock))))]
    ensures GoldenLines(i + 1, stock) == GoldenLines(i, stock) + [Golden(ReplyAt(i, stock))]
  {
    hide Body, ReplyAt, SoupBin.Pack, Golden;
    var rs := Replies(i + 1, stock);
    assert rs[..i] == Replies(i, stock);
    var bs := Bodies(rs);
    assert bs[..i] == Bodies(Replies(i, stock));
  }

  lemma NoPayloads(stock: Bytes)
    ensures AllSendable(Replies(0, stock)) && ReplyPayloads(0, stock) == [] && GoldenLines(0, stock) == []
  {
  }

  lemma NotSendable(i: nat, count: nat, stock: Bytes)
    requires i < count && !Sendable(AcceptReply(ReplyAt(i, stock)))
    ensures !AllSendable(Replies(count, stock))
  {
    assert Replies(count, stock)[i] == AcceptReply(ReplyAt(i, stock));
  }

  /** `gen_session.main`: the frames and the golden lines, or a raise, exactly when a reply or a frame cannot be packed.
      Nothing is written before all of them are built, so the payloads are built first here and framed after. */
  method GenerateSession(f: Flow, base: nat, ack: nat, ackBytes: nat, count: nat, stock: Bytes)
    returns (out: Option<(seq<Bytes>, seq<Line>)>)
    ensures out.Some? <==> CanGenerate(f, base, ack, ackBytes, count, stock)
    ensures out.Some? ==>
      && out.value.0 == Frames(f, base, ReplyPayloads(count, stock), ReplyItems(count, ack, ackBytes))
      && out.value.1 == GoldenLines(count, stock)
  {
    hide Sendable, Body, ReplyAt, Golden, GoldenLines, AllSendable, ReplyPayloads, Frames, AllSound;
    var payloads, golden := [], [];
    NoPayloads(stock);
    for i := 0 to count
      invariant AllSendable(Replies(i, stock)) && payloads == ReplyPayloads(i, stock)
      invariant |payloads| == i && golden == GoldenLines(i, stock)
    {
      var a := ReplyAt(i, stock);
      if !Sendable(AcceptReply(a)) {
        NotSendable(i, count, stock);
        return None;
      }
      PayloadsMore(i, stock);
      payloads := payloads + [SoupBin.Pack(SoupBin.SEQUENCED_DATA, Body(AcceptReply(a)))];
      golden := golden + [Golden(a)];
    }
    var frames := GenerateReplies(f, base, ack, ackBytes, payloads);
    out := if frames == None then None else Some((frames.value, golden));
  }

  lemma {:induction false} ShownAt(rs: seq<Reply>, i: nat)
    requires i < |rs|
    ensures |ShownAll(rs)| == |rs| && ShownAll(rs)[i] == Shown(rs[i])
  {
    hide Shown;
    if i < |rs| - 1 {
      ShownAt(rs[..|rs| - 1], i);
    } else if 1 < |rs| {
      ShownAt(rs[..|rs| - 1], 0);
    }
  }

  /** The lines of the replies are the golden lines exactly when the stock survives its field. */
  lemma ShownIsGoldenIff(count: nat, stock: Bytes)
    ensures ShownAll(Replies(count, stock)) == GoldenLines(count, stock)
       <==> count == 0 || stock == Strip(Cut(stock, 8))
  {
    var rs, golden := Replies(count, stock), GoldenLines(count, stock);
    hide ShownAll, Golden, Shown, ReplyAt, Strip, Replies, GoldenLines;
    if count == 0 {
      NothingShown();
      assert rs == [] && golden == [];
    } else {
      ShownAt(rs, 0);
      forall i | 0 <= i < count
        ensures ShownAll(rs)[i] == golden[i] <==> stock == Strip(Cut(stock, 8))
      {
        ShownAt(rs, i);
        ReplyStock(i, stock);
        GoldenIff(ReplyAt(i, stock));
      }
      if stock != Strip(Cut(stock, 8)) {
        assert ShownAll(rs)[0] != golden[0];
      }
    }
  }

  lemma ReplyStock(i: nat, stock: Bytes)
    ensures ReplyAt(i, stock).stock == stock && |ReplyAt(i, stock).token| == 14
  {
  }

  lemma NothingShown()
    ensures ShownAll([]) == []
  {
  }

  /** For every count: the generated frames decode, complete and with nothing left over, to exactly the golden lines if
      and only if the stock is unchanged by cutting to eight and stripping (or there are no replies). */
  lemma GeneratedSessionDecodes(f: Flow, base: nat, ack: nat, ackBytes: nat, count: nat, stock: Bytes)
    requires CanGenerate(f, base, ack, ackBytes, count, stock)
    ensures match Inbound(Frames(f, base, ReplyPayloads(count, stock), ReplyItems(count, ack, ackBytes)), f.dstIp)
      case None => false
      case Some(segs) =>
        && (AllLines(SoupBin.Packets(DataOf(segs))) == Some(GoldenLines(count, stock))
            <==> count == 0 || stock == Strip(Cut(stock, 8)))
        && Complete(segs) && SoupBin.Rest(DataOf(segs)) == []
  {
    hide AllSendable, AllSound, AllArrive, SoupBin.PackEach, Bodies, Frames, Inbound, DataOf, Complete, AllLines,
      ShownAll, SoupBin.Packets, SoupBin.Rest, GoldenLines, Strip;
    var items := ReplyItems(count, ack, ackBytes);
    AllInOrderArrive(ReplyPayloads(count, stock), items);
    RepliesRoundTrip(f, base, Replies(count, stock), items);
    ShownIsGoldenIff(count, stock);
  }

  // ---- the checksum of the first default frame ----

  const AAPL: Bytes := ['A' as int, 'A' as int, 'P' as int, 'L' as int]

  // the bytes of the first packet
  const FIRST_TOKEN: Bytes := PREFIX + [48, 48, 48, 48, 48, 48, 48, 48]
  const SHARES: Bytes := [0, 0, 0, 100]
  const PRICE: Bytes := [0, 42, 185, 128]
  const REF: Bytes := [0, 0, 0, 0, 0, 0, 80, 0]
  const FIRST_TAIL: Bytes := [BUY] + SHARES + (AAPL + [32, 32, 32, 32]) + PRICE + REF
  const FIRST_HEAD: Bytes := [0, 41, 83, 65]

  lemma DecFour(s: Bytes)
    requires |s| == 4
    ensures Dec(s) == Word(Word(Word(s[0], s[1]), s[2]), s[3])
  {
    assert s[..1][..0] == [] && s[..2][..1] == s[..1] && s[..3][..2] == s[..2];
    assert Dec(s[..1]) == s[0] && Dec(s[..2]) == Word(Dec(s[..1]), s[1]) && Dec(s[..3]) == Word(Dec(s[..2]), s[2]);
  }

  lemma DecEight(s: Bytes)
    requires |s| == 8
    ensures Dec(s) == Dec(s[..4]) * U32 + Word(Word(Word(s[4], s[5]), s[6]), s[7])
  {
    assert s[..5][..4] == s[..4] && s[..6][..5] == s[..5] && s[..7][..6] == s[..6];
    assert Dec(s[..5]) == Word(Dec(s[..4]), s[4]) && Dec(s[..6]) == Word(Dec(s[..5]), s[5]);
    assert Dec(s[..7]) == Word(Dec(s[..6]), s[6]);
  }

  /** The bytes of a number, from its bytes. */
  lemma FourBytes(s: Bytes, v: nat)
    requires |s| == 4 && v == Word(Word(Word(s[0], s[1]), s[2]), s[3])
    ensures v < U32 && U4(v) == s
  {
    Widths();
    DecFour(s);
    EncDec(s);
  }

  lemma EightBytes(s: Bytes, v: nat)
    requires |s| == 8 && s[..4] == [0, 0, 0, 0] && v == Word(Word(Word(s[4], s[5]), s[6]), s[7])
    ensures v < U64 && U8(v) == s
  {
    hide Enc;
    Widths();
    DecFour(s[..4]);
    DecEight(s);
    EncDec(s);
  }

  lemma TwoBytes(s: Bytes, v: nat)
    requires |s| == 2 && v == Word(s[0], s[1])
    ensures v < Pow256(2) && Enc(v, 2) == s
  {
    assert s[..1][..0] == [] && Dec(s[..1]) == s[0];
    EncDec(s);
  }

  lemma FirstToken()
    ensures ReplyToken(0) == PREFIX + [48, 48, 48, 48, 48, 48, 48, 48]
  {
    var z: Bytes := [48, 48, 48, 48, 48, 48, 48];
    assert Zeros(1) == [48] && Zeros(2) == [48, 48] && Zeros(3) == [48, 48, 48] && Zeros(4) == [48, 48, 48, 48];
    assert Zeros(7) == z;
    hide Zeros, Pad;
    assert z + [48] == [48, 48, 48, 48, 48, 48, 48, 48];
    PadExact(PREFIX + (z + [48]), 14);
  }

  lemma Slices(b: Bytes)
    requires |b| == 40
    ensures b == b[0..1] + b[1..15] + (b[15..16] + b[16..20] + b[20..28] + b[28..32] + b[32..40])
  {
  }

  lemma BodyParts(a: Accepted)
    requires AcceptedEncodable(a) && |a.token| == 14
    ensures OrderAccepted(a) == [ORDER_ACCEPTED] + a.token
      + (Side(a.buy) + U4(a.shares) + Pad(a.stock, 8) + U4(a.price) + U8(a.orderRef))
  {
    hide OrderAccepted, Pad, U4, U8, Side;
    AcceptedLayout(a);
    PadExact(a.token, 14);
    Slices(OrderAccepted(a));
  }

  lemma TailOfFirst()
    ensures Side(true) + U4(100) + Pad(AAPL, 8) + U4(2_800_000) + U8(0x5000) == FIRST_TAIL
  {
    hide U4, U8, Pad;
    FourBytes(SHARES, 100);
    FourBytes(PRICE, 2_800_000);
    assert REF[..4] == [0, 0, 0, 0];
    EightBytes(REF, 0x5000);
    PaddedStock();
  }

  /** The body of the first reply, in three parts: type, token, and the rest. */
  lemma FirstBody()
    ensures AcceptedEncodable(ReplyAt(0, AAPL))
    ensures OrderAccepted(ReplyAt(0, AAPL)) == [ORDER_ACCEPTED] + FIRST_TOKEN + FIRST_TAIL
  {
    hide OrderAccepted, Pad, U4, U8, ReplyToken, Side;
    FirstToken();
    TailOfFirst();
    BodyParts(ReplyAt(0, AAPL));
  }

  lemma PaddedStock()
    ensures Pad(AAPL, 8) == AAPL + [32, 32, 32, 32]
  {
  }

  lemma SumStep(s: Bytes, k: nat)
    requires k % 2 == 0 && k + 2 <= |s|
    ensures Sum16(s[..k + 2]) == Sum16(s[..k]) + Word(s[k], s[k + 1])
  {
    assert s[..k + 2][..k] == s[..k];
  }

  lemma SumOf14(s: Bytes)
    requires |s| == 14
    ensures Sum16(s) == Word(s[0], s[1]) + Word(s[2], s[3]) + Word(s[4], s[5]) + Word(s[6], s[7]) + Word(s[8], s[9])
      + Word(s[10], s[11]) + Word(s[12], s[13])
  {
    hide Sum16, Word;
    NoSum();
    SumStep(s, 0); SumStep(s, 2); SumStep(s, 4); SumStep(s, 6); SumStep(s, 8); SumStep(s, 10); SumStep(s, 12);
    assert s[..14] == s && s[..0] == [];
  }

  lemma NoSum()
    ensures Sum16([]) == 0
  {
  }

  lemma SumOfTail()
    ensures Sum16(Padded(FIRST_TAIL)) == 138970
  {
    hide Sum16;
    var s := Padded(FIRST_TAIL);
    assert |s| == 26;
    SumOf14(s[..14]);
    SumStep(s, 14); SumStep(s, 16); SumStep(s, 18); SumStep(s, 20); SumStep(s, 22); SumStep(s, 24);
    assert s[..26] == s;
  }

  /** The payload of the first frame: a buy of 100 AAPL. */
  function FirstPayload(): (p: Bytes)
    ensures |p| == 43
  {
    FirstBody();
    SoupBin.Pack(SoupBin.SEQUENCED_DATA, OrderAccepted(ReplyAt(0, AAPL)))
  }

  lemma PayloadParts()
    ensures FirstPayload() == FIRST_HEAD + FIRST_TOKEN + FIRST_TAIL
  {
    FirstBody();
    TwoBytes([0, 41], 41);
    hide OrderAccepted, Enc, SoupBin.Pack;
    PackParts(FIRST_TOKEN + FIRST_TAIL);
    Grouped([ORDER_ACCEPTED], FIRST_TOKEN, FIRST_TAIL);
    Grouped(FIRST_HEAD, FIRST_TOKEN, FIRST_TAIL);
  }

  lemma PackParts(rest: Bytes)
    requires Enc(41, 2) == [0, 41] && |rest| == 39
    ensures SoupBin.Pack(SoupBin.SEQUENCED_DATA, [ORDER_ACCEPTED] + rest) == FIRST_HEAD + rest
  {
    hide Enc;
  }

  lemma Grouped(a: Bytes, b: Bytes, c: Bytes)
    ensures a + (b + c) == a + b + c
  {
  }

  lemma SumOfHead()
    ensures Sum16(FIRST_HEAD) == 21354
  {
    hide Sum16;
    NoSum();
    SumStep(FIRST_HEAD, 0);
    SumStep(FIRST_HEAD, 2);
    assert FIRST_HEAD[..4] == FIRST_HEAD && FIRST_HEAD[..0] == [];
  }

  lemma SumOfFirst()
    ensures Sum16(Padded(FirstPayload())) == 258246
  {
    hide Sum16, FirstPayload, Padded;
    PayloadParts();
    SumOfHead();
    SumOf14(FIRST_TOKEN);
    SumOfTail();
    PaddedTail(FIRST_HEAD + FIRST_TOKEN, FIRST_TAIL);
    SumOfJoin(FIRST_HEAD + FIRST_TOKEN, Padded(FIRST_TAIL));
    SumOfJoin(FIRST_HEAD, FIRST_TOKEN);
  }

  /** The generator's first frame with its default addresses, ports and numbers does not verify as a TCP segment,
      whatever the hardware addresses. */
  lemma FirstReplyDoesNotVerify(dst: Bytes, src: Bytes)
    requires |dst| == |src| == 6
    ensures var f, n := Flow(dst, src, 0x0A00_0009, 0x0A00_0002, 4001, 40001), Numbers(0x2000_0000, 0x1000_0034, 0x7000);
      && Buildable(f, n, FirstPayload()) && ReplySum(f, n, FirstPayload()) == 405827
      && !Verifies(Pseudo(f, 63) + BlankTcp(f, n, FirstPayload()) + FirstPayload())
  {
    SumOfFirst();
    hide FirstPayload, Sum16, Padded, Verifies, Pseudo, BlankTcp;
    var f, n := Flow(dst, src, 0x0A00_0009, 0x0A00_0002, 4001, 40001), Numbers(0x2000_0000, 0x1000_0034, 0x7000);
    ReplyTcpVerifiesIff(f, n, FirstPayload());
  }

  /** That payload is the first of any session generated for AAPL. */
  lemma FirstOfSession(count: nat)
    requires 0 < count && AllSendable(Replies(count, AAPL))
    ensures ReplyPayloads(count, AAPL) != [] && ReplyPayloads(count, AAPL)[0] == FirstPayload()
  {
    var bodies := Bodies(Replies(count, AAPL));
    hide OrderAccepted, SoupBin.Pack, ReplyAt;
    PackedFirst(bodies);
    assert Replies(count, AAPL)[0] == AcceptReply(ReplyAt(0, AAPL));
  }

  lemma {:induction false} PackedFirst(bodies: seq<Bytes>)
    requires SoupBin.Framable(bodies) && bodies != []
    ensures SoupBin.PackEach(SoupBin.SEQUENCED_DATA, bodies)[0] == SoupBin.Pack(SoupBin.SEQUENCED_DATA, bodies[0])
  {
    hide SoupBin.Pack;
    if |bodies| > 1 {
      PackedFirst(bodies[..|bodies| - 1]);
    }
  }
}

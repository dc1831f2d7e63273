/** Ethernet/IPv4/TCP frames as the card emits them and as the venue's replies are generated, and what the
    capture decoder extracts from a frame. */
module TcpFrame {
  import opened BigEndian
  import opened Checksum
  import opened ModArith

  /** One direction of the session. */
  datatype Flow = Flow(dstMac: Bytes, srcMac: Bytes, srcIp: nat, dstIp: nat, srcPort: nat, dstPort: nat)

  predicate OnWire(f: Flow) {
    |f.dstMac| == |f.srcMac| == 6 && f.srcIp < U32 && f.dstIp < U32 && f.srcPort < U16 && f.dstPort < U16
  }

  datatype Numbers = Numbers(seqNo: nat, ack: nat, ident: nat)

  /** What packing the headers takes without raising. */
  predicate Buildable(f: Flow, n: Numbers, payload: Bytes) {
    OnWire(f) && n.seqNo < U32 && n.ack < U32 && n.ident < U16 && 40 + |payload| < U16
  }

  function IpFields(f: Flow, total: nat, ident: nat, sum: nat): seq<Bytes>
    requires OnWire(f) && total < U16 && ident < U16 && sum < U16
  {
    [[0x45], [0], U2(total), U2(ident), [0x40, 0], [64], [6], U2(sum), U4(f.srcIp), U4(f.dstIp)]
  }

  function TcpFields(f: Flow, n: Numbers, sum: nat): seq<Bytes>
    requires OnWire(f) && n.seqNo < U32 && n.ack < U32 && sum < U16
  {
    [U2(f.srcPort), U2(f.dstPort), U4(n.seqNo), U4(n.ack), [0x50], [0x18], U2(0xFFFF), U2(sum), U2(0)]
  }

  function Pseudo(f: Flow, len: nat): Bytes
    requires OnWire(f) && len < U16
  {
    U4(f.srcIp) + U4(f.dstIp) + [0, 6] + U2(len)
  }

  /** Write a two-byte value over the bytes at `at`. */
  function Patch(s: Bytes, at: nat, v: nat): Bytes
    requires at + 2 <= |s| && v < U16
  {
    s[..at] + U2(v) + s[at + 2..]
  }

  function IpHeader(f: Flow, n: Numbers, payload: Bytes): Bytes
    requires Buildable(f, n, payload)
  {
    var ip := Join(IpFields(f, 40 + |payload|, n.ident, 0));
    IpLength(f, 40 + |payload|, n.ident, 0);
    Patch(ip, 10, Csum(ip))
  }

  function BlankTcp(f: Flow, n: Numbers, payload: Bytes): (h: Bytes)
    requires Buildable(f, n, payload)
    ensures |h| == 20
  {
    TcpLength(f, n, 0);
    Join(TcpFields(f, n, 0))
  }

  function TcpHeader(f: Flow, n: Numbers, payload: Bytes): Bytes
    requires Buildable(f, n, payload)
  {
    var tcp := BlankTcp(f, n, payload);
    Patch(tcp, 16, Csum(Pseudo(f, 20 + |payload|) + tcp + payload))
  }

  /** `dump_tcp.frame`. */
  function OrderFrame(f: Flow, n: Numbers, payload: Bytes): Bytes
    requires Buildable(f, n, payload)
  {
    f.dstMac + f.srcMac + [0x08, 0x00] + IpHeader(f, n, payload) + TcpHeader(f, n, payload) + payload
  }

  /** `gen_session.tcp_frame`: the TCP checksum stays zero and short frames are padded to 60 bytes. */
  function ReplyFrame(f: Flow, n: Numbers, payload: Bytes): Bytes
    requires Buildable(f, n, payload)
  {
    f.dstMac + f.srcMac + [0x08, 0x00] + IpHeader(f, n, payload) + BlankTcp(f, n, payload) + payload
    + seq(if |payload| < 6 then 6 - |payload| else 0, _ => 0)
  }

  lemma IpLength(f: Flow, total: nat, ident: nat, sum: nat)
    requires OnWire(f) && total < U16 && ident < U16 && sum < U16
    ensures |Join(IpFields(f, total, ident, sum))| == 20 && Offset(IpFields(f, total, ident, sum), 7) == 10
  {
    hide U2, U4, Join, Offset;
    var s := IpFields(f, total, ident, sum);
    Ends(s);
    NextOffset(s, 0); NextOffset(s, 1); NextOffset(s, 2); NextOffset(s, 3); NextOffset(s, 4);
    NextOffset(s, 5); NextOffset(s, 6); NextOffset(s, 7); NextOffset(s, 8); NextOffset(s, 9);
  }

  lemma TcpLength(f: Flow, n: Numbers, sum: nat)
    requires OnWire(f) && n.seqNo < U32 && n.ack < U32 && sum < U16
    ensures |Join(TcpFields(f, n, sum))| == 20 && Offset(TcpFields(f, n, sum), 7) == 16
  {
    hide U2, U4, Join, Offset;
    var s := TcpFields(f, n, sum);
    Ends(s);
    NextOffset(s, 0); NextOffset(s, 1); NextOffset(s, 2); NextOffset(s, 3); NextOffset(s, 4);
    NextOffset(s, 5); NextOffset(s, 6); NextOffset(s, 7); NextOffset(s, 8);
  }

  lemma Ends(s: seq<Bytes>)
    ensures Offset(s, 0) == 0 && Offset(s, |s|) == |Join(s)|
  {
    assert s[..|s|] == s;
  }

  /** Filling a field in place is the same as laying the fields out with it. */
  lemma PatchIsField(zeroed: seq<Bytes>, k: nat, v: nat)
    requires k < |zeroed| && zeroed[k] == U2(0) && v < U16
    ensures Offset(zeroed, k) + 2 <= |Join(zeroed)|
    ensures Patch(Join(zeroed), Offset(zeroed, k), v) == Join(zeroed[k := U2(v)])
    ensures Join(zeroed[k := U2(v)]) == Join(zeroed[..k]) + U2(v) + Join(zeroed[k + 1..])
    ensures Join(zeroed) == Join(zeroed[..k]) + U2(0) + Join(zeroed[k + 1..])
  {
    hide U2;
    SplitAt(zeroed, k);
    SplitAt(zeroed[k := U2(v)], k);
    assert zeroed[k := U2(v)][..k] == zeroed[..k] && zeroed[k := U2(v)][k + 1..] == zeroed[k + 1..];
    var a, b := Join(zeroed[..k]), Join(zeroed[k + 1..]);
    assert (a + U2(0) + b)[..|a|] == a && (a + U2(0) + b)[|a| + 2..] == b;
  }

  lemma SplitAt(s: seq<Bytes>, k: nat)
    requires k < |s|
    ensures Join(s) == Join(s[..k]) + s[k] + Join(s[k + 1..])
  {
    assert s == s[..k + 1] + s[k + 1..] && s[..k + 1][..k] == s[..k];
    JoinAppend(s[..k + 1], s[k + 1..]);
  }

  // ---- the checksums verify ----

  /** A blank aligned field, filled with the checksum of everything, makes everything verify. */
  lemma PatchVerifies(before: Bytes, zeroed: seq<Bytes>, k: nat, after: Bytes)
    requires k < |zeroed| && zeroed[k] == U2(0) && |before| % 2 == 0 && Offset(zeroed, k) % 2 == 0
    ensures Offset(zeroed, k) + 2 <= |Join(zeroed)|
    ensures Verifies(before + Patch(Join(zeroed), Offset(zeroed, k), Csum(before + Join(zeroed) + after)) + after)
  {
    var sum := Csum(before + Join(zeroed) + after);
    PatchIsField(zeroed, k, sum);
    var a, b := Join(zeroed[..k]), Join(zeroed[k + 1..]);
    assert |a| % 2 == 0;
    hide Join, Csum, Verifies, Offset, Patch;
    GroupField(before, a, U2(0), b, after);
    GroupField(before, a, U2(sum), b, after);
    Widths();
    EvenSum(before, a);
    ChecksumVerifies(before + a, b + after);
  }

  lemma GroupField(before: Bytes, a: Bytes, f: Bytes, b: Bytes, after: Bytes)
    ensures before + (a + f + b) + after == before + a + f + (b + after)
  {
  }

  lemma EvenSum(a: Bytes, b: Bytes)
    requires |a| % 2 == 0 && |b| % 2 == 0
    ensures |a + b| % 2 == 0
  {
  }

  lemma PatchAloneVerifies(zeroed: seq<Bytes>, k: nat)
    requires k < |zeroed| && zeroed[k] == U2(0) && Offset(zeroed, k) % 2 == 0
    ensures Offset(zeroed, k) + 2 <= |Join(zeroed)|
    ensures Verifies(Patch(Join(zeroed), Offset(zeroed, k), Csum(Join(zeroed))))
  {
    hide U2, Join, Csum, Verifies, Offset, Patch;
    PatchVerifies([], zeroed, k, []);
    var s := Join(zeroed);
    assert [] + s + [] == s;
    var p := Patch(s, Offset(zeroed, k), Csum(s));
    assert [] + p + [] == p;
  }

  lemma FillIp(f: Flow, total: nat, ident: nat, sum: nat)
    requires OnWire(f) && total < U16 && ident < U16 && sum < U16
    ensures IpFields(f, total, ident, 0)[7 := U2(sum)] == IpFields(f, total, ident, sum)
  {
    hide U2, U4;
  }

  lemma FillTcp(f: Flow, n: Numbers, sum: nat)
    requires OnWire(f) && n.seqNo < U32 && n.ack < U32 && sum < U16
    ensures TcpFields(f, n, 0)[7 := U2(sum)] == TcpFields(f, n, sum)
  {
    hide U2, U4;
  }

  /** The IPv4 header of every frame, order or reply, folds to all ones. */
  lemma IpHeaderVerifies(f: Flow, n: Numbers, payload: Bytes)
    requires Buildable(f, n, payload)
    ensures Verifies(IpHeader(f, n, payload))
    ensures IpHeader(f, n, payload)
         == Join(IpFields(f, 40 + |payload|, n.ident, Csum(Join(IpFields(f, 40 + |payload|, n.ident, 0)))))
  {
    var total := 40 + |payload|;
    var s := IpFields(f, total, n.ident, 0);
    IpLength(f, total, n.ident, 0);
    FillIp(f, total, n.ident, Csum(Join(s)));
    assert |s| == 10 && s[7] == U2(0);
    hide U2, U4, Join, Csum, Verifies, IpFields, Offset, Patch;
    PatchIsField(s, 7, Csum(Join(s)));
    PatchAloneVerifies(s, 7);
  }

  /** The pseudo-header, TCP header and payload of every order frame fold to all ones, odd payloads included. */
  lemma TcpSegmentVerifies(f: Flow, n: Numbers, payload: Bytes)
    requires Buildable(f, n, payload)
    ensures Verifies(Pseudo(f, 20 + |payload|) + TcpHeader(f, n, payload) + payload)
    ensures TcpHeader(f, n, payload)
         == Join(TcpFields(f, n, Csum(Pseudo(f, 20 + |payload|) + BlankTcp(f, n, payload) + payload)))
  {
    var s, ph := TcpFields(f, n, 0), Pseudo(f, 20 + |payload|);
    TcpLength(f, n, 0);
    FillTcp(f, n, Csum(ph + Join(s) + payload));
    assert |s| == 9 && s[7] == U2(0) && |ph| == 12;
    hide U2, U4, Join, Csum, Verifies, TcpFields, Offset, Patch, Pseudo;
    PatchIsField(s, 7, Csum(ph + Join(s) + payload));
    PatchVerifies(ph, s, 7, payload);
  }

  // ---- reply frames leave the TCP checksum zero ----

  function Words(v: nat): nat {
    v / U16 + v % U16
  }

  /** The 16-bit words of a reply's pseudo-header, TCP header and payload, summed. */
  function ReplySum(f: Flow, n: Numbers, payload: Bytes): nat {
    Words(f.srcIp) + Words(f.dstIp) + 6 + (20 + |payload|) + f.srcPort + f.dstPort + Words(n.seqNo) + Words(n.ack)
    + 0x5018 + 0xFFFF + Sum16(Padded(payload))
  }

  predicate AllEven(s: seq<Bytes>) {
    forall i :: 0 <= i < |s| ==> |s[i]| % 2 == 0
  }

  function SumAll(s: seq<Bytes>): nat
    requires AllEven(s)
  {
    if s == [] then 0 else SumAll(s[..|s| - 1]) + Sum16(s[|s| - 1])
  }

  lemma {:induction false} SumOfFields(s: seq<Bytes>)
    requires AllEven(s)
    ensures |Join(s)| % 2 == 0 && Sum16(Join(s)) == SumAll(s)
  {
    if s != [] {
      SumOfFields(s[..|s| - 1]);
      EvenSum(Join(s[..|s| - 1]), s[|s| - 1]);
      SumOfJoin(Join(s[..|s| - 1]), s[|s| - 1]);
    }
  }

  lemma SumOfU2(v: nat)
    requires v < U16
    ensures Sum16(U2(v)) == v
  {
    Widths();
    FieldSum(v);
  }

  lemma SumOfU4(v: nat)
    requires v < U32
    ensures Sum16(U4(v)) == Words(v)
  {
    Widths();
    var hi, lo := v / U16, v % U16;
    assert v / 256 / 256 == hi && v / 256 % 256 == lo / 256 && v % 256 == lo % 256;
    assert Enc(v, 4) == Enc(v / 256, 3) + [v % 256] && Enc(v / 256, 3) == Enc(v / 256 / 256, 2) + [v / 256 % 256];
    assert U4(v)[..2] == Enc(hi, 2);
    assert U4(v)[2..] == [lo / 256, lo % 256];
    FieldSum(hi);
    Sum2(U4(v));
  }

  lemma Sum2(s: Bytes)
    requires |s| == 4
    ensures Sum16(s) == Sum16(s[..2]) + Word(s[2], s[3])
  {
  }

  function ReplyFields(f: Flow, n: Numbers, len: nat): seq<Bytes>
    requires OnWire(f) && n.seqNo < U32 && n.ack < U32 && len < U16
  {
    [U4(f.srcIp), U4(f.dstIp), [0, 6], U2(len), U2(f.srcPort), U2(f.dstPort), U4(n.seqNo), U4(n.ack), [0x50, 0x18],
     U2(0xFFFF), U2(0), U2(0)]
  }

  lemma JoinFour(a: Bytes, b: Bytes, c: Bytes, d: Bytes)
    ensures Join([a, b, c, d]) == a + b + c + d
  {
    assert [a, b, c, d][..3] == [a, b, c] && [a, b, c][..2] == [a, b] && [a, b][..1] == [a] && [a][..0] == [];
    assert Join([]) == [] && [] + a == a;
    assert Join([a]) == a && Join([a, b]) == a + b && Join([a, b, c]) == a + b + c;
  }

  /** Two adjacent fields may be read as one. */
  lemma JoinMerge(a: seq<Bytes>, x: Bytes, y: Bytes, r: seq<Bytes>)
    ensures Join(a + [x, y] + r) == Join(a + [x + y] + r)
  {
    JoinPair(x, y);
    hide Join;
    JoinAppend(a + [x, y], r);
    JoinAppend(a, [x, y]);
    JoinAppend(a + [x + y], r);
    JoinAppend(a, [x + y]);
  }

  lemma JoinPair(x: Bytes, y: Bytes)
    ensures Join([x, y]) == x + y == Join([x + y])
  {
    assert [x, y][..1] == [x] && [x][..0] == [] && [x + y][..0] == [];
    assert Join([x]) == [] + x == x && Join([x + y]) == [] + (x + y) == x + y;
  }

  lemma ReplyFieldsJoin(f: Flow, n: Numbers, payload: Bytes)
    requires Buildable(f, n, payload)
    ensures Pseudo(f, 20 + |payload|) + BlankTcp(f, n, payload) == Join(ReplyFields(f, n, 20 + |payload|))
  {
    hide U2, U4, Join;
    var len := 20 + |payload|;
    var head := [U4(f.srcIp), U4(f.dstIp), [0, 6], U2(len)];
    JoinFour(U4(f.srcIp), U4(f.dstIp), [0, 6], U2(len));
    JoinAppend(head, TcpFields(f, n, 0));
    var a := head + [U2(f.srcPort), U2(f.dstPort), U4(n.seqNo), U4(n.ack)];
    var r := [U2(0xFFFF), U2(0), U2(0)];
    JoinMerge(a, [0x50], [0x18], r);
    assert head + TcpFields(f, n, 0) == a + [[0x50], [0x18]] + r;
    assert [0x50] + [0x18] == [0x50 as byte, 0x18];
    assert a + [[0x50] + [0x18]] + r == ReplyFields(f, n, len);
  }

  /** A reply's TCP checksum field, left zero, verifies exactly when the words around it happen to sum to a
      multiple of 65535. */
  lemma ReplyTcpVerifiesIff(f: Flow, n: Numbers, payload: Bytes)
    requires Buildable(f, n, payload)
    ensures Verifies(Pseudo(f, 20 + |payload|) + BlankTcp(f, n, payload) + payload)
       <==> ReplySum(f, n, payload) % ALL_ONES == 0
  {
    hide ReplyFields, Join, SumAll, AllEven, Sum16, U4, U2, Pseudo, BlankTcp, Folded, Words, Padded;
    var s := ReplyFields(f, n, 20 + |payload|);
    ReplyFieldsJoin(f, n, payload);
    ReplyFieldsSum(f, n, 20 + |payload|);
    SumWithPayload(s, payload);
    AllOnesIff(ReplySum(f, n, payload));
  }

  lemma SumWithPayload(s: seq<Bytes>, payload: Bytes)
    requires AllEven(s)
    ensures Sum16(Padded(Join(s) + payload)) == SumAll(s) + Sum16(Padded(payload))
  {
    hide Join, SumAll, AllEven, Sum16, Padded;
    SumOfFields(s);
    PaddedTail(Join(s), payload);
    SumOfJoin(Join(s), Padded(payload));
  }

  lemma AllOnesIff(s: nat)
    requires s > 0
    ensures Folded(s) == ALL_ONES <==> s % ALL_ONES == 0
  {
    AddMod(s - 1, 1, ALL_ONES);
  }

  lemma ReplyFieldsEven(f: Flow, n: Numbers, len: nat)
    requires OnWire(f) && n.seqNo < U32 && n.ack < U32 && len < U16
    ensures AllEven(ReplyFields(f, n, len))
  {
    hide U2, U4;
  }

  lemma ReplyFieldsSum(f: Flow, n: Numbers, len: nat)
    requires OnWire(f) && n.seqNo < U32 && n.ack < U32 && len < U16
    ensures AllEven(ReplyFields(f, n, len))
    ensures SumAll(ReplyFields(f, n, len))
         == Words(f.srcIp) + Words(f.dstIp) + 6 + len + f.srcPort + f.dstPort + Words(n.seqNo) + Words(n.ack)
            + 0x5018 + 0xFFFF
  {
    SumOfU4(f.srcIp); SumOfU4(f.dstIp); SumOfU4(n.seqNo); SumOfU4(n.ack);
    SumOfU2(len); SumOfU2(f.srcPort); SumOfU2(f.dstPort); SumOfU2(0xFFFF); SumOfU2(0);
    FixedWords();
    hide U2, U4, Sum16, Words, SumAll, AllEven;
    ReplyFieldsEven(f, n, len);
    SumOfTwelve(ReplyFields(f, n, len));
  }

  lemma SumOfTwelve(s: seq<Bytes>)
    requires |s| == 12 && AllEven(s)
    ensures |s[0]| % 2 == |s[1]| % 2 == |s[2]| % 2 == |s[3]| % 2 == |s[4]| % 2 == |s[5]| % 2 == 0
    ensures |s[6]| % 2 == |s[7]| % 2 == |s[8]| % 2 == |s[9]| % 2 == |s[10]| % 2 == |s[11]| % 2 == 0
    ensures SumAll(s) == Sum16(s[0]) + Sum16(s[1]) + Sum16(s[2]) + Sum16(s[3]) + Sum16(s[4]) + Sum16(s[5])
      + Sum16(s[6]) + Sum16(s[7]) + Sum16(s[8]) + Sum16(s[9]) + Sum16(s[10]) + Sum16(s[11])
  {
    hide Sum16, SumAll, AllEven;
    SumNone();
    SumOfFour(s, 0);
    SumOfFour(s, 4);
    SumOfFour(s, 8);
    assert s[..12] == s && s[..0] == [];
  }

  lemma SumOfFour(s: seq<Bytes>, k: nat)
    requires k + 4 <= |s| && AllEven(s)
    ensures |s[k]| % 2 == |s[k + 1]| % 2 == |s[k + 2]| % 2 == |s[k + 3]| % 2 == 0
    ensures AllEven(s[..k]) && AllEven(s[..k + 4])
    ensures SumAll(s[..k + 4])
         == SumAll(s[..k]) + Sum16(s[k]) + Sum16(s[k + 1]) + Sum16(s[k + 2]) + Sum16(s[k + 3])
  {
    hide Sum16, SumAll, AllEven;
    SumPrefix(s, k); SumPrefix(s, k + 1); SumPrefix(s, k + 2); SumPrefix(s, k + 3);
  }

  lemma FixedWords()
    ensures Sum16([0, 6]) == 6 && Sum16([0x50, 0x18]) == 0x5018
  {
    assert [0 as byte, 6][..0] == [] && [0x50 as byte, 0x18][..0] == [];
  }

  lemma SumNone()
    ensures AllEven([]) && SumAll([]) == 0
  {
  }

  lemma SumPrefix(s: seq<Bytes>, k: nat)
    requires k < |s| && AllEven(s)
    ensures |s[k]| % 2 == 0 && AllEven(s[..k]) && AllEven(s[..k + 1])
    ensures SumAll(s[..k + 1]) == SumAll(s[..k]) + Sum16(s[k])
  {
    assert s[..k + 1][..k] == s[..k];
  }
}

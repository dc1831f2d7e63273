/** MoldUDP64 packets as bytes: length-prefixed in a file, a 20-byte header, then length-prefixed message blocks. */
module MoldWire {
  import opened Wrappers
  import opened BigEndian
  import opened Mold

  /** Each message's length fits its block's 16 bits. */
  predicate Sized(msgs: seq<Bytes>) {
    forall i :: 0 <= i < |msgs| ==> |msgs[i]| < U16
  }

  /** What packing takes without raising: 64-bit numbers, and 16-bit counts, block lengths and packet length. */
  predicate Fits(p: Packet) {
    p.seqNo < U64 && p.count < U16 && Sized(p.msgs) && 20 + |Blocks(p.msgs)| < U16
  }

  function Block(m: Bytes): Bytes {
    (if |m| < U16 then U2(|m|) else []) + m
  }

  function Blocks(msgs: seq<Bytes>): Bytes {
    if msgs == [] then [] else Block(msgs[0]) + Blocks(msgs[1..])
  }

  function Encode(session: Bytes, p: Packet): Bytes
    requires |session| == 10 && Fits(p)
  {
    U2(20 + |Blocks(p.msgs)|) + (session + U8(p.seqNo) + U2(p.count) + Blocks(p.msgs))
  }

  lemma {:induction false} BlocksTakeRoom(msgs: seq<Bytes>)
    requires Sized(msgs)
    ensures 2 * |msgs| <= |Blocks(msgs)|
  {
    if msgs != [] {
      BlocksTakeRoom(msgs[1..]);
    }
  }

  /** No packet that fits carries as many messages as its count would need to read as an end. */
  lemma CountIsNotEos(p: Packet)
    requires Fits(p)
    ensures |p.msgs| < EOS
  {
    BlocksTakeRoom(p.msgs);
  }

  /** Read `n` blocks; none where a length or a body is cut short. */
  function ReadBlocks(b: Bytes, n: nat): Option<(seq<Bytes>, Bytes)>
  {
    if n == 0 then Some(([], b))
    else if |b| < 2 then None
    else
      var len := Dec(b[..2]);
      if |b| < 2 + len then None
      else
        match ReadBlocks(b[2 + len..], n - 1)
        case None => None
        case Some((ms, rest)) => Some(([b[2..2 + len]] + ms, rest))
  }

  /** The first packet of a file, and what follows. Heartbeats and end packets carry no blocks to read. */
  function ReadPacket(b: Bytes): Option<(Packet, Bytes)> {
    if |b| < 2 then None
    else
      var len := Dec(b[..2]);
      if |b| < 2 + len || len < 20 then None
      else
        var pkt := b[2..2 + len];
        var count := Dec(pkt[18..20]);
        if count == 0 || count == EOS then Some((Packet(Dec(pkt[10..18]), count, []), b[2 + len..]))
        else
          match ReadBlocks(pkt[20..], count)
          case None => None
          case Some((ms, rest)) => if rest != [] then None else Some((Packet(Dec(pkt[10..18]), count, ms), b[2 + len..]))
  }

  lemma {:induction false} ReadBack(msgs: seq<Bytes>, tail: Bytes)
    requires Sized(msgs)
    ensures ReadBlocks(Blocks(msgs) + tail, |msgs|) == Some((msgs, tail))
  {
    if msgs == [] {
      assert Blocks(msgs) + tail == tail;
    } else {
      hide Block, ReadBlocks, Blocks;
      var m, more := msgs[0], Blocks(msgs[1..]) + tail;
      ReadBack(msgs[1..], tail);
      ReadOne(m, more, |msgs| - 1);
      BlocksFirst(msgs, tail);
      assert [m] + msgs[1..] == msgs;
    }
  }

  lemma BlocksFirst(msgs: seq<Bytes>, tail: Bytes)
    requires msgs != []
    ensures Blocks(msgs) + tail == Block(msgs[0]) + (Blocks(msgs[1..]) + tail)
  {
    hide Block;
  }

  lemma ReadOne(m: Bytes, more: Bytes, n: nat)
    requires |m| < U16 && ReadBlocks(more, n).Some?
    ensures ReadBlocks(Block(m) + more, n + 1) == Some(([m] + ReadBlocks(more, n).value.0, ReadBlocks(more, n).value.1))
  {
    BlockFirst(m, more);
    hide Block, Dec;
  }

  lemma BlockFirst(m: Bytes, more: Bytes)
    requires |m| < U16
    ensures |Block(m)| == 2 + |m|
    ensures var b := Block(m) + more; Dec(b[..2]) == |m| && b[2..2 + |m|] == m && b[2 + |m|..] == more
  {
    hide Dec;
    var b := Block(m) + more;
    assert b[..2] == U2(|m|);
  }

  /** A packet written is the packet read, whatever follows it. */
  lemma ReadEncoded(session: Bytes, p: Packet, tail: Bytes)
    requires |session| == 10 && Fits(p) && WellFormed(p) && (p.count == EOS ==> p.msgs == [])
    ensures ReadPacket(Encode(session, p) + tail) == Some((p, tail))
  {
    hide U2, U8, Dec, Blocks, ReadBlocks;
    var blocks := Blocks(p.msgs);
    var pkt := session + U8(p.seqNo) + U2(p.count) + blocks;
    var b := Encode(session, p) + tail;
    var len := 20 + |blocks|;
    assert b[..2] == U2(len) && b[2..2 + len] == pkt && b[2 + len..] == tail;
    assert pkt[10..18] == U8(p.seqNo) && pkt[18..20] == U2(p.count) && pkt[20..] == blocks;
    if p.count != EOS {
      ReadBack(p.msgs, []);
      assert blocks + [] == blocks;
    }
  }

  ghost predicate Writable(ps: seq<Packet>) {
    forall i :: 0 <= i < |ps| ==> Fits(ps[i]) && WellFormed(ps[i]) && (ps[i].count == EOS ==> ps[i].msgs == [])
  }

  function EncodeAll(session: Bytes, ps: seq<Packet>): Bytes
    requires |session| == 10 && forall i :: 0 <= i < |ps| ==> Fits(ps[i])
  {
    if ps == [] then [] else Encode(session, ps[0]) + EncodeAll(session, ps[1..])
  }

  function ReadAll(b: Bytes): Option<seq<Packet>>
    decreases |b|
  {
    if b == [] then Some([])
    else
      match ReadPacket(b)
      case None => None
      case Some((p, rest)) =>
        match ReadAll(rest)
        case None => None
        case Some(ps) => Some([p] + ps)
  }

  /** A file of packets reads back to the same packets, with every message body intact. */
  lemma {:induction false} FileRoundTrip(session: Bytes, ps: seq<Packet>)
    requires |session| == 10 && Writable(ps)
    ensures ReadAll(EncodeAll(session, ps)) == Some(ps)
  {
    if ps != [] {
      FileRoundTrip(session, ps[1..]);
      assert Fits(ps[0]) && WellFormed(ps[0]) && (ps[0].count == EOS ==> ps[0].msgs == []);
      var more := EncodeAll(session, ps[1..]);
      assert EncodeAll(session, ps) == Encode(session, ps[0]) + more;
      hide Encode, ReadPacket, Fits, WellFormed, Writable, EncodeAll;
      ReadEncoded(session, ps[0], more);
      NotEmpty(session, ps[0]);
      assert [ps[0]] + ps[1..] == ps;
    }
  }

  lemma NotEmpty(session: Bytes, p: Packet)
    requires |session| == 10 && Fits(p)
    ensures Encode(session, p) != []
  {
  }
}

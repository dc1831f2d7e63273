/** SoupBinTCP 3.00 framing: the packet builder and the incremental de-framer. */
module SoupBin {
  import opened Wrappers
  import opened BigEndian

  /** What the reader yields: the type byte and the rest, both empty for a zero-length packet. */
  datatype Packet = Packet(ptype: Bytes, payload: Bytes)

  const LOGIN_REQUEST: byte := 'L' as int
  const UNSEQUENCED_DATA: byte := 'U' as int
  const LOGOUT_REQUEST: byte := 'O' as int
  const CLIENT_HEARTBEAT: byte := 'R' as int
  const LOGIN_ACCEPTED: byte := 'A' as int
  const SEQUENCED_DATA: byte := 'S' as int
  const SERVER_HEARTBEAT: byte := 'H' as int
  const END_OF_SESSION: byte := 'Z' as int

  /** Length of type and payload, then type, then payload; the length field holds 16 bits. */
  function Pack(ptype: byte, payload: Bytes): Bytes
    requires |payload| < 0xFFFF
  {
    Widths();
    Enc(1 + |payload|, 2) + [ptype] + payload
  }

  function Split(body: Bytes): Packet {
    if body == [] then Packet([], []) else Packet(body[..1], body[1..])
  }

  /** The first complete packet of a buffer and what follows it. */
  function First(s: Bytes): (r: Option<(Packet, Bytes)>)
    ensures r.Some? ==> |r.value.1| < |s|
  {
    if |s| < 2 then None
    else
      var len := Dec(s[..2]);
      if |s| < 2 + len then None else Some((Split(s[2..2 + len]), s[2 + len..]))
  }

  /** The one-shot parse: every complete packet, and the incomplete rest. */
  function Packets(s: Bytes): seq<Packet>
    decreases |s|
  {
    match First(s)
    case None => []
    case Some((p, rest)) => [p] + Packets(rest)
  }

  function Rest(s: Bytes): Bytes
    decreases |s|
  {
    match First(s)
    case None => s
    case Some((p, rest)) => Rest(rest)
  }

  /** More bytes never change a packet that is already complete. */
  lemma FirstStays(s: Bytes, t: Bytes)
    requires First(s).Some?
    ensures First(s + t) == Some((First(s).value.0, First(s).value.1 + t))
  {
    var len := Dec(s[..2]);
    assert (s + t)[..2] == s[..2];
    assert (s + t)[2..2 + len] == s[2..2 + len];
    assert (s + t)[2 + len..] == s[2 + len..] + t;
  }

  /** Parsing a stream is parsing a prefix, then its rest followed by the remaining bytes. */
  lemma {:induction false} ParseInPieces(s: Bytes, t: Bytes)
    ensures Packets(s + t) == Packets(s) + Packets(Rest(s) + t)
    ensures Rest(s + t) == Rest(Rest(s) + t)
    decreases |s|
  {
    if First(s).Some? {
      FirstStays(s, t);
      ParseInPieces(First(s).value.1, t);
    }
  }

  lemma FirstOfPack(ptype: byte, payload: Bytes, t: Bytes)
    requires |payload| < 0xFFFF
    ensures First(Pack(ptype, payload) + t) == Some((Packet([ptype], payload), t))
  {
    Widths();
    DecEnc(1 + |payload|, 2);
    hide Enc, Dec, Pow256;
    var s := Pack(ptype, payload);
    assert (s + t)[..2] == Enc(1 + |payload|, 2);
    assert (s + t)[2..2 + (1 + |payload|)] == [ptype] + payload;
    assert (s + t)[2 + (1 + |payload|)..] == t;
    assert ([ptype] + payload)[..1] == [ptype] && ([ptype] + payload)[1..] == payload;
  }

  ghost predicate Packable(ps: seq<Packet>) {
    forall i :: 0 <= i < |ps| ==> |ps[i].ptype| == 1 && |ps[i].payload| < 0xFFFF
  }

  ghost function PackAll(ps: seq<Packet>): Bytes
    requires Packable(ps)
  {
    if ps == [] then [] else Pack(ps[0].ptype[0], ps[0].payload) + PackAll(ps[1..])
  }

  /** Round trip: a stream of packed packets parses back to them, leaving any incomplete tail. */
  lemma {:induction false} ParseOfPackAll(ps: seq<Packet>, tail: Bytes)
    requires Packable(ps) && First(tail) == None
    ensures Packets(PackAll(ps) + tail) == ps && Rest(PackAll(ps) + tail) == tail
  {
    if ps == [] {
      assert PackAll(ps) + tail == tail;
    } else {
      var p := ps[0];
      FirstOfPack(p.ptype[0], p.payload, PackAll(ps[1..]) + tail);
      assert PackAll(ps) + tail == Pack(p.ptype[0], p.payload) + (PackAll(ps[1..]) + tail);
      ParseOfPackAll(ps[1..], tail);
      assert [p.ptype[0]] == p.ptype;
    }
  }

  predicate Framable(bodies: seq<Bytes>) {
    forall i :: 0 <= i < |bodies| ==> |bodies[i]| < 0xFFFF
  }

  /** One packet of the same type around each body. */
  function PackEach(ptype: byte, bodies: seq<Bytes>): (ps: seq<Bytes>)
    requires Framable(bodies)
    ensures |ps| == |bodies| && forall i :: 0 <= i < |ps| ==> |ps[i]| == 3 + |bodies[i]|
  {
    if bodies == [] then []
    else PackEach(ptype, bodies[..|bodies| - 1]) + [Pack(ptype, bodies[|bodies| - 1])]
  }

  function EachPacket(ptype: byte, bodies: seq<Bytes>): (ps: seq<Packet>)
    ensures |ps| == |bodies| && forall i :: 0 <= i < |ps| ==> ps[i] == Packet([ptype], bodies[i])
  {
    if bodies == [] then [] else EachPacket(ptype, bodies[..|bodies| - 1]) + [Packet([ptype], bodies[|bodies| - 1])]
  }

  /** Framed one after another, the bodies come back, and nothing is left over. */
  lemma {:induction false} PacketsOfEach(ptype: byte, bodies: seq<Bytes>)
    requires Framable(bodies)
    ensures Packets(Join(PackEach(ptype, bodies))) == EachPacket(ptype, bodies)
    ensures Rest(Join(PackEach(ptype, bodies))) == []
  {
    NothingYet();
    if bodies != [] {
      var front, last := bodies[..|bodies| - 1], bodies[|bodies| - 1];
      PacketsOfEach(ptype, front);
      var s := Join(PackEach(ptype, front));
      PacketOfPack(ptype, last);
      hide Pack, Packets, Rest;
      ParseInPieces(s, Pack(ptype, last));
      assert [] + Pack(ptype, last) == Pack(ptype, last);
      var ps := PackEach(ptype, bodies);
      assert ps[..|ps| - 1] == PackEach(ptype, front);
    }
  }

  lemma PacketOfPack(ptype: byte, payload: Bytes)
    requires |payload| < 0xFFFF
    ensures Packets(Pack(ptype, payload)) == [Packet([ptype], payload)] && Rest(Pack(ptype, payload)) == []
  {
    NothingYet();
    FirstOfPack(ptype, payload, []);
    assert Pack(ptype, payload) + [] == Pack(ptype, payload);
  }

  /** What a user of the reader does: feed it bytes, or take one packet if one is complete. */
  datatype Op = FeedBytes(data: Bytes) | Take

  datatype Reading = Reading(buf: Bytes, taken: seq<Packet>)

  ghost function Do(r: Reading, op: Op): Reading {
    match op
    case FeedBytes(data) => r.(buf := r.buf + data)
    case Take =>
      match First(r.buf)
      case None => r
      case Some((p, rest)) => Reading(rest, r.taken + [p])
  }

  ghost function DoAll(ops: seq<Op>): Reading {
    if ops == [] then Reading([], []) else Do(DoAll(ops[..|ops| - 1]), ops[|ops| - 1])
  }

  ghost function Stream(ops: seq<Op>): Bytes {
    if ops == [] then []
    else
      Stream(ops[..|ops| - 1]) + match ops[|ops| - 1] case FeedBytes(data) => data case Take => []
  }

  /** The packets taken and the ones still to come, and the bytes that will be left over. */
  ghost function Yield(r: Reading): (seq<Packet>, Bytes) {
    (r.taken + Packets(r.buf), Rest(r.buf))
  }

  lemma NothingYet()
    ensures Packets([]) == [] && Rest([]) == [] && Yield(Reading([], [])) == ([], [])
  {
    assert First([]) == None;
    var r := Reading([], []);
    assert r.taken + Packets(r.buf) == [];
  }

  lemma TakeYieldsTheSame(r: Reading)
    ensures Yield(Do(r, Take)) == Yield(r)
  {
    if First(r.buf).Some? {
      var (p, rest) := First(r.buf).value;
      assert r.taken + ([p] + Packets(rest)) == r.taken + [p] + Packets(rest);
    }
  }

  lemma FeedYieldsMore(r: Reading, s: Bytes, data: Bytes)
    requires Yield(r) == (Packets(s), Rest(s))
    ensures Yield(Do(r, FeedBytes(data))) == (Packets(s + data), Rest(s + data))
  {
    ParseInPieces(r.buf, data);
    ParseInPieces(s, data);
    hide Packets, Rest, First;
    assert r.taken + (Packets(r.buf) + Packets(Rest(r.buf) + data))
        == r.taken + Packets(r.buf) + Packets(Rest(r.buf) + data);
  }

  /** However the stream is cut and whenever packets are taken, partly or fully, what has been taken
      plus what the buffer still yields is the one-shot parse of all the bytes. */
  lemma {:induction false} ChunkingDoesNotMatter(ops: seq<Op>)
    ensures Yield(DoAll(ops)) == (Packets(Stream(ops)), Rest(Stream(ops)))
  {
    if ops != [] {
      var front := ops[..|ops| - 1];
      ChunkingDoesNotMatter(front);
      match ops[|ops| - 1]
      case FeedBytes(data) => FeedYieldsMore(DoAll(front), Stream(front), data);
      case Take =>
        TakeYieldsTheSame(DoAll(front));
        assert Stream(ops) == Stream(front);
    } else {
      NothingYet();
    }
  }

  class Reader {
    var buf: Bytes

    constructor ()
      ensures buf == []
    {
      buf := [];
    }

    method Feed(data: Bytes)
      modifies this
      ensures buf == old(buf) + data
    {
      buf := buf + data;
    }

    /** One step of the packet generator. */
    method Next() returns (p: Option<Packet>)
      modifies this
      ensures match First(old(buf))
        case None => p == None && buf == old(buf)
        case Some((q, rest)) => p == Some(q) && buf == rest
    {
      if |buf| < 2 {
        return None;
      }
      var len := Dec(buf[..2]);
      if |buf| < 2 + len {
        return None;
      }
      var body := buf[2..2 + len];
      buf := buf[2 + len..];
      return Some(Split(body));
    }

    /** Running the generator to its end. */
    method Drain() returns (ps: seq<Packet>)
      modifies this
      ensures ps == Packets(old(buf)) && buf == Rest(old(buf))
    {
      ps := [];
      while true
        invariant ps + Packets(buf) == Packets(old(buf)) && Rest(buf) == Rest(old(buf))
        decreases |buf|
      {
        ghost var before := buf;
        var p := Next();
        if p == None {
          assert ps + [] == ps;
          return;
        }
        assert ps + ([p.value] + Packets(buf)) == ps + [p.value] + Packets(buf);
        ps := ps + [p.value];
      }
    }
  }
}

/** The host session and the mock venue as objects: the methods that do one read, one order, one
    poll, each against the machines of `Session`. */
module SessionObjects {
  import opened Wrappers
  import opened BigEndian
  import opened SoupBin
  import opened Ouch
  import opened Tokens
  import opened Session
  import opened SessionSafety

  /** Handle every complete packet in the buffer, stopping at an exception. */
  ghost function HostTakeAll(h: Host): Host
    decreases |h.buf|
  {
    if h.failed || First(h.buf) == None then h else HostTakeAll(HostHandle(h.(buf := First(h.buf).value.1), First(h.buf).value.0))
  }

  ghost function HostReplyAll(h: Host): seq<Packet>
    decreases |h.buf|
  {
    if h.failed || First(h.buf) == None then []
    else
      var (p, rest) := First(h.buf).value;
      HostReply(p) + HostReplyAll(HostHandle(h.(buf := rest), p))
  }

  lemma HandleKeepsBuffer(h: Host, p: Packet)
    ensures HostHandle(h, p).buf == h.buf && HostHandle(h, p).connected == h.connected
  {
  }

  /** Handling the head of the buffer is the machine's step that takes one packet. */
  lemma HandleIsStep(cfg: Config, s: State, p: Packet, rest: Bytes)
    requires s.h.connected && First(s.h.buf) == Some((p, rest)) && HostReply(p) == []
    ensures Enabled(s, HostTakes) ==> Next(cfg, s, HostTakes) == s.(h := HostHandle(s.h.(buf := rest), p))
  {
    hide PackAll, First, HostHandle;
    NothingToSend();
    assert s.up + [] == s.up;
  }

  lemma LedgerIgnoresBuffer(cfg: Config, h: Host, buf: Bytes, v: Venue, sent: seq<Intent>, ups: seq<Packet>,
                            downs: seq<Packet>)
    ensures Ledger(cfg, h.(buf := buf), v, sent, ups, downs) == Ledger(cfg, h, v, sent, ups, downs)
  {
    hide Known, InOrder, Money, Replies;
  }

  /** No packet that the ledger allows asks the host for an answer. */
  lemma NothingToAnswer(cfg: Config, s: State, p: Packet, rest: Bytes)
    requires Inv(cfg, s) && s.h.connected && First(s.h.buf) == Some((p, rest))
    ensures HostReply(p) == []
  {
    hide First, Packets, Rest, Ledger, HostReply, HostHandle;
    TakeIsHead(s.h.buf, s.down);
    LedgerIgnoresBuffer(cfg, s.h, rest, s.v, s.sent, UpPackets(s), DownPackets(s));
    HostKeepsLedger(cfg, s.h.(buf := rest), s.v, s.sent, UpPackets(s), p, Packets(rest + s.down));
  }

  lemma HandleKeeps(cfg: Config, s: State, p: Packet, rest: Bytes)
    requires Inv(cfg, s) && s.h.connected && First(s.h.buf) == Some((p, rest))
    ensures Inv(cfg, s.(h := HostHandle(s.h.(buf := rest), p))) && HostReply(p) == []
  {
    hide Inv, First, HostHandle, HostReply, Next;
    NothingToAnswer(cfg, s, p, rest);
    HandleIsStep(cfg, s, p, rest);
    NotFailed(cfg, s);
    HostStep(cfg, s);
  }

  /** A poll is the host taking packets one by one, so it keeps what every step keeps. */
  lemma {:induction false} PollKeeps(cfg: Config, s: State)
    requires Inv(cfg, s) && s.h.connected
    ensures Inv(cfg, s.(h := HostTakeAll(s.h))) && HostReplyAll(s.h) == []
    decreases |s.h.buf|
  {
    hide Inv, HostHandle, HostReply;
    NotFailed(cfg, s);
    if First(s.h.buf).Some? {
      var (p, rest) := First(s.h.buf).value;
      HandleKeeps(cfg, s, p, rest);
      HandleKeepsBuffer(s.h.(buf := rest), p);
      PollKeeps(cfg, s.(h := HostHandle(s.h.(buf := rest), p)));
    }
  }

  lemma NotFailed(cfg: Config, s: State)
    requires Inv(cfg, s)
    ensures !s.h.failed
  {
    hide Packets, Rest, Known, InOrder, Money, Replies;
  }

  /** The venue handling every complete packet it has read, until it closes or fails. */
  ghost function VenueTakeAll(cfg: Config, v: Venue): (Venue, seq<Packet>)
    decreases |v.buf|
  {
    if v.closed || v.failed || First(v.buf) == None then (v, [])
    else
      var (p, rest) := First(v.buf).value;
      VenueKeepsBuffer(cfg, v.(buf := rest), p);
      var (w, out) := VenueHandle(cfg, v.(buf := rest), p);
      var (last, more) := VenueTakeAll(cfg, w);
      (last, out + more)
  }

  lemma VenueKeepsBuffer(cfg: Config, v: Venue, p: Packet)
    ensures VenueHandle(cfg, v, p).0.buf == v.buf && Packable(VenueHandle(cfg, v, p).1)
  {
    BufferKept(cfg, v, p);
    if p.ptype == [UNSEQUENCED_DATA] && v.loggedIn {
      OrderRepliesArePackable(cfg, v, p.payload);
    }
  }

  lemma {:induction false} VenueRepliesPackable(cfg: Config, v: Venue)
    ensures Packable(VenueTakeAll(cfg, v).1)
    decreases |v.buf|
  {
    hide VenueHandle;
    if !(v.closed || v.failed || First(v.buf) == None) {
      var (p, rest) := First(v.buf).value;
      VenueKeepsBuffer(cfg, v.(buf := rest), p);
      VenueRepliesPackable(cfg, VenueHandle(cfg, v.(buf := rest), p).0);
    }
  }

  lemma {:induction false} PackAllAppend(a: seq<Packet>, b: seq<Packet>)
    requires Packable(a) && Packable(b)
    ensures Packable(a + b) && PackAll(a + b) == PackAll(a) + PackAll(b)
  {
    if a == [] {
      assert a + b == b;
    } else {
      hide Pack;
      assert (a + b)[1..] == a[1..] + b;
      PackAllAppend(a[1..], b);
    }
  }

  /** A read of the venue is it taking packets one by one, so it keeps what every step keeps. */
  lemma {:induction false} VenueReadKeeps(cfg: Config, s: State)
    requires Inv(cfg, s) && |s.sent| <= U32
    ensures Packable(VenueTakeAll(cfg, s.v).1)
    ensures Inv(cfg, s.(v := VenueTakeAll(cfg, s.v).0, down := s.down + PackAll(VenueTakeAll(cfg, s.v).1)))
    decreases |s.v.buf|
  {
    hide VenueHandle, Packets, Rest, PackAll, Ledger;
    VenueRepliesPackable(cfg, s.v);
    NothingToSend();
    assert s.down + [] == s.down;
    if First(s.v.buf).Some? && !s.v.closed && !s.v.failed {
      var (p, rest) := First(s.v.buf).value;
      var (w, out) := VenueHandle(cfg, s.v.(buf := rest), p);
      VenueKeepsBuffer(cfg, s.v.(buf := rest), p);
      VenueStep(cfg, s);
      var t := Next(cfg, s, VenueTakes);
      assert t == s.(v := w, down := s.down + PackAll(out));
      hide Inv;
      VenueReadKeeps(cfg, t);
      PackAllAppend(out, VenueTakeAll(cfg, w).1);
      assert s.down + PackAll(out) + PackAll(VenueTakeAll(cfg, w).1)
          == s.down + (PackAll(out) + PackAll(VenueTakeAll(cfg, w).1));
    }
  }

  class HostSession {
    const cfg: Config
    const fpga: bool  // the role
    const reader: Reader
    var connected: bool
    var failed: bool
    var session: Bytes
    var tokenSeq: nat
    var inflight: nat
    var position: int
    var pending: map<Bytes, Intent>
    var accepted: nat
    var filled: nat
    var rejected: nat
    var orderAcks: nat  // pulses given to the device

    ghost function View(): Host
      reads this, reader
    {
      Host(connected, failed, reader.buf, session, tokenSeq, inflight, position, pending, accepted, filled,
           rejected, orderAcks)
    }

    constructor (cfg: Config, fpga: bool)
      ensures View() == Start(cfg).h && this.cfg == cfg && this.fpga == fpga && fresh(reader)
    {
      this.cfg, this.fpga := cfg, fpga;
      reader := new Reader();
      connected, failed, session, pending := false, false, [], map[];
      tokenSeq, inflight, position, accepted, filled, rejected, orderAcks := 0, 0, 0, 0, 0, 0, 0;
    }

    /** One read of `connect` while it waits for its answer: at most one packet is taken, and any
        further ones stay in the reader. */
    method ReceiveOne(data: Bytes)
      requires !connected
      modifies this, reader
      ensures View() == HostTake(old(View()).(buf := old(reader.buf) + data))
    {
      reader.Feed(data);
      var p := reader.Next();
      if p == None {
        return;
      }
      if p.value.ptype != [LOGIN_ACCEPTED] {
        failed := true;
        return;
      }
      session := Strip(Cut(p.value.payload, 10));
      connected := true;
    }

    /** `send_order`: refused on the card's session, raising on numbers the wire cannot hold, and
        otherwise one unsequenced packet with its bookkeeping. */
    method SendOrder(buy: bool, shares: nat, price: nat) returns (out: Option<Bytes>)
      modifies this
      ensures out == None <==> fpga || shares >= U32 || price >= U32
      ensures out == None ==> View() == old(View())
      ensures out.Some? ==> View() == HostSend(cfg, old(View()), Intent(buy, shares, price))
      ensures out.Some? ==> out.value == SendBytes(cfg, old(tokenSeq), Intent(buy, shares, price))
      ensures out.Some? ==> OrderBytes(cfg, old(tokenSeq), Intent(buy, shares, price), out.value)
    {
      hide OrderBytes, Token, EnterOrder;
      if fpga || shares >= U32 || price >= U32 {
        return None;
      }
      var token := Token(cfg.prefix, tokenSeq);
      var body := EnterOrder(OrderFor(cfg, tokenSeq, Intent(buy, shares, price)));
      EnterLength(OrderFor(cfg, tokenSeq, Intent(buy, shares, price)));
      pending := pending[token := Intent(buy, shares, price)];
      tokenSeq := tokenSeq + 1;
      inflight := inflight + 1;
      PackOne(UNSEQUENCED_DATA, body);
      SendBytesTell(cfg, tokenSeq - 1, Intent(buy, shares, price));
      return Some(Pack(UNSEQUENCED_DATA, body));
    }

    /** `_handle`. */
    method Handle(p: Packet) returns (out: Bytes)
      modifies this
      ensures View() == HostHandle(old(View()), p)
      ensures out == PackAll(HostReply(p))
    {
      hide ParseOrderAccepted, ParseExecuted;
      if p.ptype == [SERVER_HEARTBEAT] {
        PackOne(CLIENT_HEARTBEAT, []);
        return Pack(CLIENT_HEARTBEAT, []);
      }
      out := [];
      if p.ptype != [SEQUENCED_DATA] || p.payload == [] {
        return;
      }
      if p.payload[0] == ORDER_ACCEPTED {
        if ParseOrderAccepted(p.payload) == None {
          failed := true;
          return;
        }
        accepted := accepted + 1;
        inflight := if inflight > 0 then inflight - 1 else 0;
        orderAcks := orderAcks + 1;
      } else if p.payload[0] == EXECUTED {
        var e := ParseExecuted(p.payload);
        if e == None {
          failed := true;
          return;
        }
        var buy := e.value.token in pending && pending[e.value.token].buy;
        position := if buy then position + e.value.shares else position - e.value.shares;
        filled := filled + 1;
      } else if p.payload[0] == REJECTED {
        rejected := rejected + 1;
        inflight := if inflight > 0 then inflight - 1 else 0;
        orderAcks := orderAcks + 1;
      }
    }

    /** One read of `poll`: every complete packet is handled, unless one raises. */
    method Poll(data: Bytes) returns (out: Bytes)
      requires connected && !failed
      modifies this, reader
      ensures View() == HostTakeAll(old(View()).(buf := old(reader.buf) + data))
      ensures Packable(HostReplyAll(old(View()).(buf := old(reader.buf) + data)))
      ensures out == PackAll(HostReplyAll(old(View()).(buf := old(reader.buf) + data)))
    {
      hide First, HostHandle, HostReply;
      reader.Feed(data);
      ghost var h := View();
      ghost var replies: seq<Packet> := [];
      out := [];
      while !failed
        invariant connected == h.connected
        invariant HostTakeAll(View()) == HostTakeAll(h)
        invariant Packable(replies) && out == PackAll(replies)
        invariant replies + HostReplyAll(View()) == HostReplyAll(h)
        decreases |reader.buf|, !failed
      {
        ghost var before := View();
        var p := reader.Next();
        if p == None {
          assert replies + [] == replies;
          return;
        }
        var bytes := Handle(p.value);
        HandleKeepsBuffer(before.(buf := reader.buf), p.value);
        ReplyIsPackable(p.value);
        PackAllAppend(replies, HostReply(p.value));
        assert replies + (HostReply(p.value) + HostReplyAll(View())) == replies + HostReply(p.value) + HostReplyAll(View());
        replies := replies + HostReply(p.value);
        out := out + bytes;
      }
      assert replies + [] == replies;
    }
  }

  /** A server heartbeat is answered with the three bytes of a client heartbeat, and nothing else is answered. */
  lemma AnswerBytes(p: Packet)
    ensures Packable(HostReply(p))
    ensures PackAll(HostReply(p)) == if p.ptype == ['H' as int] then U2(1) + ['R' as int] else []
  {
    hide Enc;
    if p.ptype == ['H' as int] {
      PackOne(CLIENT_HEARTBEAT, []);
    }
  }

  lemma ReplyIsPackable(p: Packet)
    ensures Packable(HostReply(p))
  {
  }

  lemma PackOne(ptype: byte, payload: Bytes)
    requires |payload| < 0xFFFF
    ensures PackAll([Packet([ptype], payload)]) == Pack(ptype, payload)
  {
    hide Pack;
    assert [Packet([ptype], payload)][1..] == [];
  }

  class MockExchange {
    const cfg: Config
    const reader: Reader
    var loggedIn: bool
    var closed: bool
    var failed: bool
    var received: seq<Order>
    var orderRef: nat
    var matchRef: nat

    ghost function View(): Venue
      reads this, reader
    {
      Venue(loggedIn, closed, failed, reader.buf, received, orderRef, matchRef)
    }

    constructor (cfg: Config)
      ensures View() == Start(cfg).v && this.cfg == cfg && fresh(reader)
    {
      this.cfg := cfg;
      reader := new Reader();
      loggedIn, closed, failed, received, orderRef, matchRef := false, false, false, [], 0, 0;
    }

    /** `_on_order`. */
    method OnOrder(body: Bytes) returns (out: seq<Packet>)
      modifies this
      ensures View() == VenueOrder(cfg, old(View()), body).0 && out == VenueOrder(cfg, old(View()), body).1
    {
      hide ParseEnterOrder, AcceptFor, FillFor;
      if body == [] || body[0] != ENTER_ORDER {
        return [];
      }
      var parsed := ParseEnterOrder(body);
      if parsed == None {
        failed := true;
        return [];
      }
      received := received + [parsed.value];
      orderRef := orderRef + 1;
      if orderRef >= U64 {
        failed := true;
        return [];
      }
      out := [AcceptFor(parsed.value, orderRef)];
      if cfg.fill {
        if matchRef + 1 >= U64 {
          failed := true;
          return;
        }
        matchRef := matchRef + 1;
        out := [AcceptFor(parsed.value, orderRef), FillFor(parsed.value, matchRef)];
      }
    }

    method Handle(p: Packet) returns (out: seq<Packet>)
      modifies this
      ensures View() == VenueHandle(cfg, old(View()), p).0 && out == VenueHandle(cfg, old(View()), p).1
    {
      hide VenueOrder;
      if p.ptype == [LOGIN_REQUEST] {
        loggedIn := true;
        return [Packet([LOGIN_ACCEPTED], LoginAcceptedPayload(cfg.account))];
      } else if p.ptype == [LOGOUT_REQUEST] {
        closed := true;
        return [Packet([END_OF_SESSION], [])];
      } else if p.ptype == [UNSEQUENCED_DATA] && loggedIn {
        out := OnOrder(p.payload);
      } else {
        out := [];
      }
    }

    /** One read of the connection: every complete packet is answered until it closes or fails. */
    method Receive(data: Bytes) returns (out: seq<Packet>)
      requires !closed && !failed
      modifies this, reader
      ensures (View(), out) == VenueTakeAll(cfg, old(View()).(buf := old(reader.buf) + data))
    {
      hide First, VenueHandle;
      reader.Feed(data);
      ghost var v := View();
      out := [];
      while !closed && !failed
        invariant VenueTakeAll(cfg, View()).0 == VenueTakeAll(cfg, v).0
        invariant out + VenueTakeAll(cfg, View()).1 == VenueTakeAll(cfg, v).1
        decreases |reader.buf|, !closed && !failed
      {
        ghost var before := View();
        var p := reader.Next();
        if p == None {
          assert out + [] == out;
          return;
        }
        var more := Handle(p.value);
        VenueKeepsBuffer(cfg, before.(buf := reader.buf), p.value);
        assert out + (more + VenueTakeAll(cfg, View()).1) == out + more + VenueTakeAll(cfg, View()).1;
        out := out + more;
      }
      assert out + [] == out;
    }
  }
}

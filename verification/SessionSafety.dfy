/** What every reachable state of a host session and its venue keeps, and where a drained session
    ends up. */
module SessionSafety {
  import opened Wrappers
  import opened BigEndian
  import opened SoupBin
  import opened Ouch
  import opened Tokens
  import opened Session

  /** Everything the host has written and the venue has not yet handled, and the other way. */
  ghost function UpPackets(s: State): seq<Packet> {
    Packets(s.v.buf + s.up)
  }

  ghost function DownPackets(s: State): seq<Packet> {
    Packets(s.h.buf + s.down)
  }

  // ---- the streams as packets ----

  lemma WriteAppends(buf: Bytes, wire: Bytes, ps: seq<Packet>)
    requires Rest(buf + wire) == [] && Packable(ps)
    ensures Packets(buf + (wire + PackAll(ps))) == Packets(buf + wire) + ps
    ensures Rest(buf + (wire + PackAll(ps))) == []
  {
    assert buf + (wire + PackAll(ps)) == buf + wire + PackAll(ps);
    ParseInPieces(buf + wire, PackAll(ps));
    ParseOfPackAll(ps, []);
    assert PackAll(ps) + [] == PackAll(ps) && [] + PackAll(ps) == PackAll(ps);
  }

  lemma TakeIsHead(buf: Bytes, wire: Bytes)
    requires First(buf).Some?
    ensures Packets(buf + wire) == [First(buf).value.0] + Packets(First(buf).value.1 + wire)
    ensures Rest(buf + wire) == Rest(First(buf).value.1 + wire)
  {
    FirstStays(buf, wire);
  }

  lemma ReadMoves(buf: Bytes, wire: Bytes, n: nat)
    requires n <= |wire|
    ensures buf + wire[..n] + wire[n..] == buf + wire
  {
    assert wire[..n] + wire[n..] == wire;
  }

  // ---- what the packets stand for ----

  ghost function OrderIn(p: Packet): Option<Order> {
    if p.ptype == [UNSEQUENCED_DATA] && p.payload != [] && p.payload[0] == ENTER_ORDER
    then ParseEnterOrder(p.payload) else None
  }

  /** What every order of a session carries besides token, side, shares and price: the session's own stock and firm as
      their fields hold them, an immediate time in force, no minimum quantity, and the fixed codes. */
  ghost predicate Dressed(cfg: Config, o: Order) {
    && o.stock == Strip(Cut(cfg.stock, 8)) && o.firm == Strip(Cut(cfg.firm, 4)) && o.tif == 0 && o.minQty == 0
    && o.display == ['A' as int] && o.capacity == ['P' as int] && o.sweep == ['N' as int]
    && o.cross == ['N' as int] && o.cust == ['N' as int]
  }

  /** `o` is the `i`-th order sent, as the venue reads it. */
  ghost predicate IsSent(cfg: Config, sent: seq<Intent>, o: Order, i: nat) {
    i < |sent| && o.token == Token(cfg.prefix, i) && Intent(o.buy, o.shares, o.price) == sent[i] && Dressed(cfg, o)
  }

  ghost predicate Carries(cfg: Config, sent: seq<Intent>, p: Packet, i: nat) {
    OrderIn(p).Some? && IsSent(cfg, sent, OrderIn(p).value, i)
  }

  ghost predicate IsAccept(p: Packet) {
    p.ptype == [SEQUENCED_DATA] && p.payload != [] && p.payload[0] == ORDER_ACCEPTED && ParseOrderAccepted(p.payload).Some?
  }

  ghost predicate IsFill(pending: map<Bytes, Intent>, p: Packet) {
    && p.ptype == [SEQUENCED_DATA] && p.payload != [] && p.payload[0] == EXECUTED && ParseExecuted(p.payload).Some?
    && ParseExecuted(p.payload).value.token in pending
  }

  ghost predicate IsReply(pending: map<Bytes, Intent>, p: Packet) {
    IsAccept(p) || IsFill(pending, p)
  }

  ghost function AcceptOf(p: Packet): int {
    if IsAccept(p) then 1 else 0
  }

  ghost function FillOf(pending: map<Bytes, Intent>, p: Packet): int {
    if IsFill(pending, p) then
      var e := ParseExecuted(p.payload).value;
      Signed(pending[e.token].buy, e.shares)
    else 0
  }

  ghost function OrderOf(p: Packet): int {
    match OrderIn(p)
    case None => 0
    case Some(o) => Signed(o.buy, o.shares)
  }

  ghost function Accepts(ps: seq<Packet>): int {
    if ps == [] then 0 else AcceptOf(ps[0]) + Accepts(ps[1..])
  }

  ghost function FillSum(pending: map<Bytes, Intent>, ps: seq<Packet>): int {
    if ps == [] then 0 else FillOf(pending, ps[0]) + FillSum(pending, ps[1..])
  }

  ghost function OrderSum(ps: seq<Packet>): int {
    if ps == [] then 0 else OrderOf(ps[0]) + OrderSum(ps[1..])
  }

  /** Shares bought less shares sold. */
  ghost function SentSum(sent: seq<Intent>): int {
    if sent == [] then 0
    else
      var i := sent[|sent| - 1];
      SentSum(sent[..|sent| - 1]) + if i.buy then i.shares as int else -(i.shares as int)
  }

  lemma {:induction false} SumsAppend(pending: map<Bytes, Intent>, a: seq<Packet>, b: seq<Packet>)
    ensures Accepts(a + b) == Accepts(a) + Accepts(b)
    ensures FillSum(pending, a + b) == FillSum(pending, a) + FillSum(pending, b)
    ensures OrderSum(a + b) == OrderSum(a) + OrderSum(b)
  {
    if a == [] {
      assert a + b == b;
    } else {
      hide AcceptOf, FillOf, OrderOf;
      assert (a + b)[1..] == a[1..] + b;
      SumsAppend(pending, a[1..], b);
    }
  }

  /** A fresh token changes the meaning of no fill already under way. */
  lemma {:induction false} FreshTokenKeepsFills(pending: map<Bytes, Intent>, t: Bytes, i: Intent, ps: seq<Packet>)
    requires t !in pending && forall p :: p in ps ==> IsReply(pending, p)
    ensures FillSum(pending[t := i], ps) == FillSum(pending, ps)
    ensures forall p :: p in ps ==> IsReply(pending[t := i], p)
  {
    if ps != [] {
      hide ParseOrderAccepted, ParseExecuted;
      assert ps[0] in ps;
      forall p | p in ps[1..]
        ensures p in ps
      {
      }
      FreshTokenKeepsFills(pending, t, i, ps[1..]);
    }
  }

  // ---- the invariant ----

  /** The pending table holds every order sent under its own token, and nothing else. */
  ghost predicate Known(cfg: Config, pending: map<Bytes, Intent>, sent: seq<Intent>) {
    && (forall t :: t in pending ==> exists i :: 0 <= i < |sent| && t == Token(cfg.prefix, i))
    && (forall i :: 0 <= i < |sent| ==> Token(cfg.prefix, i) in pending && pending[Token(cfg.prefix, i)] == sent[i])
  }

  ghost predicate Bookkeeping(cfg: Config, h: Host, sent: seq<Intent>) {
    && h.tokenSeq == |sent| && h.orderAcks == h.accepted + h.rejected && h.rejected == 0
    && Known(cfg, h.pending, sent)
  }

  /** Every order sent is on its way up, or answered and on its way down, or handled. */
  ghost predicate Counts(cfg: Config, h: Host, v: Venue, sent: seq<Intent>, ups: seq<Packet>, downs: seq<Packet>) {
    && h.inflight == |ups| + Accepts(downs)
    && h.accepted + h.inflight == |sent|
    && h.filled + |downs| - Accepts(downs) == (if cfg.fill then |v.received| else 0)
    && |v.received| + |ups| == |sent|
    && v.orderRef == |v.received| && v.matchRef == if cfg.fill then |v.received| else 0
  }

  /** The venue has read, and will read, exactly the orders sent, in order. */
  ghost predicate InOrder(cfg: Config, received: seq<Order>, sent: seq<Intent>, ups: seq<Packet>) {
    && (forall i :: 0 <= i < |received| ==> IsSent(cfg, sent, received[i], i))
    && (forall j :: 0 <= j < |ups| ==> Carries(cfg, sent, ups[j], |received| + j))
  }

  ghost predicate Replies(cfg: Config, pending: map<Bytes, Intent>, downs: seq<Packet>) {
    forall p :: p in downs ==> IsReply(pending, p) && (!cfg.fill ==> IsAccept(p))
  }

  /** Position, fills under way and orders yet to be filled add up to what was sent. */
  ghost predicate Money(cfg: Config, position: int, pending: map<Bytes, Intent>, sent: seq<Intent>,
                        ups: seq<Packet>, downs: seq<Packet>) {
    position + FillSum(pending, downs) + (if cfg.fill then OrderSum(ups) else 0)
    == if cfg.fill then SentSum(sent) else 0
  }

  ghost predicate Ledger(cfg: Config, h: Host, v: Venue, sent: seq<Intent>, ups: seq<Packet>, downs: seq<Packet>) {
    && h.connected && v.loggedIn && !h.failed && !v.failed && !v.closed
    && h.session == Strip(Cut(cfg.account, 10))
    && Bookkeeping(cfg, h, sent)
    && Counts(cfg, h, v, sent, ups, downs)
    && InOrder(cfg, v.received, sent, ups)
    && Replies(cfg, h.pending, downs)
    && Money(cfg, h.position, h.pending, sent, ups, downs)
  }

  /** Both streams end on packet boundaries. */
  ghost predicate Whole(s: State) {
    Rest(s.v.buf + s.up) == [] && Rest(s.h.buf + s.down) == []
  }

  ghost predicate Trading(cfg: Config, s: State) {
    Whole(s) && Ledger(cfg, s.h, s.v, s.sent, UpPackets(s), DownPackets(s))
  }

  /** Before the login answer is read: nothing has been sent and one login packet is under way. */
  ghost predicate LoggingIn(cfg: Config, s: State) {
    && Whole(s) && !s.h.failed && !s.v.failed && !s.v.closed
    && !s.h.connected && s.sent == [] && Bookkeeping(cfg, s.h, [])
    && s.h.inflight == 0 && s.h.position == 0 && s.h.accepted == 0 && s.h.filled == 0
    && s.v.received == [] && s.v.orderRef == 0 && s.v.matchRef == 0
    && (if s.v.loggedIn
        then UpPackets(s) == [] && DownPackets(s) == [Packet([LOGIN_ACCEPTED], LoginAcceptedPayload(cfg.account))]
        else UpPackets(s) == [Packet([LOGIN_REQUEST], LoginRequestPayload(cfg))] && DownPackets(s) == [])
  }

  ghost predicate Inv(cfg: Config, s: State) {
    LoggingIn(cfg, s) || Trading(cfg, s)
  }

  // ---- every step keeps it ----

  lemma StartIsLoggingIn(cfg: Config)
    ensures LoggingIn(cfg, Start(cfg))
  {
    var login := Packet([LOGIN_REQUEST], LoginRequestPayload(cfg));
    NothingYet();
    assert Packable([login]);
    var none: Bytes := [];
    assert none + none == none && none + (none + PackAll([login])) == none + PackAll([login]);
    WriteAppends(none, none, [login]);
    assert Packets(none) + [login] == [login];
  }

  lemma ChunkKeeps(cfg: Config, s: State, e: Event)
    requires Inv(cfg, s) && (e.UpChunk? || e.DownChunk?) && Enabled(s, e)
    ensures Inv(cfg, Next(cfg, s, e))
  {
    hide Packets, Rest, First, Known, IsSent, Carries, Replies, FillSum, Accepts, LoginAcceptedPayload, LoginRequestPayload;
    if e.UpChunk? {
      ReadMoves(s.v.buf, s.up, e.n);
    } else {
      ReadMoves(s.h.buf, s.down, e.n);
    }
  }

  /** The packet a send puts on the wire carries exactly that order. */
  lemma SentPacket(cfg: Config, n: nat, i: Intent)
    requires n < U32 && i.shares < U32 && i.price < U32
    ensures var p := Packet([UNSEQUENCED_DATA], EnterOrder(OrderFor(cfg, n, i)));
      && Packable([p]) && OrderIn(p).Some?
      && OrderIn(p).value.token == Token(cfg.prefix, n) && Dressed(cfg, OrderIn(p).value)
      && Intent(OrderIn(p).value.buy, OrderIn(p).value.shares, OrderIn(p).value.price) == i
  {
    EnterOrderRoundTrip(OrderFor(cfg, n, i));
    EnterLayout(OrderFor(cfg, n, i));
    TokenFitsIff(cfg.prefix, n);
    hide EnterOrder, Token;
    var b := EnterOrder(OrderFor(cfg, n, i));
    assert b[0] == b[0..1][0];
  }

  /** The bytes of an order of the session: an unsequenced packet around a body with its own stock and firm. */
  ghost predicate OrderBytes(cfg: Config, n: nat, i: Intent, b: Bytes) {
    && |b| == 52 && b[0..2] == U2(50) && b[2..3] == ['U' as int]
    && PlainBody(b[3..], Token(cfg.prefix, n), i.buy, i.shares, cfg.stock, i.price, cfg.firm)
  }

  lemma SendBytesTell(cfg: Config, n: nat, i: Intent)
    requires i.shares < U32 && i.price < U32
    ensures OrderBytes(cfg, n, i, SendBytes(cfg, n, i))
  {
    var o := OrderFor(cfg, n, i);
    EnterLayout(o);
    hide EnterOrder, Token, Pad, U4, U2;
    BodyPacked(EnterOrder(o));
  }

  lemma BodyPacked(body: Bytes)
    requires |body| == 49
    ensures var b := PackAll([Packet([UNSEQUENCED_DATA], body)]);
      |b| == 52 && b[0..2] == U2(50) && b[2..3] == [UNSEQUENCED_DATA] && b[3..] == body
  {
    hide Enc;
    assert [Packet([UNSEQUENCED_DATA], body)][1..] == [];
  }

  lemma FreshToken(cfg: Config, h: Host, sent: seq<Intent>, i: Intent)
    requires Known(cfg, h.pending, sent)
    ensures Token(cfg.prefix, |sent|) !in h.pending
    ensures Known(cfg, h.pending[Token(cfg.prefix, |sent|) := i], sent + [i])
  {
    forall k: nat | k != |sent|
      ensures Token(cfg.prefix, k) != Token(cfg.prefix, |sent|)
    {
      TokensDiffer(cfg.prefix, k, |sent|);
    }
    hide Token;
    var t := sent + [i];
    forall k | 0 <= k < |sent|
      ensures t[k] == sent[k]
    {
    }
  }

  lemma SendKeepsOrder(cfg: Config, received: seq<Order>, sent: seq<Intent>, ups: seq<Packet>, p: Packet, i: Intent)
    requires InOrder(cfg, received, sent, ups) && |received| + |ups| == |sent|
    requires Carries(cfg, sent + [i], p, |sent|)
    ensures InOrder(cfg, received, sent + [i], ups + [p])
  {
    hide Token, OrderIn;
  }

  lemma SendKeepsMoney(cfg: Config, h: Host, sent: seq<Intent>, ups: seq<Packet>, downs: seq<Packet>, p: Packet, i: Intent)
    requires Money(cfg, h.position, h.pending, sent, ups, downs) && Replies(cfg, h.pending, downs)
    requires h.tokenSeq == |sent| && Token(cfg.prefix, |sent|) !in h.pending
    requires OrderOf(p) == Signed(i.buy, i.shares)
    ensures Money(cfg, HostSend(cfg, h, i).position, HostSend(cfg, h, i).pending, sent + [i], ups + [p], downs)
    ensures Replies(cfg, HostSend(cfg, h, i).pending, downs)
  {
    SumsAppend(h.pending, ups, [p]);
    FreshTokenKeepsFills(h.pending, Token(cfg.prefix, |sent|), i, downs);
    SumOfOne(h.pending, p);
    assert (sent + [i])[..|sent|] == sent;
    hide Token, FillSum, OrderSum, OrderOf, IsReply, IsAccept;
  }

  /** Sending one more order. */
  lemma SendKeepsLedger(cfg: Config, h: Host, v: Venue, sent: seq<Intent>, ups: seq<Packet>, downs: seq<Packet>,
                        p: Packet, i: Intent)
    requires Ledger(cfg, h, v, sent, ups, downs)
    requires Carries(cfg, sent + [i], p, |sent|)
    ensures Ledger(cfg, HostSend(cfg, h, i), v, sent + [i], ups + [p], downs)
  {
    hide Token, Known, InOrder, Carries, OrderOf, Money, Replies, Accepts;
    CarriedSum(cfg, sent, p, i);
    FreshToken(cfg, h, sent, i);
    SendKeepsMoney(cfg, h, sent, ups, downs, p, i);
    SendKeepsOrder(cfg, v.received, sent, ups, p, i);
  }

  lemma CarriedSum(cfg: Config, sent: seq<Intent>, p: Packet, i: Intent)
    requires Carries(cfg, sent + [i], p, |sent|)
    ensures OrderOf(p) == Signed(i.buy, i.shares)
  {
    hide Token, OrderIn, Dressed;
  }

  lemma SendKeeps(cfg: Config, s: State, i: Intent)
    requires Trading(cfg, s) && Enabled(s, Send(i)) && |s.sent| < U32
    ensures Trading(cfg, Next(cfg, s, Send(i)))
  {
    var p := Packet([UNSEQUENCED_DATA], EnterOrder(OrderFor(cfg, |s.sent|, i)));
    SentPacket(cfg, |s.sent|, i);
    WriteAppends(s.v.buf, s.up, [p]);
    SendKeepsLedger(cfg, s.h, s.v, s.sent, UpPackets(s), DownPackets(s), p, i);
    hide Packets, Rest, First, EnterOrder, HostSend, Counts, InOrder, Replies, Money, OrderIn, PackAll;
  }

  /** The accept and the fill of an order, as the host will read them. */
  lemma AnswersReadBack(pending: map<Bytes, Intent>, o: Order, ref: nat)
    requires |o.token| == 14 && o.shares < U32 && o.price < U32 && ref < U64 && o.token in pending
    ensures IsAccept(AcceptFor(o, ref)) && FillOf(pending, AcceptFor(o, ref)) == 0
    ensures IsFill(pending, FillFor(o, ref)) && AcceptOf(FillFor(o, ref)) == 0
    ensures FillOf(pending, FillFor(o, ref)) == Signed(pending[o.token].buy, o.shares)
    ensures Packable([AcceptFor(o, ref)]) && Packable([FillFor(o, ref)])
  {
    PadExact(o.token, 14);
    AcceptedRoundTrip(Accepted(o.token, o.buy, o.shares, o.stock, o.price, ref));
    ExecutedRoundTrip(Fill(o.token, o.shares, o.price, ref));
    hide OrderAccepted, Executed, ParseOrderAccepted, ParseExecuted, Pad, Strip;
  }

  /** What the venue answers to an order it reads: an accept with that order's own values and the next order
      reference and, when filling, a fill of all its shares at its price with the next match reference. */
  lemma VenueTells(cfg: Config, v: Venue, body: Bytes, o: Order)
    requires body != [] && body[0] == ENTER_ORDER && ParseEnterOrder(body) == Some(o)
    requires v.orderRef + 1 < U64 && v.matchRef + 1 < U64
    ensures var (w, out) := VenueOrder(cfg, v, body);
      && w.received == v.received + [o] && w.orderRef == v.orderRef + 1 && w.failed == v.failed
      && |out| == (if cfg.fill then 2 else 1) && w.matchRef == v.matchRef + (if cfg.fill then 1 else 0)
      && AcceptTells(out[0], o, v.orderRef + 1) && (cfg.fill ==> FillTells(out[1], o, v.matchRef + 1))
  {
    hide ParseEnterOrder, AcceptTells, FillTells, AcceptFor, FillFor;
    AcceptRead(o, v.orderRef + 1);
    FillRead(o, v.matchRef + 1);
  }

  /** The packet is read as an accept of order `o`. */
  ghost predicate AcceptTells(p: Packet, o: Order, ref: nat) {
    && p.ptype == [SEQUENCED_DATA] && p.payload != [] && p.payload[0] == ORDER_ACCEPTED
    && ParseOrderAccepted(p.payload)
       == Some(Accepted(o.token, o.buy, o.shares, Strip(Cut(o.stock, 8)), o.price, ref))
  }

  ghost predicate FillTells(p: Packet, o: Order, ref: nat) {
    && p.ptype == [SEQUENCED_DATA] && p.payload != [] && p.payload[0] == EXECUTED
    && ParseExecuted(p.payload) == Some(Fill(o.token, o.shares, o.price, ref))
  }

  lemma AcceptRead(o: Order, ref: nat)
    requires |o.token| == 14 && o.shares < U32 && o.price < U32 && ref < U64
    ensures AcceptTells(AcceptFor(o, ref), o, ref)
  {
    PadExact(o.token, 14);
    AcceptedRoundTrip(Accepted(o.token, o.buy, o.shares, o.stock, o.price, ref));
    hide OrderAccepted, ParseOrderAccepted, Pad, Strip;
  }

  lemma FillRead(o: Order, ref: nat)
    requires |o.token| == 14 && o.shares < U32 && o.price < U32 && ref < U64
    ensures FillTells(FillFor(o, ref), o, ref)
  {
    PadExact(o.token, 14);
    ExecutedRoundTrip(Fill(o.token, o.shares, o.price, ref));
    hide Executed, ParseExecuted, Pad;
  }

  ghost function Answers(cfg: Config, o: Order, n: nat): seq<Packet>
    requires o.shares < U32 && o.price < U32 && n < U64
  {
    if cfg.fill then [AcceptFor(o, n), FillFor(o, n)] else [AcceptFor(o, n)]
  }

  /** Reading the next order, the venue answers it and fails nowhere. */
  lemma VenueAnswers(cfg: Config, v: Venue, sent: seq<Intent>, p: Packet)
    requires Carries(cfg, sent, p, |v.received|) && v.loggedIn && |sent| <= U32
    requires v.orderRef == |v.received| && v.matchRef == if cfg.fill then |v.received| else 0
    ensures var o, n := OrderIn(p).value, |v.received| + 1;
      VenueHandle(cfg, v, p)
      == (v.(received := v.received + [o], orderRef := n, matchRef := if cfg.fill then n else 0), Answers(cfg, o, n))
  {
    hide ParseEnterOrder, AcceptFor, FillFor, Token;
  }

  lemma AnswersCount(cfg: Config, pending: map<Bytes, Intent>, o: Order, n: nat)
    requires |o.token| == 14 && o.shares < U32 && o.price < U32 && n < U64 && o.token in pending
    ensures Accepts(Answers(cfg, o, n)) == 1 && |Answers(cfg, o, n)| == if cfg.fill then 2 else 1
    ensures FillSum(pending, Answers(cfg, o, n)) == if cfg.fill then Signed(pending[o.token].buy, o.shares) else 0
    ensures Replies(cfg, pending, Answers(cfg, o, n)) && Packable(Answers(cfg, o, n))
  {
    AnswersReadBack(pending, o, n);
    SumOfOne(pending, AcceptFor(o, n));
    SumOfOne(pending, FillFor(o, n));
    SumsAppend(pending, [AcceptFor(o, n)], [FillFor(o, n)]);
    assert [AcceptFor(o, n), FillFor(o, n)] == [AcceptFor(o, n)] + [FillFor(o, n)];
    hide IsAccept, IsFill, FillOf, AcceptFor, FillFor, FillSum, Accepts;
  }

  lemma SumOfOne(pending: map<Bytes, Intent>, p: Packet)
    ensures Accepts([p]) == AcceptOf(p) && FillSum(pending, [p]) == FillOf(pending, p) && OrderSum([p]) == OrderOf(p)
  {
    hide AcceptOf, FillOf, OrderOf;
    assert [p][1..] == [];
  }

  lemma OrderIsKnown(cfg: Config, pending: map<Bytes, Intent>, sent: seq<Intent>, p: Packet, i: nat)
    requires Known(cfg, pending, sent) && Carries(cfg, sent, p, i)
    ensures var o := OrderIn(p).value;
      && |o.token| == 14 && o.shares < U32 && o.price < U32
      && o.token in pending && pending[o.token].buy == o.buy && OrderOf(p) == Signed(o.buy, o.shares)
  {
    hide ParseEnterOrder, Token;
  }

  lemma VenueKeepsMoney(cfg: Config, h: Host, sent: seq<Intent>, p: Packet, ups: seq<Packet>, downs: seq<Packet>, out: seq<Packet>)
    requires Money(cfg, h.position, h.pending, sent, [p] + ups, downs)
    requires FillSum(h.pending, out) == if cfg.fill then OrderOf(p) else 0
    ensures Money(cfg, h.position, h.pending, sent, ups, downs + out)
  {
    SumsAppend(h.pending, downs, out);
    SumsAppend(h.pending, [p], ups);
    SumOfOne(h.pending, p);
    hide FillSum, OrderSum, OrderOf;
  }

  lemma VenueKeepsOrder(cfg: Config, received: seq<Order>, sent: seq<Intent>, p: Packet, ups: seq<Packet>)
    requires InOrder(cfg, received, sent, [p] + ups) && OrderIn(p).Some?
    ensures InOrder(cfg, received + [OrderIn(p).value], sent, ups)
  {
    hide IsSent, OrderIn;
    forall j | 0 <= j < |ups|
      ensures Carries(cfg, sent, ups[j], |received| + 1 + j)
    {
      assert ([p] + ups)[j + 1] == ups[j];
    }
    assert ([p] + ups)[0] == p;
  }

  lemma RepliesAppend(cfg: Config, pending: map<Bytes, Intent>, a: seq<Packet>, b: seq<Packet>)
    requires Replies(cfg, pending, a) && Replies(cfg, pending, b)
    ensures Replies(cfg, pending, a + b)
  {
    hide IsReply, IsAccept;
  }

  /** The venue takes the next order: it moves from the way up to the way down. */
  lemma VenueKeepsLedger(cfg: Config, h: Host, v: Venue, sent: seq<Intent>, p: Packet, ups: seq<Packet>, downs: seq<Packet>)
    requires Ledger(cfg, h, v, sent, [p] + ups, downs) && |sent| <= U32
    ensures Ledger(cfg, h, VenueHandle(cfg, v, p).0, sent, ups, downs + VenueHandle(cfg, v, p).1)
    ensures Packable(VenueHandle(cfg, v, p).1)
  {
    hide OrderIn, Known, Money, Accepts, FillSum, OrderOf, Answers, Replies, VenueHandle, Token, IsSent;
    assert ([p] + ups)[0] == p;
    assert Carries(cfg, sent, p, |v.received|);
    OrderIsKnown(cfg, h.pending, sent, p, |v.received|);
    VenueAnswers(cfg, v, sent, p);
    var o, n, w := OrderIn(p).value, |v.received| + 1, VenueHandle(cfg, v, p).0;
    var out := Answers(cfg, o, n);
    AnswersCount(cfg, h.pending, o, n);
    VenueKeepsMoney(cfg, h, sent, p, ups, downs, out);
    VenueKeepsOrder(cfg, v.received, sent, p, ups);
    RepliesAppend(cfg, h.pending, downs, out);
    SumsAppend(h.pending, downs, out);
    hide InOrder, Carries;
    assert Counts(cfg, h, w, sent, ups, downs + out);
  }

  lemma ReadFill(h: Host, p: Packet)
    requires IsFill(h.pending, p)
    ensures HostHandle(h, p) == h.(position := h.position + FillOf(h.pending, p), filled := h.filled + 1)
  {
    hide ParseExecuted;
  }

  /** Reading an accept releases one order; the release never clamps at zero. */
  lemma ReadAccept(h: Host, p: Packet)
    requires IsAccept(p) && 0 < h.inflight
    ensures HostHandle(h, p) == h.(accepted := h.accepted + 1, inflight := h.inflight - 1, orderAcks := h.orderAcks + 1)
    ensures FillOf(h.pending, p) == 0
  {
    hide ParseOrderAccepted, ParseExecuted;
  }

  /** Reading any fill moves the position by its shares, up for a known buy and down otherwise. */
  lemma ReadExecuted(h: Host, p: Packet, e: Fill)
    requires p.ptype == [SEQUENCED_DATA] && p.payload != [] && p.payload[0] == EXECUTED
    requires ParseExecuted(p.payload) == Some(e)
    ensures var up := e.token in h.pending && h.pending[e.token].buy;
      HostHandle(h, p)
      == h.(position := if up then h.position + e.shares else h.position - e.shares, filled := h.filled + 1)
  {
    hide ParseExecuted;
  }

  /** Reading a reject releases one order, if one is in flight. */
  lemma ReadReject(h: Host, p: Packet)
    requires p.ptype == [SEQUENCED_DATA] && p.payload != [] && p.payload[0] == REJECTED
    ensures HostHandle(h, p) == h.(rejected := h.rejected + 1, orderAcks := h.orderAcks + 1,
                                   inflight := if h.inflight == 0 then 0 else h.inflight - 1)
  {
    hide ParseOrderAccepted, ParseExecuted;
  }

  lemma {:induction false} AcceptsNotNegative(ps: seq<Packet>)
    ensures Accepts(ps) >= 0
  {
    if ps != [] {
      AcceptsNotNegative(ps[1..]);
    }
  }

  /** The host takes the next reply: an accept or a fill moves from the way down into the books. */
  lemma HostKeepsLedger(cfg: Config, h: Host, v: Venue, sent: seq<Intent>, ups: seq<Packet>, p: Packet, downs: seq<Packet>)
    requires Ledger(cfg, h, v, sent, ups, [p] + downs)
    ensures IsAccept(p) ==> 0 < h.inflight
    ensures HostReply(p) == []
    ensures Ledger(cfg, HostHandle(h, p), v, sent, ups, downs)
  {
    hide Known, InOrder, HostHandle, ParseExecuted, ParseOrderAccepted, FillSum, Accepts, OrderSum, FillOf;
    assert p in [p] + downs;
    assert IsReply(h.pending, p);
    SumOfOne(h.pending, p);
    SumsAppend(h.pending, [p], downs);
    AcceptsNotNegative(downs);
    forall q | q in downs
      ensures q in [p] + downs
    {
    }
    if IsAccept(p) {
      ReadAccept(h, p);
    } else {
      ReadFill(h, p);
    }
  }

  lemma NothingToSend()
    ensures PackAll([]) == []
  {
  }

  lemma VenueStep(cfg: Config, s: State)
    requires Inv(cfg, s) && Enabled(s, VenueTakes) && |s.sent| <= U32
    ensures Inv(cfg, Next(cfg, s, VenueTakes))
  {
    hide Packets, Rest, PackAll, Known, InOrder, Money, Replies, LoginAcceptedPayload, LoginRequestPayload, VenueOrder;
    NothingToSend();
    RepliesArePackable(cfg, s.v);
    if First(s.v.buf) == None {
      assert s.down + [] == s.down;
    } else {
      var (p, rest) := First(s.v.buf).value;
      var v := s.v.(buf := rest);
      var out := VenueHandle(cfg, v, p).1;
      TakeIsHead(s.v.buf, s.up);
      hide First;
      if Trading(cfg, s) {
        VenueKeepsLedger(cfg, s.h, v, s.sent, p, Packets(rest + s.up), DownPackets(s));
        BufferKept(cfg, v, p);
        hide VenueHandle;
        WriteAppends(s.h.buf, s.down, out);
      } else {
        assert ([p] + Packets(rest + s.up))[0] == p;
        assert ([p] + Packets(rest + s.up))[1..] == Packets(rest + s.up);
        WriteAppends(s.h.buf, s.down, out);
      }
    }
  }

  lemma BufferKept(cfg: Config, v: Venue, p: Packet)
    ensures VenueHandle(cfg, v, p).0.buf == v.buf
  {
    hide ParseEnterOrder, AcceptFor, FillFor;
  }

  lemma HostStep(cfg: Config, s: State)
    requires Inv(cfg, s) && Enabled(s, HostTakes)
    ensures Inv(cfg, Next(cfg, s, HostTakes))
  {
    hide Packets, Rest, PackAll, Known, InOrder, Money, LoginAcceptedPayload, LoginRequestPayload, HostHandle;
    NothingToSend();
    assert s.up + [] == s.up;
    if First(s.h.buf).Some? {
      var (p, rest) := First(s.h.buf).value;
      var h := s.h.(buf := rest);
      TakeIsHead(s.h.buf, s.down);
      hide First;
      if Trading(cfg, s) {
        HostKeepsLedger(cfg, h, s.v, s.sent, UpPackets(s), p, Packets(rest + s.down));
        HostBufferKept(h, p);
      } else {
        assert ([p] + Packets(rest + s.down))[0] == p;
        assert ([p] + Packets(rest + s.down))[1..] == Packets(rest + s.down);
        SessionName(cfg.account);
        EmptyLedger(cfg, HostLogin(h, p), s.v);
      }
    }
  }

  lemma HostBufferKept(h: Host, p: Packet)
    ensures HostHandle(h, p).buf == h.buf
  {
  }

  /** The login packets byte by byte: names filled with blanks, a blank session, and sequence number 1 on the right. */
  lemma LoginBytes(cfg: Config)
    ensures var b := LoginAcceptedPayload(cfg.account);
      |b| == 30 && b[..10] == Pad(cfg.account, 10) && b[29] == '1' as int && forall i :: 10 <= i < 29 ==> b[i] == SPACE
    ensures var b := LoginRequestPayload(cfg);
      && |b| == 46 && b[..6] == Pad(cfg.username, 6) && b[6..16] == Pad(cfg.password, 10) && b[45] == '1' as int
      && forall i :: 16 <= i < 45 ==> b[i] == SPACE
  {
    hide Pad;
  }

  /** The login answer names the account, filled to ten bytes, before its other fields. */
  lemma SessionName(account: Bytes)
    ensures Strip(Cut(LoginAcceptedPayload(account), 10)) == Strip(Cut(account, 10))
  {
    StripOfPad(account, 10);
    hide Strip, Pad;
    assert LoginAcceptedPayload(account)[..10] == Pad(account, 10);
  }

  lemma EmptyLedger(cfg: Config, h: Host, v: Venue)
    requires h.connected && v.loggedIn && !h.failed && !v.failed && !v.closed && Bookkeeping(cfg, h, [])
    requires h.session == Strip(Cut(cfg.account, 10))
    requires h.inflight == 0 && h.position == 0 && h.accepted == 0 && h.filled == 0
    requires v.received == [] && v.orderRef == 0 && v.matchRef == 0
    ensures Ledger(cfg, h, v, [], [], [])
  {
    hide Known;
  }

  lemma StepKeeps(cfg: Config, s: State, e: Event)
    requires Inv(cfg, s) && Enabled(s, e) && |Next(cfg, s, e).sent| <= U32
    ensures Inv(cfg, Next(cfg, s, e))
  {
    match e
    case Send(i) => SendKeeps(cfg, s, i);
    case UpChunk(n) => ChunkKeeps(cfg, s, e);
    case VenueTakes => VenueStep(cfg, s);
    case DownChunk(n) => ChunkKeeps(cfg, s, e);
    case HostTakes => HostStep(cfg, s);
  }

  /** Every state of every run with at most 2^32 orders keeps the ledger. */
  lemma {:induction false} AlwaysLedger(cfg: Config, run: seq<State>)
    requires Run(cfg, run) && |run[|run| - 1].sent| <= U32
    ensures Inv(cfg, run[|run| - 1])
  {
    if |run| == 1 {
      StartIsLoggingIn(cfg);
    } else {
      var front := run[..|run| - 1];
      var s, t := run[|run| - 2], run[|run| - 1];
      assert Steps(cfg, s, t);
      var e :| Enabled(s, e) && t == Next(cfg, s, e);
      assert |s.sent| <= |t.sent|;
      forall k | 0 <= k < |front| - 1
        ensures Steps(cfg, front[k], front[k + 1])
      {
        assert Steps(cfg, run[k], run[k + 1]);
      }
      AlwaysLedger(cfg, front);
      StepKeeps(cfg, s, e);
    }
  }

  /** Nothing on the wires and nothing left in the readers. */
  ghost predicate Drained(s: State) {
    s.up == [] && s.down == [] && s.v.buf == [] && s.h.buf == []
  }

  /** No exception is ever raised; the in-flight count is the orders on their way up plus the
      accepts on their way down; acks are accepts plus rejects. */
  lemma InFlightIsExact(cfg: Config, run: seq<State>)
    requires Run(cfg, run) && |run[|run| - 1].sent| <= U32
    ensures var s := run[|run| - 1];
      && !s.h.failed && !s.v.failed
      && s.h.inflight == (if s.h.connected then |UpPackets(s)| + Accepts(DownPackets(s)) else 0)
      && s.h.orderAcks == s.h.accepted + s.h.rejected
      && s.h.accepted + s.h.inflight == |s.sent|
  {
    AlwaysLedger(cfg, run);
    hide Known, InOrder, Money, Replies;
  }

  /** A drained session has no order in flight, every order accepted once, the venue has read
      exactly the orders sent, in order, and the position is the signed sum of what was sent. */
  lemma DrainedSessionSettles(cfg: Config, run: seq<State>)
    requires Run(cfg, run) && |run[|run| - 1].sent| <= U32
    requires Drained(run[|run| - 1])
    ensures var s := run[|run| - 1];
      && s.h.connected && s.h.session == Strip(Cut(cfg.account, 10))
      && s.h.inflight == 0 && s.h.accepted == |s.sent| == |s.v.received|
      && (forall i :: 0 <= i < |s.sent| ==> IsSent(cfg, s.sent, s.v.received[i], i))
      && s.h.position == (if cfg.fill then SentSum(s.sent) else 0)
      && s.h.filled == (if cfg.fill then |s.sent| else 0)
  {
    var s := run[|run| - 1];
    AlwaysLedger(cfg, run);
    NothingYet();
    var none: Bytes := [];
    assert none + none == none;
  }

  /** The echo finds the order in the pending table exactly while the counter fits 32 bits: beyond,
      the table is keyed by a longer token than the wire carries. */
  lemma EchoMatchesIff(cfg: Config, n: nat, i: Intent)
    requires i.shares < U32 && i.price < U32
    ensures var p := Packet([UNSEQUENCED_DATA], EnterOrder(OrderFor(cfg, n, i)));
      OrderIn(p).Some? && (OrderIn(p).value.token == Token(cfg.prefix, n) <==> n < U32)
  {
    EnterOrderRoundTrip(OrderFor(cfg, n, i));
    EnterLayout(OrderFor(cfg, n, i));
    TokenFitsIff(cfg.prefix, n);
    hide EnterOrder, Token, Pad;
    var b := EnterOrder(OrderFor(cfg, n, i));
    assert b[0] == b[0..1][0];
  }
}

/** One host session and the venue as two machines joined by a byte stream each way: what each
    does with a packet, and the runs of the whole. */
module Session {
  import opened Wrappers
  import opened BigEndian
  import opened SoupBin
  import opened Ouch
  import opened Tokens

  datatype Config = Config(prefix: Bytes, stock: Bytes, firm: Bytes, username: Bytes, password: Bytes,
                           account: Bytes, fill: bool)

  datatype Intent = Intent(buy: bool, shares: nat, price: nat)

  /** `failed` is an exception raised by the packet handler. */
  datatype Host = Host(connected: bool, failed: bool, buf: Bytes, session: Bytes, tokenSeq: nat, inflight: nat,
                       position: int, pending: map<Bytes, Intent>, accepted: nat, filled: nat, rejected: nat,
                       orderAcks: nat)

  datatype Venue = Venue(loggedIn: bool, closed: bool, failed: bool, buf: Bytes, received: seq<Order>,
                         orderRef: nat, matchRef: nat)

  function Signed(buy: bool, shares: nat): int {
    var n: int := shares;
    if buy then n else -n
  }

  // ---- the host ----

  /** The order a host session sends for an intent. */
  function OrderFor(cfg: Config, n: nat, i: Intent): Order {
    Order(Token(cfg.prefix, n), i.buy, i.shares, cfg.stock, i.price, 0, cfg.firm,
          ['A' as int], ['P' as int], ['N' as int], 0, ['N' as int], ['N' as int])
  }

  function HostSend(cfg: Config, h: Host, i: Intent): Host {
    h.(pending := h.pending[Token(cfg.prefix, h.tokenSeq) := i], tokenSeq := h.tokenSeq + 1, inflight := h.inflight + 1)
  }

  function Release(n: nat): nat {
    if n > 0 then n - 1 else 0
  }

  /** `_handle`: the host after one inbound packet. */
  function HostHandle(h: Host, p: Packet): Host {
    if p.ptype != [SEQUENCED_DATA] || p.payload == [] then h
    else if p.payload[0] == ORDER_ACCEPTED then
      if ParseOrderAccepted(p.payload) == None then h.(failed := true)
      else h.(accepted := h.accepted + 1, inflight := Release(h.inflight), orderAcks := h.orderAcks + 1)
    else if p.payload[0] == EXECUTED then
      match ParseExecuted(p.payload)
      case None => h.(failed := true)
      case Some(e) =>
        var buy := e.token in h.pending && h.pending[e.token].buy;
        h.(position := h.position + Signed(buy, e.shares), filled := h.filled + 1)
    else if p.payload[0] == REJECTED then
      h.(rejected := h.rejected + 1, inflight := Release(h.inflight), orderAcks := h.orderAcks + 1)
    else h
  }

  /** What `_handle` writes back: only a server heartbeat is answered. */
  function HostReply(p: Packet): seq<Packet> {
    if p.ptype == [SERVER_HEARTBEAT] then [Packet([CLIENT_HEARTBEAT], [])] else []
  }

  /** `connect` waiting for its answer: anything but Login Accepted raises. */
  function HostLogin(h: Host, p: Packet): Host {
    if p.ptype != [LOGIN_ACCEPTED] then h.(failed := true)
    else h.(connected := true, session := Strip(Cut(p.payload, 10)))
  }

  /** The next complete packet, if any, is taken off the buffer and handled. */
  function HostTake(h: Host): Host {
    match First(h.buf)
    case None => h
    case Some((p, rest)) =>
      if h.connected then HostHandle(h.(buf := rest), p) else HostLogin(h.(buf := rest), p)
  }

  // ---- the venue ----

  function LoginAcceptedPayload(account: Bytes): (b: Bytes)
    ensures |b| == 30
  {
    Pad(account, 10) + seq(19, _ => SPACE) + ['1' as int]
  }

  function LoginRequestPayload(cfg: Config): (b: Bytes)
    ensures |b| == 46
  {
    Pad(cfg.username, 6) + Pad(cfg.password, 10) + seq(10, _ => SPACE) + seq(19, _ => SPACE) + ['1' as int]
  }

  function AcceptFor(o: Order, ref: nat): Packet
    requires o.shares < U32 && o.price < U32 && ref < U64
  {
    Packet([SEQUENCED_DATA], OrderAccepted(Accepted(o.token, o.buy, o.shares, o.stock, o.price, ref)))
  }

  function FillFor(o: Order, ref: nat): Packet
    requires o.shares < U32 && o.price < U32 && ref < U64
  {
    Packet([SEQUENCED_DATA], Executed(Fill(o.token, o.shares, o.price, ref)))
  }

  /** `_on_order`: every order is accepted and, when filling, filled in full. */
  function VenueOrder(cfg: Config, v: Venue, body: Bytes): (Venue, seq<Packet>) {
    if body == [] || body[0] != ENTER_ORDER then (v, [])
    else
      match ParseEnterOrder(body)
      case None => (v.(failed := true), [])
      case Some(o) =>
        var v' := v.(received := v.received + [o], orderRef := v.orderRef + 1);
        if v'.orderRef >= U64 then (v'.(failed := true), [])
        else if !cfg.fill then (v', [AcceptFor(o, v'.orderRef)])
        else if v.matchRef + 1 >= U64 then (v'.(failed := true), [AcceptFor(o, v'.orderRef)])
        else (v'.(matchRef := v.matchRef + 1), [AcceptFor(o, v'.orderRef), FillFor(o, v.matchRef + 1)])
  }

  /** The venue's packet switch. Orders before the login are ignored. */
  function VenueHandle(cfg: Config, v: Venue, p: Packet): (Venue, seq<Packet>) {
    if p.ptype == [LOGIN_REQUEST] then
      (v.(loggedIn := true), [Packet([LOGIN_ACCEPTED], LoginAcceptedPayload(cfg.account))])
    else if p.ptype == [LOGOUT_REQUEST] then (v.(closed := true), [Packet([END_OF_SESSION], [])])
    else if p.ptype == [UNSEQUENCED_DATA] && v.loggedIn then VenueOrder(cfg, v, p.payload)
    else (v, [])
  }

  function VenueTake(cfg: Config, v: Venue): (Venue, seq<Packet>) {
    match First(v.buf)
    case None => (v, [])
    case Some((p, rest)) => VenueHandle(cfg, v.(buf := rest), p)
  }

  lemma RepliesArePackable(cfg: Config, v: Venue)
    ensures Packable(VenueTake(cfg, v).1)
  {
    hide OrderAccepted, Executed;
    if First(v.buf).Some? {
      var (p, rest) := First(v.buf).value;
      if p.ptype == [UNSEQUENCED_DATA] && v.loggedIn {
        OrderRepliesArePackable(cfg, v.(buf := rest), p.payload);
      }
    }
  }

  lemma OrderRepliesArePackable(cfg: Config, v: Venue, body: Bytes)
    ensures Packable(VenueOrder(cfg, v, body).1)
  {
    hide ParseEnterOrder, OrderAccepted, Executed, ParseOrderAccepted, ParseExecuted, Pad;
    if body != [] && body[0] == ENTER_ORDER && ParseEnterOrder(body).Some? {
      var o := ParseEnterOrder(body).value;
      if v.orderRef + 1 < U64 {
        AcceptedRoundTrip(Accepted(o.token, o.buy, o.shares, o.stock, o.price, v.orderRef + 1));
        if v.matchRef + 1 < U64 {
          ExecutedRoundTrip(Fill(o.token, o.shares, o.price, v.matchRef + 1));
        }
      }
    }
  }

  // ---- the two joined by wires ----

  /** `sent` records the intents the host has sent, in order. */
  datatype State = State(h: Host, v: Venue, up: Bytes, down: Bytes, sent: seq<Intent>)

  ghost function Start(cfg: Config): State {
    State(Host(false, false, [], [], 0, 0, 0, map[], 0, 0, 0, 0), Venue(false, false, false, [], [], 0, 0),
          PackAll([Packet([LOGIN_REQUEST], LoginRequestPayload(cfg))]), [], [])
  }

  /** The host may send an order once connected; bytes move in chunks of any size; either side
      handles one complete packet of what it has read. */
  datatype Event = Send(intent: Intent) | UpChunk(n: nat) | VenueTakes | DownChunk(n: nat) | HostTakes

  ghost function SendBytes(cfg: Config, n: nat, i: Intent): Bytes
    requires i.shares < U32 && i.price < U32
  {
    EnterLength(OrderFor(cfg, n, i));
    PackAll([Packet([UNSEQUENCED_DATA], EnterOrder(OrderFor(cfg, n, i)))])
  }

  ghost predicate Enabled(s: State, e: Event) {
    match e
    case Send(i) => s.h.connected && i.shares < U32 && i.price < U32
    case UpChunk(n) => n <= |s.up|
    case VenueTakes => !s.v.closed && !s.v.failed
    case DownChunk(n) => n <= |s.down|
    case HostTakes => !s.h.failed
  }

  ghost function Next(cfg: Config, s: State, e: Event): State
    requires Enabled(s, e)
  {
    match e
    case Send(i) =>
      s.(h := HostSend(cfg, s.h, i), up := s.up + SendBytes(cfg, s.h.tokenSeq, i), sent := s.sent + [i])
    case UpChunk(n) => s.(v := s.v.(buf := s.v.buf + s.up[..n]), up := s.up[n..])
    case VenueTakes =>
      RepliesArePackable(cfg, s.v);
      var (v, replies) := VenueTake(cfg, s.v);
      s.(v := v, down := s.down + PackAll(replies))
    case DownChunk(n) => s.(h := s.h.(buf := s.h.buf + s.down[..n]), down := s.down[n..])
    case HostTakes =>
      var out := if s.h.connected && First(s.h.buf).Some? then HostReply(First(s.h.buf).value.0) else [];
      s.(h := HostTake(s.h), up := s.up + PackAll(out))
  }

  /** A run, and the state it reaches. */
  ghost predicate Run(cfg: Config, run: seq<State>) {
    && run != [] && run[0] == Start(cfg)
    && forall k :: 0 <= k < |run| - 1 ==> Steps(cfg, run[k], run[k + 1])
  }

  ghost predicate Steps(cfg: Config, s: State, t: State) {
    exists e :: Enabled(s, e) && t == Next(cfg, s, e)
  }
}

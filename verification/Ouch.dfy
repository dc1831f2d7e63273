/** OUCH 4.2 message bodies as the host, the card and the mock venue exchange them. */
module Ouch {
  import opened Wrappers
  import opened BigEndian

  const SPACE: byte := 32
  const ENTER_ORDER: byte := 'O' as int
  const ORDER_ACCEPTED: byte := 'A' as int
  const EXECUTED: byte := 'E' as int
  const REJECTED: byte := 'J' as int
  const BUY: byte := 'B' as int
  const SELL: byte := 'S' as int

  function Cut(s: Bytes, w: nat): Bytes {
    if |s| > w then s[..w] else s
  }

  /** Cut to `w` bytes, then filled with spaces on the right. */
  function Pad(s: Bytes, w: nat): (r: Bytes)
    ensures |r| == w
  {
    Cut(s, w) + seq(w - |Cut(s, w)|, _ => SPACE)
  }

  lemma PadExact(s: Bytes, w: nat)
    requires |s| == w
    ensures Pad(s, w) == s
  {
  }

  predicate IsSpace(b: byte) {
    9 <= b <= 13 || 28 <= b <= 32
  }

  function LStrip(s: Bytes): Bytes {
    if s != [] && IsSpace(s[0]) then LStrip(s[1..]) else s
  }

  function RStrip(s: Bytes): Bytes {
    if s != [] && IsSpace(s[|s| - 1]) then RStrip(s[..|s| - 1]) else s
  }

  function Strip(s: Bytes): Bytes {
    LStrip(RStrip(s))
  }

  lemma {:induction false} RStripSpaces(s: Bytes, n: nat)
    ensures RStrip(s + seq(n, _ => SPACE)) == RStrip(s)
  {
    if n == 0 {
      assert s + seq(n, _ => SPACE) == s;
    } else {
      assert (s + seq(n, _ => SPACE))[..|s| + n - 1] == s + seq(n - 1, _ => SPACE);
      RStripSpaces(s, n - 1);
    }
  }

  /** Reading a padded field back loses exactly what does not fit and the outer blanks. */
  lemma StripOfPad(s: Bytes, w: nat)
    ensures Strip(Pad(s, w)) == Strip(Cut(s, w))
  {
    RStripSpaces(Cut(s, w), w - |Cut(s, w)|);
  }

  datatype Order = Order(token: Bytes, buy: bool, shares: nat, stock: Bytes, price: nat, tif: nat, firm: Bytes,
                         display: Bytes, capacity: Bytes, sweep: Bytes, minQty: nat, cross: Bytes, cust: Bytes)

  /** What the encoder takes without raising: 32-bit numbers and one-byte codes. */
  predicate Encodable(o: Order) {
    && o.shares < U32 && o.price < U32 && o.tif < U32 && o.minQty < U32
    && |o.display| == |o.capacity| == |o.sweep| == |o.cross| == |o.cust| == 1
  }

  function Side(buy: bool): (s: Bytes)
    ensures |s| == 1 && (s == [BUY] <==> buy)
  {
    if buy then [BUY] else [SELL]
  }

  function EnterFields(o: Order): seq<Bytes>
    requires Encodable(o)
  {
    [[ENTER_ORDER], Pad(o.token, 14), Side(o.buy), U4(o.shares), Pad(o.stock, 8), U4(o.price), U4(o.tif),
     Pad(o.firm, 4), o.display, o.capacity, o.sweep, U4(o.minQty), o.cross, o.cust]
  }

  function EnterOrder(o: Order): Bytes
    requires Encodable(o)
  {
    Join(EnterFields(o))
  }

  /** Fails, as the source raises, on a wrong type byte or a body too short for its numbers. */
  function ParseEnterOrder(b: Bytes): (r: Option<Order>)
    ensures r.Some? ==> |r.value.token| == 14 && r.value.shares < U32 && r.value.price < U32
  {
    Widths();
    if |b| < 47 || b[0] != ENTER_ORDER then None
    else Some(Order(b[1..15], b[15..16] == [BUY], Dec(b[16..20]), Strip(b[20..28]), Dec(b[28..32]), Dec(b[32..36]),
                    Strip(b[36..40]), b[40..41], b[41..42], b[42..43], Dec(b[43..47]), Cut(b[47..], 1),
                    if |b| < 48 then [] else Cut(b[48..], 1)))
  }

  lemma EnterHead(o: Order)
    requires Encodable(o)
    ensures var (f, b) := (EnterFields(o), EnterOrder(o));
      && Offset(f, 7) == 36 <= |b| && b[0..1] == [ENTER_ORDER] && b[1..15] == Pad(o.token, 14)
      && b[15..16] == Side(o.buy) && b[16..20] == U4(o.shares) && b[20..28] == Pad(o.stock, 8)
      && b[28..32] == U4(o.price) && b[32..36] == U4(o.tif)
  {
    hide Pad, U4, Side, Join, Offset;
    var f := EnterFields(o);
    EmptyJoin(f);
    FieldAt(f, 0); FieldAt(f, 1); FieldAt(f, 2); FieldAt(f, 3); FieldAt(f, 4); FieldAt(f, 5); FieldAt(f, 6);
  }

  lemma EnterTail(o: Order)
    requires Encodable(o) && Offset(EnterFields(o), 7) == 36
    ensures var b := EnterOrder(o);
      && |b| == 49 && b[36..40] == Pad(o.firm, 4) && b[40..41] == o.display
      && b[41..42] == o.capacity && b[42..43] == o.sweep && b[43..47] == U4(o.minQty)
      && b[47..48] == o.cross && b[48..49] == o.cust
  {
    hide Pad, U4, Side, Join, Offset;
    var f := EnterFields(o);
    WholeJoin(f);
    FieldAt(f, 7); FieldAt(f, 8); FieldAt(f, 9); FieldAt(f, 10); FieldAt(f, 11); FieldAt(f, 12); FieldAt(f, 13);
  }

  lemma EnterLayout(o: Order)
    requires Encodable(o)
    ensures var b := EnterOrder(o);
      && |b| == 49 && b[0..1] == [ENTER_ORDER] && b[1..15] == Pad(o.token, 14) && b[15..16] == Side(o.buy)
      && b[16..20] == U4(o.shares) && b[20..28] == Pad(o.stock, 8) && b[28..32] == U4(o.price)
      && b[32..36] == U4(o.tif) && b[36..40] == Pad(o.firm, 4) && b[40..41] == o.display
      && b[41..42] == o.capacity && b[42..43] == o.sweep && b[43..47] == U4(o.minQty)
      && b[47..48] == o.cross && b[48..49] == o.cust
  {
    hide EnterFields, EnterOrder, Pad, U4, Side, Join, Offset;
    EnterHead(o);
    EnterTail(o);
  }

  /** The body of an order with a session's fixed fields, byte by byte: an immediate time in force, no minimum quantity,
      attributable, principal, and N for sweep, cross and customer type. */
  ghost predicate PlainBody(b: Bytes, token: Bytes, buy: bool, shares: nat, stock: Bytes, price: nat, firm: Bytes) {
    && shares < U32 && price < U32
    && |b| == 49 && b[0..1] == ['O' as int] && b[1..15] == Pad(token, 14) && b[15..16] == [if buy then 'B' as int else 'S' as int]
    && b[16..20] == U4(shares) && b[20..28] == Pad(stock, 8) && b[28..32] == U4(price) && b[32..36] == U4(0)
    && b[36..40] == Pad(firm, 4) && b[40..41] == ['A' as int] && b[41..42] == ['P' as int] && b[42..43] == ['N' as int]
    && b[43..47] == U4(0) && b[47..48] == ['N' as int] && b[48..49] == ['N' as int]
  }

  lemma EnterLength(o: Order)
    requires Encodable(o)
    ensures |EnterOrder(o)| == 49
  {
    hide EnterOrder;
    EnterLayout(o);
  }

  lemma EmptyJoin(f: seq<Bytes>)
    ensures Offset(f, 0) == 0
  {
  }

  lemma WholeJoin(f: seq<Bytes>)
    ensures Offset(f, |f|) == |Join(f)|
  {
    assert f[..|f|] == f;
  }

  /** The venue reads back the order that was sent: numbers exactly, the token as padded, names as
      cut to their width without outer blanks. */
  lemma EnterOrderRoundTrip(o: Order)
    requires Encodable(o)
    ensures |EnterOrder(o)| == 49
    ensures ParseEnterOrder(EnterOrder(o))
         == Some(o.(token := Pad(o.token, 14), stock := Strip(Cut(o.stock, 8)), firm := Strip(Cut(o.firm, 4))))
  {
    EnterLayout(o);
    StripOfPad(o.stock, 8);
    StripOfPad(o.firm, 4);
    hide EnterOrder, Pad, Strip, U4;
    var b := EnterOrder(o);
    assert b[0] == b[0..1][0];
    assert b[47..][..1] == b[47..48] && b[48..] == b[48..49];
  }

  // ---- exchange to client ----

  datatype Accepted = Accepted(token: Bytes, buy: bool, shares: nat, stock: Bytes, price: nat, orderRef: nat)
  datatype Fill = Fill(token: Bytes, shares: nat, price: nat, matchRef: nat)

  predicate AcceptedEncodable(a: Accepted) {
    a.shares < U32 && a.price < U32 && a.orderRef < U64
  }

  function AcceptedFields(a: Accepted): seq<Bytes>
    requires AcceptedEncodable(a)
  {
    [[ORDER_ACCEPTED], Pad(a.token, 14), Side(a.buy), U4(a.shares), Pad(a.stock, 8), U4(a.price), U8(a.orderRef)]
  }

  function OrderAccepted(a: Accepted): Bytes
    requires AcceptedEncodable(a)
  {
    Join(AcceptedFields(a))
  }

  function ParseOrderAccepted(b: Bytes): Option<Accepted> {
    if |b| < 40 then None
    else Some(Accepted(b[1..15], b[15..16] == [BUY], Dec(b[16..20]), Strip(b[20..28]), Dec(b[28..32]), Dec(b[32..40])))
  }

  lemma AcceptedLayout(a: Accepted)
    requires AcceptedEncodable(a)
    ensures var b := OrderAccepted(a);
      && |b| == 40 && b[0..1] == [ORDER_ACCEPTED] && b[1..15] == Pad(a.token, 14) && b[15..16] == Side(a.buy)
      && b[16..20] == U4(a.shares) && b[20..28] == Pad(a.stock, 8) && b[28..32] == U4(a.price)
      && b[32..40] == U8(a.orderRef)
  {
    hide Pad, Side, U4, U8, Join, Offset;
    var f := AcceptedFields(a);
    EmptyJoin(f);
    WholeJoin(f);
    assert |f| == 7;
    FieldAt(f, 0); FieldAt(f, 1); FieldAt(f, 2); FieldAt(f, 3); FieldAt(f, 4); FieldAt(f, 5); FieldAt(f, 6);
  }

  lemma AcceptedRoundTrip(a: Accepted)
    requires AcceptedEncodable(a)
    ensures |OrderAccepted(a)| == 40 && OrderAccepted(a)[0] == ORDER_ACCEPTED
    ensures ParseOrderAccepted(OrderAccepted(a))
         == Some(a.(token := Pad(a.token, 14), stock := Strip(Cut(a.stock, 8))))
  {
    AcceptedLayout(a);
    StripOfPad(a.stock, 8);
    hide OrderAccepted, Pad, Strip, U4, U8;
    assert OrderAccepted(a)[0] == OrderAccepted(a)[0..1][0];
  }

  predicate FillEncodable(e: Fill) {
    e.shares < U32 && e.price < U32 && e.matchRef < U64
  }

  function Executed(e: Fill): Bytes
    requires FillEncodable(e)
  {
    Join([[EXECUTED], Pad(e.token, 14), U4(e.shares), U4(e.price), U8(e.matchRef)])
  }

  function ParseExecuted(b: Bytes): Option<Fill> {
    if |b| < 31 then None else Some(Fill(b[1..15], Dec(b[15..19]), Dec(b[19..23]), Dec(b[23..31])))
  }

  lemma ExecutedLayout(e: Fill)
    requires FillEncodable(e)
    ensures var b := Executed(e);
      && |b| == 31 && b[0..1] == ['E' as int] && b[1..15] == Pad(e.token, 14) && b[15..19] == U4(e.shares)
      && b[19..23] == U4(e.price) && b[23..31] == U8(e.matchRef)
  {
    hide Pad, U4, U8, Join, Offset;
    var f := [[EXECUTED], Pad(e.token, 14), U4(e.shares), U4(e.price), U8(e.matchRef)];
    EmptyJoin(f);
    WholeJoin(f);
    FieldAt(f, 0); FieldAt(f, 1); FieldAt(f, 2); FieldAt(f, 3); FieldAt(f, 4);
  }

  lemma ExecutedRoundTrip(e: Fill)
    requires FillEncodable(e)
    ensures |Executed(e)| == 31 && Executed(e)[0] == EXECUTED
    ensures ParseExecuted(Executed(e)) == Some(e.(token := Pad(e.token, 14)))
  {
    ExecutedLayout(e);
    hide Pad, U4, U8, Executed;
    var b := Executed(e);
    assert b[0] == b[0..1][0];
  }
}

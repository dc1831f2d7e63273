/** MoldUDP64: the receiver, the test-plan packer with losses, duplicates and heartbeats, and its self-check. */
module Mold {
  import opened BigEndian

  const EOS := 0xFFFF

  /** A downstream packet: the number of its first message, its header count, and its message blocks. */
  datatype Packet = Packet(seqNo: nat, count: nat, msgs: seq<Bytes>)

  predicate WellFormed(p: Packet) {
    p.count <= EOS && (p.count < EOS ==> |p.msgs| == p.count)
  }

  /** What the receiver prints; a message is printed with its body only, its number is what its header says. */
  datatype Line = Gap(expected: nat, got: nat) | Message(no: nat, body: Bytes) | Beat(seqNo: nat) | End(seqNo: nat)

  datatype Receiver = Receiver(expected: nat, lines: seq<Line>, ended: bool)

  const START := Receiver(1, [], false)

  function Messages(no: nat, msgs: seq<Bytes>): (ls: seq<Line>)
    ensures |ls| == |msgs|
  {
    if msgs == [] then [] else Messages(no, msgs[..|msgs| - 1]) + [Message(no + |msgs| - 1, msgs[|msgs| - 1])]
  }

  /** One packet of the receiver model. */
  function Take(r: Receiver, p: Packet): Receiver {
    if r.ended then r
    else if p.count == EOS then Receiver(r.expected, r.lines + [End(p.seqNo)], true)
    else
      var lines := if p.seqNo > r.expected then r.lines + [Gap(r.expected, p.seqNo)] else r.lines;
      if p.count == 0 then
        Receiver(if p.seqNo > r.expected then p.seqNo else r.expected, lines + [Beat(p.seqNo)], false)
      else if p.seqNo < r.expected then r
      else Receiver(p.seqNo + p.count, lines + Messages(p.seqNo, p.msgs), false)
  }

  function Run(ps: seq<Packet>): Receiver {
    if ps == [] then START else Take(Run(ps[..|ps| - 1]), ps[|ps| - 1])
  }

  lemma {:induction false} EndedStays(ps: seq<Packet>, k: nat)
    requires k <= |ps| && Run(ps[..k]).ended
    ensures Run(ps) == Run(ps[..k])
  {
    if k < |ps| {
      assert ps[..|ps| - 1][..k] == ps[..k];
      EndedStays(ps[..|ps| - 1], k);
    } else {
      assert ps[..k] == ps;
    }
  }

  /** `dump_mold.main` on the packets of a stream. */
  method Receive(ps: seq<Packet>) returns (lines: seq<Line>, ghost expected: nat)
    ensures lines == Run(ps).lines && expected == Run(ps).expected
  {
    lines := [];
    var exp: nat := 1;
    var i := 0;
    while i < |ps|
      invariant 0 <= i <= |ps| && Run(ps[..i]) == Receiver(exp, lines, false)
    {
      var p := ps[i];
      assert ps[..i + 1][..i] == ps[..i];
      i := i + 1;
      if p.count == EOS {
        lines := lines + [End(p.seqNo)];
        EndedStays(ps, i);
        expected := exp;
        return;
      }
      if p.seqNo > exp {
        lines := lines + [Gap(exp, p.seqNo)];
      }
      if p.count == 0 {
        lines := lines + [Beat(p.seqNo)];
        exp := if p.seqNo > exp then p.seqNo else exp;
        continue;
      }
      if p.seqNo < exp {
        continue;
      }
      lines := lines + Messages(p.seqNo, p.msgs);
      exp := p.seqNo + p.count;
    }
    assert ps[..|ps|] == ps;
    expected := exp;
  }

  // ---- every number once, in order ----

  function Numbers(lo: nat, hi: nat): (s: seq<nat>)
    ensures lo <= hi ==> |s| == hi - lo && forall k :: 0 <= k < hi - lo ==> s[k] == lo + k
  {
    if hi <= lo then [] else Numbers(lo, hi - 1) + [hi - 1]
  }

  /** The numbers a line accounts for: the message it delivers, or the ones it reports missing. */
  function Accounts(l: Line): seq<nat> {
    match l
    case Gap(e, g) => Numbers(e, g)
    case Message(no, _) => [no]
    case Beat(_) => []
    case End(_) => []
  }

  function Accounted(ls: seq<Line>): seq<nat> {
    if ls == [] then [] else Accounted(ls[..|ls| - 1]) + Accounts(ls[|ls| - 1])
  }

  lemma AccountedSnoc(ls: seq<Line>, l: Line)
    ensures Accounted(ls + [l]) == Accounted(ls) + Accounts(l)
  {
    assert (ls + [l])[..|ls|] == ls;
  }

  lemma {:induction false} AccountedMessages(ls: seq<Line>, no: nat, msgs: seq<Bytes>)
    ensures Accounted(ls + Messages(no, msgs)) == Accounted(ls) + Numbers(no, no + |msgs|)
  {
    hide Accounted;
    if msgs == [] {
      assert ls + Messages(no, msgs) == ls && Accounted(ls) + Numbers(no, no) == Accounted(ls);
    } else {
      var front, l := msgs[..|msgs| - 1], Message(no + |msgs| - 1, msgs[|msgs| - 1]);
      AccountedMessages(ls, no, front);
      AccountedSnoc(ls + Messages(no, front), l);
      Regroup(ls, Messages(no, front), [l]);
      Regroup(Accounted(ls), Numbers(no, no + |front|), [no + |front|]);
    }
  }

  lemma Regroup<T>(a: seq<T>, b: seq<T>, c: seq<T>)
    ensures a + (b + c) == a + b + c
  {
  }

  lemma NumbersJoin(a: nat, b: nat, c: nat)
    requires a <= b <= c
    ensures Numbers(a, b) + Numbers(b, c) == Numbers(a, c)
  {
  }

  lemma TakeAccounts(r: Receiver, p: Packet)
    requires WellFormed(p) && 1 <= r.expected && Accounted(r.lines) == Numbers(1, r.expected)
    ensures 1 <= Take(r, p).expected && Accounted(Take(r, p).lines) == Numbers(1, Take(r, p).expected)
  {
    hide Accounted, Numbers;
    if r.ended {
    } else if p.count == EOS {
      AccountedSnoc(r.lines, End(p.seqNo));
    } else {
      var gap := p.seqNo > r.expected;
      var lines := if gap then r.lines + [Gap(r.expected, p.seqNo)] else r.lines;
      if gap {
        AccountedSnoc(r.lines, Gap(r.expected, p.seqNo));
        NumbersJoin(1, r.expected, p.seqNo);
      }
      if p.count == 0 {
        AccountedSnoc(lines, Beat(p.seqNo));
      } else if p.seqNo >= r.expected {
        AccountedMessages(lines, p.seqNo, p.msgs);
        NumbersJoin(1, p.seqNo, p.seqNo + p.count);
      }
    }
  }

  /** For every packet stream: the numbers delivered and the numbers reported missing are, in the order printed,
      exactly 1, 2, ... up to the number expected next. */
  lemma {:induction false} EveryNumberOnce(ps: seq<Packet>)
    requires forall i :: 0 <= i < |ps| ==> WellFormed(ps[i])
    ensures 1 <= Run(ps).expected && Accounted(Run(ps).lines) == Numbers(1, Run(ps).expected)
  {
    if ps != [] {
      EveryNumberOnce(ps[..|ps| - 1]);
      TakeAccounts(Run(ps[..|ps| - 1]), ps[|ps| - 1]);
    }
  }

  // ---- what is delivered and what is reported missing ----

  function Delivered(ls: seq<Line>): seq<Line> {
    if ls == [] then []
    else
      var l := ls[|ls| - 1];
      Delivered(ls[..|ls| - 1]) + if l.Message? then [l] else []
  }

  function Missing(ls: seq<Line>): seq<nat> {
    if ls == [] then []
    else
      var l := ls[|ls| - 1];
      Missing(ls[..|ls| - 1]) + if l.Gap? then Numbers(l.expected, l.got) else []
  }

  lemma LineSnoc(ls: seq<Line>, l: Line)
    ensures Delivered(ls + [l]) == Delivered(ls) + if l.Message? then [l] else []
    ensures Missing(ls + [l]) == Missing(ls) + if l.Gap? then Numbers(l.expected, l.got) else []
  {
    assert (ls + [l])[..|ls|] == ls;
  }

  lemma {:induction false} MessagesDelivered(ls: seq<Line>, no: nat, msgs: seq<Bytes>)
    ensures Delivered(ls + Messages(no, msgs)) == Delivered(ls) + Messages(no, msgs)
    ensures Missing(ls + Messages(no, msgs)) == Missing(ls)
  {
    hide Delivered, Missing;
    if msgs == [] {
      assert ls + Messages(no, msgs) == ls && Delivered(ls) + Messages(no, msgs) == Delivered(ls);
    } else {
      var front, l := msgs[..|msgs| - 1], Message(no + |msgs| - 1, msgs[|msgs| - 1]);
      MessagesDelivered(ls, no, front);
      LineSnoc(ls + Messages(no, front), l);
      Regroup(ls, Messages(no, front), [l]);
      Regroup(Delivered(ls), Messages(no, front), [l]);
    }
  }

  function Gaps(ls: seq<Line>): seq<(nat, int)> {
    if ls == [] then []
    else
      var l := ls[|ls| - 1];
      Gaps(ls[..|ls| - 1]) + if l.Gap? then [(l.expected, l.got - l.expected)] else []
  }
}

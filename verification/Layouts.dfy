/** The byte layouts of numbers, packets, tokens and names, stated on the bytes themselves. */
module Layouts {
  import opened Wrappers
  import opened BigEndian
  import opened Checksum
  import opened Ouch
  import opened Tokens
  import Mold
  import MoldWire
  import SoupBin

  lemma Shifted(x: int, p: int, d: int, l: int)
    ensures (x * p + d) * 256 + l == x * (256 * p) + (d * 256 + l)
  {
  }

  lemma DecSnoc(s: Bytes)
    requires s != []
    ensures Dec(s) == Dec(s[..|s| - 1]) * 256 + s[|s| - 1]
  {
  }

  /** The first byte of a number is its most significant. */
  lemma {:induction false} FirstByteLeads(s: Bytes)
    requires s != []
    ensures Dec(s) == s[0] as int * Pow256(|s| - 1) + Dec(s[1..])
  {
    hide Dec;
    var n := |s| - 1;
    DecSnoc(s);
    NoBytes();
    if n > 0 {
      FirstByteLeads(s[..n]);
      assert s[..n][1..] == s[1..][..n - 1];
      DecSnoc(s[1..]);
      Shifted(s[0], Pow256(n - 1), Dec(s[1..][..n - 1]), s[n]);
    }
  }

  lemma NoBytes()
    ensures Dec([]) == 0
  {
  }

  lemma TwoBytes(s: Bytes)
    requires |s| == 2
    ensures Dec(s) == Word(s[0], s[1])
  {
    FirstByteLeads(s);
    FirstByteLeads(s[1..]);
    Widths();
  }

  // ---- SoupBinTCP ----

  /** Two length bytes, counting the type byte and the payload; the type byte; the payload. */
  lemma PackBytes(ptype: byte, payload: Bytes)
    requires |payload| < 0xFFFF
    ensures var b := SoupBin.Pack(ptype, payload);
      |b| == 3 + |payload| && Word(b[0], b[1]) == 1 + |payload| && b[2] == ptype && b[3..] == payload
  {
    Widths();
    DecEnc(1 + |payload|, 2);
    TwoBytes(Enc(1 + |payload|, 2));
  }

  /** A packet is complete exactly when its two length bytes and as many more are there; its type is the first of them,
      its payload the others, and what follows is left. */
  lemma FirstIs(s: Bytes)
    ensures SoupBin.First(s) == None <==> |s| < 2 || |s| < 2 + Word(s[0], s[1])
    ensures SoupBin.First(s).Some? ==>
      var (p, rest) := SoupBin.First(s).value;
      && s == s[..2] + p.ptype + p.payload + rest && |p.ptype| + |p.payload| == Word(s[0], s[1])
      && |p.ptype| == if Word(s[0], s[1]) == 0 then 0 else 1
  {
    if |s| >= 2 {
      TwoBytes(s[..2]);
      hide Dec;
      if SoupBin.First(s).Some? {
        var len := Dec(s[..2]);
        assert s == s[..2] + s[2..2 + len] + s[2 + len..];
      }
    }
  }

  // ---- MoldUDP64 ----

  /** A packet in a file: its length, then ten session bytes, eight of sequence number, two of count, and the blocks. */
  lemma MoldBytes(session: Bytes, p: Mold.Packet)
    requires |session| == 10 && MoldWire.Fits(p)
    ensures var b := MoldWire.Encode(session, p);
      && |b| >= 22 && b[0..2] == U2(|b| - 2) && b[2..12] == session && b[12..20] == U8(p.seqNo) && b[20..22] == U2(p.count)
      && b[22..] == MoldWire.Blocks(p.msgs)
  {
    hide MoldWire.Blocks, U2, U8;
    var rest := MoldWire.Blocks(p.msgs);
    var b, len := MoldWire.Encode(session, p), U2(20 + |rest|);
    assert b == len + session + U8(p.seqNo) + U2(p.count) + rest;
  }

  /** Message `i` among the blocks: after the blocks of the earlier ones, its two length bytes and its body. */
  lemma {:induction false} BlockAt(msgs: seq<Bytes>, i: nat)
    requires i < |msgs| && MoldWire.Sized(msgs)
    ensures MoldWire.Blocks(msgs)
         == MoldWire.Blocks(msgs[..i]) + U2(|msgs[i]|) + msgs[i] + MoldWire.Blocks(msgs[i + 1..])
  {
    hide U2, MoldWire.Blocks;
    BlocksFrom(msgs);
    if i == 0 {
      assert msgs[..0] == [];
      NoBlocks();
      assert [] + U2(|msgs[0]|) == U2(|msgs[0]|);
    } else {
      BlockAt(msgs[1..], i - 1);
      BlocksFrom(msgs[..i]);
      assert msgs[..i][1..] == msgs[1..][..i - 1] && msgs[1..][i..] == msgs[i + 1..];
      BlocksGrouped(MoldWire.Block(msgs[0]), MoldWire.Blocks(msgs[1..][..i - 1]), U2(|msgs[i]|), msgs[i],
                    MoldWire.Blocks(msgs[i + 1..]));
    }
  }

  lemma BlocksFrom(msgs: seq<Bytes>)
    requires msgs != [] && MoldWire.Sized(msgs)
    ensures MoldWire.Blocks(msgs) == MoldWire.Block(msgs[0]) + MoldWire.Blocks(msgs[1..])
    ensures MoldWire.Block(msgs[0]) == U2(|msgs[0]|) + msgs[0]
  {
  }

  lemma NoBlocks()
    ensures MoldWire.Blocks([]) == []
  {
  }

  lemma BlocksGrouped(head: Bytes, a: Bytes, len: Bytes, m: Bytes, c: Bytes)
    ensures head + (a + len + m + c) == head + a + len + m + c
  {
  }

  // ---- tokens and names ----

  predicate IsHexDigit(b: byte) {
    48 <= b <= 57 || 65 <= b <= 70
  }

  lemma {:induction false} HexIs(n: nat)
    ensures forall i :: 0 <= i < |HexStr(n)| ==> IsHexDigit(HexStr(n)[i])
    ensures n > 0 ==> HexStr(n)[0] != 48
  {
    if n >= 16 {
      HexIs(n / 16);
    }
  }

  /** A token is the prefix in six bytes and then the counter in upper-case hex digits, most significant first: eight of
      them, or more only when the counter needs more. */
  lemma TokenReads(prefix: Bytes, n: nat)
    ensures var t := Token(prefix, n);
      && |t| >= 14 && t[..6] == Pad(prefix, 6) && Value(t[6..]) == n
      && (forall i :: 6 <= i < |t| ==> IsHexDigit(t[i])) && (|t| > 14 ==> t[6] != 48)
  {
    hide Pad, Value;
    var s := HexStr(n);
    HexIs(n);
    ValueOfHex(n);
    assert n == 0 ==> |s| == 1;
    hide HexStr;
    if |s| < 8 {
      ValueOfPadded(8 - |s|, s);
      ZerosAre(8 - |s|);
    }
    assert Token(prefix, n)[6..] == Hex8(n);
  }

  lemma {:induction false} ZerosAre(n: nat)
    ensures forall i :: 0 <= i < n ==> Zeros(n)[i] == 48
  {
    if n > 0 {
      ZerosAre(n - 1);
    }
  }

  predicate AllSpace(s: Bytes) {
    forall i :: 0 <= i < |s| ==> IsSpace(s[i])
  }

  lemma {:induction false} LStripIs(s: Bytes) returns (k: nat)
    ensures k <= |s| && AllSpace(s[..k]) && LStrip(s) == s[k..] && (k < |s| ==> !IsSpace(s[k]))
  {
    k := 0;
    if s != [] && IsSpace(s[0]) {
      k := LStripIs(s[1..]);
      assert s[1..][k..] == s[k + 1..];
      forall i | 0 <= i < k + 1
        ensures IsSpace(s[i])
      {
        assert i > 0 ==> s[i] == s[1..][..k][i - 1];
      }
      k := k + 1;
    }
  }

  lemma {:induction false} RStripIs(s: Bytes) returns (k: nat)
    ensures k <= |s| && AllSpace(s[k..]) && RStrip(s) == s[..k] && (0 < k ==> !IsSpace(s[k - 1]))
  {
    k := |s|;
    if s != [] && IsSpace(s[|s| - 1]) {
      k := RStripIs(s[..|s| - 1]);
      assert s[..|s| - 1][..k] == s[..k];
      forall i | k <= i < |s|
        ensures IsSpace(s[i])
      {
        assert i < |s| - 1 ==> s[i] == s[..|s| - 1][k..][i - k];
      }
    }
  }

  /** Stripping takes off exactly the blanks at both ends. */
  lemma StripIs(s: Bytes) returns (lo: nat, hi: nat)
    ensures lo <= hi <= |s| && Strip(s) == s[lo..hi] && AllSpace(s[..lo]) && AllSpace(s[hi..])
    ensures lo < hi ==> !IsSpace(s[lo]) && !IsSpace(s[hi - 1])
  {
    hi := RStripIs(s);
    lo := LStripIs(s[..hi]);
    assert s[..hi][..lo] == s[..lo] && s[..hi][lo..] == s[lo..hi];
    if lo < hi {
      assert s[..hi][lo] == s[lo];
    }
  }

  // ---- the checksum's sum ----

  /** The 16-bit words of aligned data, high byte first, summed piece by piece. */
  lemma SumIs(a: Bytes, b: Bytes, hi: byte, lo: byte)
    requires |a| % 2 == 0 && |b| % 2 == 0
    ensures Sum16([]) == 0 && Sum16([hi, lo]) == 256 * (hi as int) + lo && |a + b| % 2 == 0 && Sum16(a + b) == Sum16(a) + Sum16(b)
  {
    assert [hi, lo][..0] == [];
    SumOfJoin(a, b);
  }
}

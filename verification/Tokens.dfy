/** Order tokens: a six-character prefix and the order counter in at least eight hex digits. */
module Tokens {
  import opened BigEndian
  import opened Ouch

  const ZERO: byte := '0' as int

  function Digit(d: nat): byte
    requires d < 16
  {
    if d < 10 then ZERO + d else 'A' as int + (d - 10)
  }

  function HexStr(n: nat): (s: Bytes)
    ensures s != []
  {
    if n < 16 then [Digit(n)] else HexStr(n / 16) + [Digit(n % 16)]
  }

  function Zeros(n: nat): (s: Bytes)
    ensures |s| == n
  {
    if n == 0 then [] else [ZERO] + Zeros(n - 1)
  }

  /** `f"{n:08X}"`: never fewer than eight digits, but more when the number needs them. */
  function Hex8(n: nat): (s: Bytes)
    ensures |s| >= 8 && (|s| > 8 ==> s == HexStr(n))
  {
    var s := HexStr(n);
    if |s| < 8 then Zeros(8 - |s|) + s else s
  }

  function Token(prefix: Bytes, n: nat): (t: Bytes)
    ensures |t| == 6 + |Hex8(n)|
  {
    Pad(prefix, 6) + Hex8(n)
  }

  function Value(s: Bytes): int {
    if s == [] then 0
    else
      var d := s[|s| - 1];
      Value(s[..|s| - 1]) * 16 + if d < 'A' as int then d - ZERO else d - 'A' as int + 10
  }

  lemma {:induction false} ValueOfHex(n: nat)
    ensures Value(HexStr(n)) == n
  {
    if n < 16 {
      assert HexStr(n)[..0] == [];
    } else {
      ValueOfHex(n / 16);
      assert HexStr(n)[..|HexStr(n)| - 1] == HexStr(n / 16);
    }
  }

  lemma {:induction false} ValueOfPadded(k: nat, s: Bytes)
    ensures Value(Zeros(k) + s) == Value(s)
  {
    if s == [] {
      assert Zeros(k) + s == Zeros(k);
      if k > 0 {
        ZerosEnd(k);
        ValueOfPadded(k - 1, s);
        assert Zeros(k - 1) + [] == Zeros(k - 1);
      }
    } else {
      assert (Zeros(k) + s)[..k + |s| - 1] == Zeros(k) + s[..|s| - 1];
      ValueOfPadded(k, s[..|s| - 1]);
    }
  }

  lemma {:induction false} ZerosEnd(k: nat)
    requires 0 < k
    ensures Zeros(k)[..k - 1] == Zeros(k - 1) && Zeros(k)[k - 1] == ZERO
  {
    if k > 1 {
      ZerosEnd(k - 1);
    }
  }

  lemma ValueOfHex8(n: nat)
    ensures Value(Hex8(n)) == n
  {
    ValueOfHex(n);
    if |HexStr(n)| < 8 {
      ValueOfPadded(8 - |HexStr(n)|, HexStr(n));
    }
  }

  /** Different counters give different tokens. */
  lemma TokensDiffer(prefix: Bytes, a: nat, b: nat)
    ensures Token(prefix, a) == Token(prefix, b) ==> a == b
  {
    ValueOfHex8(a);
    ValueOfHex8(b);
    assert Token(prefix, a)[6..] == Hex8(a) && Token(prefix, b)[6..] == Hex8(b);
  }

  function Pow16(k: nat): nat {
    if k == 0 then 1 else 16 * Pow16(k - 1)
  }

  lemma {:induction false} HexLength(n: nat, k: nat)
    requires 0 < k
    ensures |HexStr(n)| <= k <==> n < Pow16(k)
  {
    if k == 1 {
      assert n >= 16 ==> |HexStr(n / 16)| >= 1;
    } else if n < 16 {
      assert Pow16(k) >= 16 by { PowAtLeast(k); }
    } else {
      HexLength(n / 16, k - 1);
    }
  }

  lemma {:induction false} PowAtLeast(k: nat)
    requires 0 < k
    ensures Pow16(k) >= 16
  {
    if k > 1 {
      PowAtLeast(k - 1);
    }
  }

  /** The token fits the 14-byte wire field, and so is the key the venue echoes, exactly while the
      counter fits 32 bits. */
  lemma TokenFitsIff(prefix: Bytes, n: nat)
    ensures Pad(Token(prefix, n), 14) == Token(prefix, n) <==> n < U32
    ensures n < U32 <==> |Token(prefix, n)| == 14
  {
    HexLength(n, 8);
    assert Pow16(8) == U32 by {
      assert Pow16(4) == 0x1_0000;
    }
    if |Token(prefix, n)| == 14 {
      assert Token(prefix, n) + seq(0, _ => SPACE) == Token(prefix, n);
    }
  }
}

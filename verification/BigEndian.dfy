/** Bytes, fixed-width big-endian integers, and messages laid out as consecutive fields. */
module BigEndian {

  type byte = b: int | 0 <= b < 256
  type Bytes = seq<byte>

  /** 256 to the `w`: the first value `w` bytes cannot hold. */
  function Pow256(w: nat): (p: nat)
    ensures p > 0
  {
    if w == 0 then 1 else 256 * Pow256(w - 1)
  }

  function Enc(v: nat, w: nat): (s: Bytes)
    requires v < Pow256(w)
    ensures |s| == w
  {
    if w == 0 then [] else Enc(v / 256, w - 1) + [v % 256]
  }

  function Dec(s: Bytes): (v: nat)
    ensures v < Pow256(|s|)
  {
    if s == [] then 0 else Dec(s[..|s| - 1]) * 256 + s[|s| - 1]
  }

  lemma {:induction false} DecEnc(v: nat, w: nat)
    requires v < Pow256(w)
    ensures Dec(Enc(v, w)) == v
  {
    if w > 0 {
      DecEnc(v / 256, w - 1);
      assert Enc(v, w)[..w - 1] == Enc(v / 256, w - 1);
    }
  }

  lemma {:induction false} EncDec(s: Bytes)
    ensures Enc(Dec(s), |s|) == s
  {
    if s != [] {
      EncDec(s[..|s| - 1]);
    }
  }

  lemma Widths()
    ensures Pow256(1) == 0x100 && Pow256(2) == 0x1_0000 && Pow256(4) == 0x1_0000_0000
    ensures Pow256(8) == 0x1_0000_0000_0000_0000
  {
    assert Pow256(3) == 0x100_0000 && Pow256(5) == 0x100_0000_0000;
    assert Pow256(6) == 0x1_0000_0000_0000 && Pow256(7) == 0x100_0000_0000_0000;
  }

  const U16 := 0x1_0000
  const U32 := 0x1_0000_0000
  const U64 := 0x1_0000_0000_0000_0000

  function U2(v: nat): (s: Bytes)
    requires v < U16
    ensures |s| == 2 && Dec(s) == v
  {
    Widths();
    DecEnc(v, 2);
    Enc(v, 2)
  }

  function U4(v: nat): (s: Bytes)
    requires v < U32
    ensures |s| == 4 && Dec(s) == v
  {
    Widths();
    DecEnc(v, 4);
    Enc(v, 4)
  }

  function U8(v: nat): (s: Bytes)
    requires v < U64
    ensures |s| == 8 && Dec(s) == v
  {
    Widths();
    DecEnc(v, 8);
    Enc(v, 8)
  }

  /** Fields one after another. */
  function Join(fields: seq<Bytes>): Bytes {
    if fields == [] then [] else Join(fields[..|fields| - 1]) + fields[|fields| - 1]
  }

  /** Where field `k` starts. */
  function Offset(fields: seq<Bytes>, k: nat): nat
    requires k <= |fields|
  {
    |Join(fields[..k])|
  }

  lemma NextOffset(fields: seq<Bytes>, k: nat)
    requires k < |fields|
    ensures Offset(fields, k + 1) == Offset(fields, k) + |fields[k]|
  {
    assert fields[..k + 1][..k] == fields[..k];
  }

  lemma {:induction false} JoinPrefix(fields: seq<Bytes>, k: nat)
    requires k <= |fields|
    ensures Join(fields[..k]) <= Join(fields)
  {
    if k < |fields| {
      var front := fields[..|fields| - 1];
      JoinPrefix(front, k);
      assert front[..k] == fields[..k];
    } else {
      assert fields[..k] == fields;
    }
  }

  /** Reading at a field's offsets gives the field back. */
  lemma FieldAt(fields: seq<Bytes>, k: nat)
    requires k < |fields|
    ensures Offset(fields, k + 1) == Offset(fields, k) + |fields[k]| <= |Join(fields)|
    ensures Join(fields)[Offset(fields, k)..Offset(fields, k + 1)] == fields[k]
  {
    NextOffset(fields, k);
    JoinPrefix(fields, k + 1);
    assert fields[..k + 1][..k] == fields[..k];
    var a, b := Join(fields[..k]), Join(fields[..k + 1]);
    assert b == a + fields[k];
    assert Join(fields)[|a|..|b|] == b[|a|..];
  }

  lemma {:induction false} JoinAppend(a: seq<Bytes>, b: seq<Bytes>)
    ensures Join(a + b) == Join(a) + Join(b)
  {
    if b == [] {
      assert a + b == a;
    } else {
      assert (a + b)[..|a + b| - 1] == a + b[..|b| - 1];
      JoinAppend(a, b[..|b| - 1]);
    }
  }
}

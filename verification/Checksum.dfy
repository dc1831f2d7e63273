/** The Internet checksum: 16-bit words summed, carries folded back, complemented. */
module Checksum {
  import opened BigEndian
  import opened ModArith

  const ALL_ONES := 0xFFFF

  function Padded(data: Bytes): (r: Bytes)
    ensures |r| % 2 == 0
  {
    if |data| % 2 == 1 then data + [0] else data
  }

  function Word(hi: int, lo: int): int {
    hi * 256 + lo
  }

  function Sum16(data: Bytes): nat
    requires |data| % 2 == 0
  {
    if data == [] then 0
    else Sum16(data[..|data| - 2]) + Word(data[|data| - 2], data[|data| - 1])
  }

  /** The folded value without the loop: zero only for zero, otherwise the residue of the sum modulo 65535
      taken in 1..65535. */
  function Folded(s: nat): (r: nat)
    ensures r <= ALL_ONES && (r == 0 <==> s == 0)
  {
    if s == 0 then 0 else (s - 1) % ALL_ONES + 1
  }

  function Csum(data: Bytes): (c: nat)
    ensures c <= ALL_ONES
  {
    ALL_ONES - Folded(Sum16(Padded(data)))
  }

  /** What a receiver checks: the whole, with the checksum in place, folds to all ones. */
  predicate Verifies(data: Bytes) {
    Folded(Sum16(Padded(data))) == ALL_ONES
  }

  lemma OneCarry(s: nat)
    requires s > ALL_ONES
    ensures 0 < s % 0x1_0000 + s / 0x1_0000 < s
    ensures Folded(s % 0x1_0000 + s / 0x1_0000) == Folded(s)
  {
    var hi, lo := s / 0x1_0000, s % 0x1_0000;
    assert s == hi * 0x1_0000 + lo && hi >= 1;
    assert s - 1 == (lo + hi - 1) + hi * ALL_ONES;
    ModPlusMultiple(lo + hi - 1, hi, ALL_ONES);
  }

  /** The carry-folding loop ends, in 0..65535, at the residue the sum had. */
  method Fold(sum: nat) returns (s: nat)
    ensures s == Folded(sum)
  {
    s := sum;
    while s / 0x1_0000 != 0
      invariant Folded(s) == Folded(sum)
      decreases s
    {
      OneCarry(s);
      s := s % 0x1_0000 + s / 0x1_0000;
    }
  }

  /** `csum`, and `ipv4_checksum` on the even-length header it is given. */
  method Compute(data: Bytes) returns (c: nat)
    ensures c == Csum(data)
  {
    var d := Padded(data);
    var s := 0;
    var i := 0;
    while i < |d|
      invariant 0 <= i <= |d| && i % 2 == 0 && s == Sum16(d[..i])
    {
      assert d[..i + 2][..i] == d[..i];
      s := s + Word(d[i], d[i + 1]);
      i := i + 2;
    }
    assert d[..|d|] == d;
    var f := Fold(s);
    c := ALL_ONES - f;
  }

  lemma {:induction false} SumOfJoin(a: Bytes, b: Bytes)
    requires |a| % 2 == 0 && |b| % 2 == 0
    ensures Sum16(a + b) == Sum16(a) + Sum16(b)
  {
    if b == [] {
      assert a + b == a;
    } else {
      assert (a + b)[..|a + b| - 2] == a + b[..|b| - 2];
      SumOfJoin(a, b[..|b| - 2]);
    }
  }

  /** An aligned two-byte field adds its value. */
  lemma SumOfField(before: Bytes, v: nat, after: Bytes)
    requires |before| % 2 == 0 && v < Pow256(2)
    ensures Sum16(Padded(before + Enc(v, 2) + after)) == Sum16(before) + v + Sum16(Padded(after))
  {
    FieldSum(v);
    hide Enc, Pow256, Sum16;
    SumOfMiddle(before, Enc(v, 2), after);
  }

  lemma PaddedTail(a: Bytes, b: Bytes)
    requires |a| % 2 == 0
    ensures Padded(a + b) == a + Padded(b)
  {
    assert |a + b| % 2 == |b| % 2;
    assert a + (b + [0]) == (a + b) + [0];
  }

  lemma SumOfMiddle(before: Bytes, f: Bytes, after: Bytes)
    requires |before| % 2 == 0 && |f| % 2 == 0
    ensures Sum16(Padded(before + f + after)) == Sum16(before) + Sum16(f) + Sum16(Padded(after))
  {
    hide Sum16, Padded;
    PaddedTail(before + f, after);
    SumOfJoin(before + f, Padded(after));
    SumOfJoin(before, f);
  }

  lemma FieldSum(v: nat)
    requires v < Pow256(2)
    ensures Sum16(Enc(v, 2)) == v
  {
    var f := Enc(v, 2);
    assert Enc(v / 256, 1) == Enc(v / 256 / 256, 0) + [v / 256 % 256];
    assert f == [v / 256 % 256, v % 256] && f[..0] == [];
    assert Pow256(1) == 256 && Pow256(2) == 65536;
    assert v / 256 < 256;
  }

  /** Which values of a field make the folded sum all ones. */
  lemma FoldsToOnesIff(s: nat, v: nat)
    requires v <= ALL_ONES
    ensures Folded(s + v) == ALL_ONES
       <==> (v == ALL_ONES - Folded(s) || (Folded(s) == ALL_ONES && v == ALL_ONES))
  {
    if s == 0 {
      if v > 0 {
        ModUnique(v - 1, ALL_ONES, 0, v - 1);
      }
    } else {
      AddMod(s - 1, v % ALL_ONES, ALL_ONES);
      if v == ALL_ONES {
        ModPlusMultiple(s - 1, 1, ALL_ONES);
      } else {
        ModUnique(v, ALL_ONES, 0, v);
      }
    }
  }

  /** With an aligned field zeroed and then filled, the whole verifies exactly for the checksum of the
      zeroed form (and for the other zero of one's complement when that checksum is zero). */
  lemma FieldVerifiesIff(before: Bytes, v: nat, after: Bytes)
    requires |before| % 2 == 0 && v < Pow256(2)
    ensures Verifies(before + Enc(v, 2) + after)
       <==> v == Csum(before + Enc(0, 2) + after) || (v == ALL_ONES && Csum(before + Enc(0, 2) + after) == 0)
  {
    Widths();
    SumOfField(before, v, after);
    SumOfField(before, 0, after);
    FoldsToOnesIff(Sum16(before) + Sum16(Padded(after)), v);
  }

  /** Writing the checksum of the zeroed form into the field makes the whole fold to all ones. */
  lemma ChecksumVerifies(before: Bytes, after: Bytes)
    requires |before| % 2 == 0
    ensures Csum(before + Enc(0, 2) + after) < Pow256(2)
    ensures Verifies(before + Enc(Csum(before + Enc(0, 2) + after), 2) + after)
  {
    Widths();
    FieldVerifiesIff(before, Csum(before + Enc(0, 2) + after), after);
  }
}

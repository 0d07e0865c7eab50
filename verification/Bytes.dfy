/** Fixed-width little-endian integers, as `reinterpret_cast` to bytes yields them on the target machine. */
module Bytes {
  import opened Values

  function Pow256(w: nat): (p: int)
    ensures p >= 1
  {
    if w == 0 then 1 else 256 * Pow256(w - 1)
  }

  /** The w low bytes of n, lowest first. */
  function Encode(n: nat, w: nat): (s: seq<Byte>)
    ensures |s| == w
    decreases w
  {
    if w == 0 then [] else [n % 256] + Encode(n / 256, w - 1)
  }

  function Decode(s: seq<Byte>): (n: nat)
    ensures n < Pow256(|s|)
  {
    if s == [] then 0 else s[0] + 256 * Decode(s[1..])
  }

  lemma {:induction false} DecodeEncode(n: nat, w: nat)
    requires n < Pow256(w)
    ensures Decode(Encode(n, w)) == n
    decreases w
  {
    if w > 0 {
      DecodeEncode(n / 256, w - 1);
      assert Encode(n, w)[1..] == Encode(n / 256, w - 1);
    }
  }

  /** Four bytes, the lowest first. */
  lemma FourBytes(n: nat)
    requires n < 0x1_0000_0000
    ensures Encode(n, 4) == [n % 0x100, n / 0x100 % 0x100, n / 0x1_0000 % 0x100, n / 0x100_0000]
  {
    assert n / 0x100 / 0x100 == n / 0x1_0000 && n / 0x100 / 0x100 / 0x100 == n / 0x100_0000;
    assert Encode(n, 4) == [n % 0x100] + Encode(n / 0x100, 3);
    assert Encode(n / 0x100, 3) == [n / 0x100 % 0x100] + Encode(n / 0x100 / 0x100, 2);
    assert Encode(n / 0x100 / 0x100, 2) == [n / 0x100 / 0x100 % 0x100] + Encode(n / 0x100 / 0x100 / 0x100, 1);
    assert Encode(n / 0x100 / 0x100 / 0x100, 1) == [n / 0x100 / 0x100 / 0x100 % 0x100] + Encode(n / 0x100 / 0x100 / 0x100 / 0x100, 0);
  }

  lemma ZeroBytes(w: nat)
    ensures Encode(0, w) == seq(w, _ => 0)
    decreases w
  {
    if w > 0 {
      ZeroBytes(w - 1);
    }
  }

  /** A small number in eight bytes. */
  lemma EightBytes(n: nat)
    requires n < 0x100
    ensures Encode(n, 8) == [n, 0, 0, 0, 0, 0, 0, 0]
  {
    assert Encode(n, 8) == [n % 0x100] + Encode(n / 0x100, 7);
    ZeroBytes(7);
  }

  lemma Widths()
    ensures Pow256(1) == 0x100 && Pow256(2) == 0x1_0000 && Pow256(4) == 0x1_0000_0000
    ensures Pow256(8) == 0x1_0000_0000_0000_0000
    ensures Pow256(16) == 0x1_0000_0000_0000_0000_0000_0000_0000_0000
  {
    assert Pow256(3) == 0x100_0000;
    assert Pow256(4) == 0x1_0000_0000;
    assert Pow256(6) == 0x1_0000_0000_0000;
    assert Pow256(8) == 0x1_0000_0000_0000_0000;
    assert Pow256(10) == 0x1_0000_0000_0000_0000_0000;
    assert Pow256(12) == 0x1_0000_0000_0000_0000_0000_0000;
    assert Pow256(14) == 0x1_0000_0000_0000_0000_0000_0000_0000;
  }

  // ----- signed values -----

  /** Two's complement in w bytes. */
  function Unsigned(v: int, w: nat): nat {
    if v >= 0 then v else if v + Pow256(w) >= 0 then v + Pow256(w) else 0
  }

  function Signed(n: nat, w: nat): int {
    if 2 * n < Pow256(w) then n else n - Pow256(w)
  }

  function EncodeSigned(v: int, w: nat): (s: seq<Byte>)
    ensures |s| == w
  {
    Encode(Unsigned(v, w), w)
  }

  function DecodeSigned(s: seq<Byte>): int {
    Signed(Decode(s), |s|)
  }

  lemma SignedRoundTrip(v: int, w: nat)
    requires -Pow256(w) <= 2 * v < Pow256(w)
    ensures DecodeSigned(EncodeSigned(v, w)) == v
  {
    DecodeEncode(Unsigned(v, w), w);
  }

  /** A typed integer fits the bytes of its column. */
  lemma TypedRange(i: int, ty: ColumnType)
    requires HasType(Int(i), ty)
    ensures -Pow256(Width(ty)) <= 2 * i < Pow256(Width(ty))
  {
    Widths();
  }
}

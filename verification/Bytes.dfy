/** Fixed-width little-endian integers, and powers of ten. */
module Bytes {
  import opened Common

  function Power256(w: nat): (p: nat)
    ensures p >= 1
  {
    if w == 0 then 1 else 256 * Power256(w - 1)
  }

  function LittleEndian(n: nat, width: nat): (b: seq<byte>)
    ensures |b| == width
  {
    if width == 0 then [] else [(n % 256) as byte] + LittleEndian(n / 256, width - 1)
  }

  function FromLittleEndian(b: seq<byte>): (n: nat)
  {
    if b == [] then 0 else b[0] as nat + 256 * FromLittleEndian(b[1..])
  }

  lemma {:induction false} FromLittleEndianBound(b: seq<byte>)
    ensures FromLittleEndian(b) < Power256(|b|)
  {
    if b == [] {
    } else {
      FromLittleEndianBound(b[1..]);
    }
  }

  lemma {:induction false} LittleEndianRoundTrip(n: nat, width: nat)
    requires n < Power256(width)
    ensures FromLittleEndian(LittleEndian(n, width)) == n
  {
    if width == 0 {
    } else {
      LittleEndianRoundTrip(n / 256, width - 1);
      assert LittleEndian(n, width)[1..] == LittleEndian(n / 256, width - 1);
    }
  }

  lemma Widths()
    ensures Power256(4) == U32_MAX + 1 && Power256(8) == U64_MAX + 1
  {
    assert Power256(2) == 0x1_0000;
    assert Power256(4) == 0x1_0000_0000;
    assert Power256(6) == 0x1_0000_0000_0000;
  }

  function Power10(w: nat): (p: nat)
    ensures p >= 1
  {
    if w == 0 then 1 else 10 * Power10(w - 1)
  }

  lemma DecimalWidths()
    ensures Power10(10) > U32_MAX && Power10(20) > U64_MAX
  {
    assert Power10(5) == 10_0000;
    assert Power10(10) == 100_0000_0000;
    assert Power10(15) == 1000_0000_0000_0000;
  }

  /** The least significant byte comes first. */
  lemma {:induction false} LittleEndianBytes(n: nat)
    requires n <= U32_MAX
    ensures var b := LittleEndian(n, 4);
      && n == b[0] as nat + 0x100 * b[1] as nat + 0x1_0000 * b[2] as nat + 0x100_0000 * b[3] as nat
  {
    Widths();
    LittleEndianRoundTrip(n, 4);
    var b := LittleEndian(n, 4);
    assert FromLittleEndian(b) == b[0] as nat + 256 * FromLittleEndian(b[1..]);
    assert FromLittleEndian(b[1..]) == b[1] as nat + 256 * FromLittleEndian(b[1..][1..]);
    assert b[1..][1..] == b[2..] && b[2..][1..] == b[3..] && b[3..][1..] == [];
  }
}

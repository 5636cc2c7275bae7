/** Fixed-width integer fields of the wire format, as sequences of bytes. */
module WireFormat {

  type byte = x: int | 0 <= x < 0x100
  type uint32 = x: int | 0 <= x < 0x1_0000_0000
  type uint64 = x: int | 0 <= x < 0x1_0000_0000_0000_0000

  datatype Option<+T> = None | Some(value: T)

  /** Most significant byte first (the frame length, the record sequence number). */
  function BigEndian(v: nat, width: nat): (b: seq<byte>)
    ensures |b| == width
  {
    if width == 0 then [] else BigEndian(v / 0x100, width - 1) + [v % 0x100]
  }

  /** Least significant byte first (the protocol type). */
  function LittleEndian(v: nat, width: nat): (b: seq<byte>)
    ensures |b| == width
  {
    if width == 0 then [] else [v % 0x100] + LittleEndian(v / 0x100, width - 1)
  }

  function BigEndianValue(b: seq<byte>): nat {
    if b == [] then 0 else 0x100 * BigEndianValue(b[..|b| - 1]) + b[|b| - 1]
  }

  function LittleEndianValue(b: seq<byte>): nat {
    if b == [] then 0 else b[0] + 0x100 * LittleEndianValue(b[1..])
  }

  function Pow256(width: nat): (p: nat)
    ensures p > 0
  {
    if width == 0 then 1 else 0x100 * Pow256(width - 1)
  }

  lemma DigitStep(a: nat, b: byte)
    ensures (0x100 * a + b) / 0x100 == a && (0x100 * a + b) % 0x100 == b
  {
  }

  lemma DivideBelow(v: nat, p: nat)
    requires v < 0x100 * p
    ensures v / 0x100 < p
  {
  }

  lemma {:induction false} BigEndianRoundTrip(v: nat, width: nat)
    requires v < Pow256(width)
    ensures BigEndianValue(BigEndian(v, width)) == v
  {
    if width > 0 {
      DivideBelow(v, Pow256(width - 1));
      BigEndianRoundTrip(v / 0x100, width - 1);
      assert BigEndian(v, width)[..width - 1] == BigEndian(v / 0x100, width - 1);
    }
  }

  lemma {:induction false} LittleEndianRoundTrip(v: nat, width: nat)
    requires v < Pow256(width)
    ensures LittleEndianValue(LittleEndian(v, width)) == v
  {
    if width > 0 {
      DivideBelow(v, Pow256(width - 1));
      LittleEndianRoundTrip(v / 0x100, width - 1);
      assert LittleEndian(v, width)[1..] == LittleEndian(v / 0x100, width - 1);
    }
  }

  lemma {:induction false} BigEndianCanonical(b: seq<byte>)
    ensures BigEndian(BigEndianValue(b), |b|) == b && BigEndianValue(b) < Pow256(|b|)
  {
    if b != [] {
      var init := b[..|b| - 1];
      BigEndianCanonical(init);
      DigitStep(BigEndianValue(init), b[|b| - 1]);
    }
  }

  lemma {:induction false} LittleEndianCanonical(b: seq<byte>)
    ensures LittleEndian(LittleEndianValue(b), |b|) == b && LittleEndianValue(b) < Pow256(|b|)
  {
    if b != [] {
      LittleEndianCanonical(b[1..]);
      DigitStep(LittleEndianValue(b[1..]), b[0]);
    }
  }

  lemma FourBytes()
    ensures Pow256(4) == 0x1_0000_0000 && Pow256(8) == 0x1_0000_0000_0000_0000
  {
    assert Pow256(2) == 0x1_0000 && Pow256(4) == 0x1_0000 * Pow256(2) && Pow256(6) == 0x1_0000 * Pow256(4);
    assert Pow256(8) == 0x1_0000 * Pow256(6);
  }
}

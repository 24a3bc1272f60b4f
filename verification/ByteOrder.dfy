/** Numbers as fixed-width byte strings: little-endian for native integers, big-endian for lengths in
    frames and for 256-bit values. */
module ByteOrder {
  import opened Words
  import opened Targets
  import opened CompactBytes

  function LittleEndian(s: seq<u8>): nat {
    if s == [] then 0 else s[0] + 256 * LittleEndian(s[1..])
  }

  function Little(n: nat, width: nat): (s: seq<u8>)
    ensures |s| == width
  {
    if width == 0 then [] else [n % 256] + Little(n / 256, width - 1)
  }

  function Big(n: nat, width: nat): (s: seq<u8>)
    ensures |s| == width
  {
    if width == 0 then [] else Big(n / 256, width - 1) + [n % 256]
  }

  lemma {:induction false} LittleRoundTrip(n: nat, width: nat)
    requires n < Pow256(width)
    ensures LittleEndian(Little(n, width)) == n
  {
    if width > 0 {
      LittleRoundTrip(n / 256, width - 1);
      assert Little(n, width)[1..] == Little(n / 256, width - 1);
    }
  }

  lemma {:induction false} LittleUnique(s: seq<u8>)
    ensures Little(LittleEndian(s), |s|) == s && LittleEndian(s) < Pow256(|s|)
  {
    if s != [] { LittleUnique(s[1..]); }
  }

  lemma {:induction false} BigRoundTrip(n: nat, width: nat)
    requires n < Pow256(width)
    ensures BigEndian(Big(n, width)) == n
  {
    if width > 0 {
      BigRoundTrip(n / 256, width - 1);
      var s := Big(n, width);
      assert s[..|s| - 1] == Big(n / 256, width - 1);
    }
  }

  lemma {:induction false} BigUnique(s: seq<u8>)
    ensures Big(BigEndian(s), |s|) == s && BigEndian(s) < Pow256(|s|)
  {
    if s != [] { BigUnique(s[..|s| - 1]); }
  }

  lemma {:induction false} Widths()
    ensures Pow256(1) == 0x100 && Pow256(4) == 0x1_0000_0000 && Pow256(6) == 0x1_0000_0000_0000
    ensures Pow256(8) == TWO_64 && Pow256(32) == TWO_256
    ensures Pow256(33) == 0x100 * TWO_256 && Pow256(64) == TWO_256 * TWO_256
  {
    Widths8();
    Pow256Sum(8, 8);
    Pow256Sum(16, 16);
    Pow256Sum(32, 1);
    Pow256Sum(32, 32);
  }

  lemma {:induction false} Widths8()
    ensures Pow256(1) == 0x100 && Pow256(4) == 0x1_0000_0000 && Pow256(6) == 0x1_0000_0000_0000
    ensures Pow256(8) == TWO_64
  {
    assert Pow256(4) == 0x1_0000_0000;
  }

  // Reading one fixed-width field.
  function ReadLittle(s: seq<u8>, width: nat): (n: nat)
    requires |s| == width
    ensures n < Pow256(width)
  {
    LittleUnique(s);
    LittleEndian(s)
  }

  function ReadBig(s: seq<u8>, width: nat): (n: nat)
    requires |s| == width
    ensures n < Pow256(width)
  {
    BigUnique(s);
    BigEndian(s)
  }
}

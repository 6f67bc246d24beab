// Octets on the wire, and text as its UTF-8 octets: one character per octet.
module Wire {
  type Byte = x: int | 0 <= x < 256

  type Buffer = seq<Byte>

  // Text given by octets.
  predicate Octets(s: string) {
    forall i :: 0 <= i < |s| ==> s[i] as int < 256
  }

  function ToBytes(s: string): (b: Buffer)
    ensures |b| == |s|
  {
    seq(|s|, i requires 0 <= i < |s| => s[i] as int % 256)
  }

  function FromBytes(b: Buffer): (s: string)
    ensures |s| == |b| && Octets(s)
  {
    seq(|b|, i requires 0 <= i < |b| => b[i] as char)
  }

  lemma TextRoundTrip(s: string)
    requires Octets(s)
    ensures FromBytes(ToBytes(s)) == s
  {
  }

  // The bytes `part` stand in b from offset o on.
  predicate At(b: Buffer, o: nat, part: Buffer) {
    o + |part| <= |b| && b[o..o + |part|] == part
  }

  lemma AtSplit(b: Buffer, o: nat, first: Buffer, second: Buffer)
    ensures At(b, o, first + second) <==> At(b, o, first) && At(b, o + |first|, second)
  {
    if o + |first| + |second| <= |b| {
      var whole := b[o..o + |first| + |second|];
      assert whole[..|first|] == b[o..o + |first|];
      assert whole[|first|..] == b[o + |first|..o + |first| + |second|];
      assert (first + second)[..|first|] == first && (first + second)[|first|..] == second;
      assert whole == whole[..|first|] + whole[|first|..];
    }
  }

  lemma AtByte(b: Buffer, o: nat, part: Buffer, i: nat)
    requires At(b, o, part) && i < |part|
    ensures b[o + i] == part[i]
  {
    assert b[o..o + |part|][i] == b[o + i];
  }

  function U16(n: nat): (r: Buffer)
    requires n < 0x1_0000
    ensures |r| == 2
  {
    [n / 256, n % 256]
  }

  function U32(n: nat): (r: Buffer)
    requires n < 0x1_0000_0000
    ensures |r| == 4
  {
    U16(n / 0x1_0000) + U16(n % 0x1_0000)
  }

  function ReadU16(b: Buffer, o: nat): (n: nat)
    requires o + 2 <= |b|
    ensures n < 0x1_0000
  {
    (b[o] as int) * 256 + b[o + 1]
  }

  function ReadU32(b: Buffer, o: nat): (n: nat)
    requires o + 4 <= |b|
    ensures n < 0x1_0000_0000
  {
    ReadU16(b, o) * 0x1_0000 + ReadU16(b, o + 2)
  }

  lemma ReadsU16(b: Buffer, o: nat, n: nat)
    requires n < 0x1_0000 && At(b, o, U16(n))
    ensures o + 2 <= |b| && ReadU16(b, o) == n
  {
    AtByte(b, o, U16(n), 0);
    AtByte(b, o, U16(n), 1);
  }

  lemma ReadsU32(b: Buffer, o: nat, n: nat)
    requires n < 0x1_0000_0000 && At(b, o, U32(n))
    ensures o + 4 <= |b| && ReadU32(b, o) == n
  {
    AtSplit(b, o, U16(n / 0x1_0000), U16(n % 0x1_0000));
    ReadsU16(b, o, n / 0x1_0000);
    ReadsU16(b, o + 2, n % 0x1_0000);
  }
}

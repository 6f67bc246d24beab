// IPv4 and IPv6 addresses as text and as the octets of A and AAAA records.
module Addresses {
  import opened Wrappers
  import opened Text
  import opened Names
  import opened Wire

  // ---- IPv4 ----

  function FormatIpv4(b: Buffer): string
    requires |b| == 4
  {
    Join([Numeral(b[0], Decimal), Numeral(b[1], Decimal), Numeral(b[2], Decimal), Numeral(b[3], Decimal)], '.')
  }

  predicate IsOctet(part: string) {
    IsNumeral(part, Decimal) && (part[0] == '0' ==> |part| == 1) && Value(part, Decimal) < 256
  }

  // The octets of a dotted quad; None for any other text.
  function ParseIpv4(s: string): Option<Buffer> {
    var parts := Split(s, '.');
    if |parts| == 4 && forall i :: 0 <= i < 4 ==> IsOctet(parts[i])
    then Some([Value(parts[0], Decimal), Value(parts[1], Decimal), Value(parts[2], Decimal), Value(parts[3], Decimal)])
    else None
  }

  lemma DecimalLacks(n: nat, c: char)
    requires !('0' <= c <= '9')
    ensures Lacks(Numeral(n, Decimal), c)
  {
    NumeralRoundTrip(n, Decimal);
    var s := Numeral(n, Decimal);
    forall i | 0 <= i < |s| ensures s[i] != c { assert DigitValue(s[i]).Some?; }
  }

  lemma OctetNumeral(n: Byte)
    ensures IsOctet(Numeral(n, Decimal)) && Value(Numeral(n, Decimal), Decimal) == n && Lacks(Numeral(n, Decimal), '.')
  {
    NumeralRoundTrip(n, Decimal);
    DecimalLacks(n, '.');
    if Numeral(n, Decimal)[0] == '0' { assert Numeral(0, Decimal) == ['0']; }
  }

  lemma Ipv4RoundTrip(b: Buffer)
    requires |b| == 4
    ensures ParseIpv4(FormatIpv4(b)) == Some(b)
  {
    hide Split, Join, IsOctet, Numeral, Value;
    OctetNumeral(b[0]);
    OctetNumeral(b[1]);
    OctetNumeral(b[2]);
    OctetNumeral(b[3]);
    var parts := [Numeral(b[0], Decimal), Numeral(b[1], Decimal), Numeral(b[2], Decimal), Numeral(b[3], Decimal)];
    SplitOfJoin(parts, '.');
    assert b == [b[0], b[1], b[2], b[3]];
    assert forall i :: 0 <= i < 4 ==> IsOctet(parts[i]);
  }

  // A text that parses is the text its octets are printed as.
  lemma Ipv4TextIsNormal(s: string)
    requires ParseIpv4(s).Some?
    ensures |ParseIpv4(s).value| == 4 && FormatIpv4(ParseIpv4(s).value) == s
  {
    var parts := Split(s, '.');
    forall i | 0 <= i < 4 ensures Numeral(Value(parts[i], Decimal), Decimal) == parts[i] {
      CanonicalNumeral(parts[i], Decimal);
    }
    JoinOfSplit(s, '.');
    assert parts == [parts[0], parts[1], parts[2], parts[3]];
  }

  // ---- IPv6 ----

  function Groups(b: Buffer): seq<nat>
    requires |b| % 2 == 0
    decreases |b|
  {
    if b == [] then [] else [(b[0] as int) * 256 + b[1]] + Groups(b[2..])
  }

  function GroupTexts(groups: seq<nat>): seq<string> {
    seq(|groups|, i requires 0 <= i < |groups| => Numeral(groups[i], Hexadecimal))
  }

  function HexJoin(groups: seq<nat>): string {
    if groups == [] then "" else Join(GroupTexts(groups), ':')
  }

  function FormatIpv6(b: Buffer): string
    requires |b| == 16
  {
    HexJoin(Groups(b))
  }

  // input.split("::")
  function SplitGap(s: string): (r: seq<string>)
    ensures |r| > 0
  {
    if |s| < 2 then [s]
    else if s[0] == ':' && s[1] == ':' then [[]] + SplitGap(s[2..])
    else
      var rest := SplitGap(s[1..]);
      [[s[0]] + rest[0]] + rest[1..]
  }

  function LastColon(s: string): (i: int)
    ensures -1 <= i < |s|
    ensures i >= 0 ==> s[i] == ':' && Lacks(s[i + 1..], ':')
    ensures i < 0 ==> Lacks(s, ':')
  {
    if s == [] then -1
    else if s[|s| - 1] == ':' then |s| - 1
    else LastColon(s[..|s| - 1])
  }

  // A trailing dotted quad becomes two hexadecimal groups.
  function ReplaceQuad(input: string): Option<string> {
    var at := LastColon(input);
    if Lacks(input, '.') || at < 0 then Some(input)
    else match ParseIpv4(input[at + 1..])
      case None => None
      case Some(q) => Some(input[..at] + [':'] + Numeral((q[0] as int) * 256 + q[1], Hexadecimal)
                             + [':'] + Numeral((q[2] as int) * 256 + q[3], Hexadecimal))
  }

  function PartsOf(half: string): seq<string> {
    if half == "" then [] else Split(half, ':')
  }

  function Zeros(n: nat): seq<string> {
    seq(n, i => "0")
  }

  function GroupBytes(parts: seq<string>): Option<Buffer> {
    if parts == [] then Some([])
    else
      var g := parts[0];
      if g != "" && !(IsNumeral(g, Hexadecimal) && Value(g, Hexadecimal) < 0x1_0000) then None
      else match GroupBytes(parts[1..])
        case None => None
        case Some(rest) => Some(U16(if g == "" then 0 else Value(g, Hexadecimal)) + rest)
  }

  // The groups of the text before and after "::", or of the whole text.
  function EncodeHalves(halves: seq<string>): Option<Buffer>
    requires |halves| > 0
  {
    if |halves| > 2 then None
    else
      var left := PartsOf(halves[0]);
      var right := if |halves| == 2 then PartsOf(halves[1]) else [];
      var missing := 8 - |left| - |right|;
      if (|halves| == 1 && missing != 0) || missing < 0 then None
      else GroupBytes(if |halves| == 2 then left + Zeros(missing) + right else left)
  }

  function EncodeIpv6(address: string): Option<Buffer> {
    match ReplaceQuad(Lower(address))
    case None => None
    case Some(input) => EncodeHalves(SplitGap(input))
  }

  // ---- Texts without gaps ----

  // Non-empty, no two colons in a row, no colon at either end.
  predicate Clean(s: string) {
    && s != [] && s[0] != ':' && s[|s| - 1] != ':'
    && forall i :: 0 <= i < |s| - 1 ==> !(s[i] == ':' && s[i + 1] == ':')
  }

  lemma HexNumeralClean(n: nat)
    ensures var s := Numeral(n, Hexadecimal); Clean(s) && Lacks(s, ':') && Lacks(s, '.') && Lower(s) == s
  {
    NumeralRoundTrip(n, Hexadecimal);
    var s := Numeral(n, Hexadecimal);
    forall i | 0 <= i < |s| ensures s[i] != ':' && s[i] != '.' && !('A' <= s[i] <= 'Z') {
      assert DigitValue(s[i]).Some?;
    }
  }

  lemma CleanJoin(a: string, b: string)
    requires Clean(a) && Clean(b)
    ensures Clean(a + [':'] + b)
  {
  }

  lemma HexJoinFirst(groups: seq<nat>)
    requires groups != []
    ensures HexJoin(groups) == Numeral(groups[0], Hexadecimal) + if |groups| == 1 then "" else [':'] + HexJoin(groups[1..])
  {
    hide Numeral;
    assert GroupTexts(groups)[1..] == GroupTexts(groups[1..]);
  }

  lemma JoinLacks(a: string, b: string)
    ensures Lacks(a, '.') && Lacks(b, '.') ==> Lacks(a + [':'] + b, '.')
    ensures Lower(a) == a && Lower(b) == b ==> Lower(a + [':'] + b) == a + [':'] + b
  {
    LowerConcat(a + [':'], b);
    LowerConcat(a, [':']);
    assert Lower([':']) == [':'];
  }

  lemma {:induction false} HexJoinClean(groups: seq<nat>)
    requires groups != []
    ensures var s := HexJoin(groups); Clean(s) && Lacks(s, '.') && Lower(s) == s
  {
    hide HexJoin, Clean, Lacks, Lower, Numeral;
    var first := Numeral(groups[0], Hexadecimal);
    HexNumeralClean(groups[0]);
    HexJoinFirst(groups);
    if |groups| > 1 {
      HexJoinClean(groups[1..]);
      CleanJoin(first, HexJoin(groups[1..]));
      JoinLacks(first, HexJoin(groups[1..]));
      assert HexJoin(groups) == first + [':'] + HexJoin(groups[1..]);
    } else {
      assert HexJoin(groups) == first;
    }
  }

  lemma {:induction false} NoGapSplits(s: string)
    requires forall i :: 0 <= i < |s| - 1 ==> !(s[i] == ':' && s[i + 1] == ':')
    ensures SplitGap(s) == [s]
  {
    if |s| >= 2 {
      NoGapSplits(s[1..]);
      assert s == [s[0]] + s[1..];
    }
  }

  lemma {:induction false} GapSplits(a: string, b: string)
    requires a == "" || Clean(a)
    requires b == "" || Clean(b)
    ensures SplitGap(a + [':', ':'] + b) == [a, b]
  {
    var s := a + [':', ':'] + b;
    if a == "" {
      assert s[2..] == b;
      NoGapSplits(b);
    } else {
      GapSplitsInside(a, b);
    }
  }

  lemma {:induction false} GapSplitsInside(a: string, b: string)
    requires a != "" && a[|a| - 1] != ':'
    requires forall i :: 0 <= i < |a| - 1 ==> !(a[i] == ':' && a[i + 1] == ':')
    requires b == "" || Clean(b)
    ensures SplitGap(a + [':', ':'] + b) == [a, b]
  {
    var s := a + [':', ':'] + b;
    assert s[0] == a[0] && s[1..] == a[1..] + [':', ':'] + b;
    if |a| == 1 {
      assert s[1..][2..] == b;
      NoGapSplits(b);
      assert a == [a[0]] + [];
    } else {
      assert s[1] == a[1];
      GapSplitsInside(a[1..], b);
      assert a == [a[0]] + a[1..];
    }
  }

  predicate Small(groups: seq<nat>) {
    forall i :: 0 <= i < |groups| ==> groups[i] < 0x1_0000
  }

  lemma SmallConcat(a: seq<nat>, b: seq<nat>, c: seq<nat>)
    requires Small(a) && Small(b) && Small(c)
    ensures Small(a + b + c)
  {
  }

  function GroupsToBytes(groups: seq<nat>): Buffer
    requires Small(groups)
  {
    if groups == [] then [] else U16(groups[0]) + GroupsToBytes(groups[1..])
  }

  lemma {:induction false} GroupTextsEncode(groups: seq<nat>)
    requires Small(groups)
    ensures GroupBytes(GroupTexts(groups)) == Some(GroupsToBytes(groups))
  {
    if groups != [] {
      NumeralRoundTrip(groups[0], Hexadecimal);
      assert GroupTexts(groups)[1..] == GroupTexts(groups[1..]);
      GroupTextsEncode(groups[1..]);
    }
  }

  lemma PartsOfHexJoin(groups: seq<nat>)
    ensures PartsOf(HexJoin(groups)) == GroupTexts(groups)
  {
    if groups != [] {
      HexJoinClean(groups);
      forall i | 0 <= i < |groups| ensures Lacks(GroupTexts(groups)[i], ':') { HexNumeralClean(groups[i]); }
      SplitOfJoin(GroupTexts(groups), ':');
    }
  }

  function ZeroGroups(n: nat): seq<nat> {
    seq(n, i => 0)
  }

  lemma ZeroGroupTexts(n: nat)
    ensures GroupTexts(ZeroGroups(n)) == Zeros(n) && |ZeroGroups(n)| == n && Small(ZeroGroups(n))
  {
    assert Numeral(0, Hexadecimal) == "0";
  }

  // Eight groups written out encode to their octets.
  lemma FullTextEncodes(groups: seq<nat>)
    requires |groups| == 8 && Small(groups)
    ensures EncodeIpv6(HexJoin(groups)) == Some(GroupsToBytes(groups))
  {
    HexJoinClean(groups);
    NoGapSplits(HexJoin(groups));
    PartsOfHexJoin(groups);
    GroupTextsEncode(groups);
  }

  // "::" stands for as many zero groups as are missing, at the start, in the middle or at the end.
  lemma GapTextEncodes(left: seq<nat>, right: seq<nat>)
    requires |left| + |right| <= 8 && Small(left) && Small(right)
    ensures var zeros := ZeroGroups(8 - |left| - |right|);
      && Small(left + zeros + right)
      && EncodeIpv6(HexJoin(left) + [':', ':'] + HexJoin(right)) == Some(GroupsToBytes(left + zeros + right))
  {
    hide HexJoin, Clean, SplitGap, EncodeHalves, Lower, GroupTexts, Small, ZeroGroups, GroupsToBytes;
    GapTextIsLower(left, right);
    EmptyHexJoin();
    if left != [] { HexJoinClean(left); }
    if right != [] { HexJoinClean(right); }
    GapSplits(HexJoin(left), HexJoin(right));
    HalvesEncode(left, right);
  }

  lemma HalvesEncode(left: seq<nat>, right: seq<nat>)
    requires |left| + |right| <= 8 && Small(left) && Small(right)
    ensures var zeros := ZeroGroups(8 - |left| - |right|);
      && Small(left + zeros + right)
      && EncodeHalves([HexJoin(left), HexJoin(right)]) == Some(GroupsToBytes(left + zeros + right))
  {
    hide HexJoin, PartsOf, GroupBytes, GroupTexts, Small, Zeros, ZeroGroups, GroupsToBytes;
    var zeros := ZeroGroups(8 - |left| - |right|);
    PartsOfHexJoin(left);
    PartsOfHexJoin(right);
    ZeroGroupTexts(8 - |left| - |right|);
    SmallConcat(left, zeros, right);
    GroupTextsConcat(left, zeros, right);
    GroupTextsEncode(left + zeros + right);
  }

  lemma GroupTextsConcat(a: seq<nat>, b: seq<nat>, c: seq<nat>)
    ensures GroupTexts(a + b + c) == GroupTexts(a) + GroupTexts(b) + GroupTexts(c)
    ensures |GroupTexts(a)| == |a| && |GroupTexts(c)| == |c|
  {
  }

  lemma EmptyHexJoin()
    ensures HexJoin([]) == ""
  {
  }

  lemma GapTextIsLower(left: seq<nat>, right: seq<nat>)
    ensures var s := HexJoin(left) + [':', ':'] + HexJoin(right); Lower(s) == s && Lacks(s, '.')
  {
    if left != [] { HexJoinClean(left); }
    if right != [] { HexJoinClean(right); }
    var a, b := HexJoin(left), HexJoin(right);
    forall i | 0 <= i < |a| ensures !('A' <= a[i] <= 'Z') && a[i] != '.' { assert Lower(a)[i] == a[i]; }
    forall i | 0 <= i < |b| ensures !('A' <= b[i] <= 'Z') && b[i] != '.' { assert Lower(b)[i] == b[i]; }
  }

  lemma {:induction false} BytesOfGroups(b: Buffer)
    requires |b| % 2 == 0
    ensures |Groups(b)| * 2 == |b| && Small(Groups(b))
    ensures GroupsToBytes(Groups(b)) == b
    decreases |b|
  {
    if b != [] {
      BytesOfGroups(b[2..]);
      assert Groups(b)[1..] == Groups(b[2..]);
      assert b == [b[0], b[1]] + b[2..];
    }
  }

  // Formatting and encoding an IPv6 address give back its octets.
  lemma Ipv6RoundTrip(b: Buffer)
    requires |b| == 16
    ensures EncodeIpv6(FormatIpv6(b)) == Some(b)
  {
    BytesOfGroups(b);
    FullTextEncodes(Groups(b));
  }

  // The groups written for a trailing quad.
  lemma QuadReplaced(prefix: string, quad: Buffer)
    requires |quad| == 4 && Lacks(FormatIpv4(quad), ':')
    ensures ReplaceQuad(prefix + [':'] + FormatIpv4(quad)) == Some(prefix + [':'] + HexJoin(Groups(quad)))
  {
    hide FormatIpv4, HexJoin, Groups, Numeral, ParseIpv4;
    var text, hex := FormatIpv4(quad), HexJoin(Groups(quad));
    var s := prefix + [':'] + text;
    QuadHasDot(quad);
    QuadHex(quad);
    LastColonIs(prefix, text);
    Ipv4RoundTrip(quad);
    assert s[|prefix| + 1..] == text && s[..|prefix|] == prefix;
    var n :| 0 <= n < |text| && text[n] == '.';
    assert s[|prefix| + 1 + n] == '.';
    assert prefix + [':'] + hex == prefix + [':'] + Numeral((quad[0] as int) * 256 + quad[1], Hexadecimal)
      + [':'] + Numeral((quad[2] as int) * 256 + quad[3], Hexadecimal);
  }

  lemma NothingReplaced(input: string)
    requires Lacks(input, '.')
    ensures ReplaceQuad(input) == Some(input)
  {
  }

  // A trailing dotted quad means its two groups.
  lemma QuadMeansGroups(prefix: string, quad: Buffer)
    requires |quad| == 4 && Lower(prefix) == prefix && Lacks(prefix, '.')
    ensures EncodeIpv6(prefix + [':'] + FormatIpv4(quad)) ==
      EncodeIpv6(prefix + [':'] + HexJoin(Groups(quad)))
  {
    hide FormatIpv4, HexJoin, SplitGap, Groups, Lower, EncodeHalves, Numeral, ReplaceQuad;
    var text, hex := FormatIpv4(quad), HexJoin(Groups(quad));
    QuadText(quad);
    QuadHex(quad);
    LowerParts(prefix, text);
    LowerParts(prefix, hex);
    QuadReplaced(prefix, quad);
    NothingReplaced(prefix + [':'] + hex);
  }

  lemma {:induction false} LastColonIs(prefix: string, tail: string)
    requires Lacks(tail, ':')
    ensures LastColon(prefix + [':'] + tail) == |prefix|
  {
    if tail != [] {
      var s := prefix + [':'] + tail;
      assert s[|s| - 1] == tail[|tail| - 1];
      assert s[..|s| - 1] == prefix + [':'] + tail[..|tail| - 1];
      LastColonIs(prefix, tail[..|tail| - 1]);
    }
  }

  lemma LowerParts(prefix: string, tail: string)
    requires Lower(prefix) == prefix && Lower(tail) == tail
    ensures Lower(prefix + [':'] + tail) == prefix + [':'] + tail
  {
  }

  lemma QuadHex(quad: Buffer)
    requires |quad| == 4
    ensures var hex := HexJoin(Groups(quad));
      && hex == Numeral((quad[0] as int) * 256 + quad[1], Hexadecimal) + [':'] + Numeral((quad[2] as int) * 256 + quad[3], Hexadecimal)
      && Lower(hex) == hex && Lacks(hex, '.')
  {
    QuadGroups(quad);
    var groups := Groups(quad);
    HexJoinClean(groups);
    var texts := GroupTexts(groups);
    assert texts[1..] == [Numeral(groups[1], Hexadecimal)];
    assert Join(texts[1..], ':') == texts[1];
    assert Join(texts, ':') == texts[0] + [':'] + texts[1];
  }

  lemma QuadGroups(quad: Buffer)
    requires |quad| == 4
    ensures Groups(quad) == [(quad[0] as int) * 256 + quad[1], (quad[2] as int) * 256 + quad[3]]
  {
    assert quad[2..][2..] == [];
    assert Groups(quad[2..]) == [(quad[2] as int) * 256 + quad[3]] + Groups(quad[2..][2..]);
  }

  lemma QuadHasDot(quad: Buffer)
    requires |quad| == 4
    ensures !Lacks(FormatIpv4(quad), '.')
  {
    assert FormatIpv4(quad)[|Numeral(quad[0], Decimal)|] == '.';
  }

  lemma QuadText(quad: Buffer)
    requires |quad| == 4
    ensures Lacks(FormatIpv4(quad), ':') && Lower(FormatIpv4(quad)) == FormatIpv4(quad)
  {
    OctetNumeral(quad[0]);
    OctetNumeral(quad[1]);
    OctetNumeral(quad[2]);
    OctetNumeral(quad[3]);
    QuadChars([Numeral(quad[0], Decimal), Numeral(quad[1], Decimal), Numeral(quad[2], Decimal), Numeral(quad[3], Decimal)]);
  }

  lemma {:induction false} QuadChars(parts: seq<string>)
    requires |parts| > 0 && forall i :: 0 <= i < |parts| ==> IsOctet(parts[i])
    ensures Lacks(Join(parts, '.'), ':') && Lower(Join(parts, '.')) == Join(parts, '.')
  {
    var p := parts[0];
    forall i | 0 <= i < |p| ensures p[i] != ':' && !('A' <= p[i] <= 'Z') { assert DigitValue(p[i]).Some?; }
    if |parts| > 1 { QuadChars(parts[1..]); }
  }

  lemma {:induction false} GroupBytesLength(parts: seq<string>)
    requires GroupBytes(parts).Some?
    ensures |GroupBytes(parts).value| == 2 * |parts|
  {
    if parts != [] { GroupBytesLength(parts[1..]); }
  }

  // An encoded IPv6 address has sixteen octets.
  lemma Ipv6Length(address: string)
    requires EncodeIpv6(address).Some?
    ensures |EncodeIpv6(address).value| == 16
  {
    var halves := SplitGap(ReplaceQuad(Lower(address)).value);
    var left := PartsOf(halves[0]);
    var right := if |halves| == 2 then PartsOf(halves[1]) else [];
    var parts := if |halves| == 2 then left + Zeros(8 - |left| - |right|) + right else left;
    GroupBytesLength(parts);
  }

  // ---- The printed form ----

  // Four decimal numbers without leading zeros, one an octet.
  lemma Ipv4Text(b: Buffer, i: nat)
    requires |b| == 4 && i < 4
    ensures var parts := Split(FormatIpv4(b), '.');
      |parts| == 4 && IsNumeral(parts[i], Decimal) && Value(parts[i], Decimal) == b[i] && (parts[i][0] == '0' ==> b[i] == 0)
  {
    hide Split, Join, Numeral, Value, IsNumeral;
    forall k: nat | k < 4 ensures Lacks(Numeral(b[k], Decimal), '.') { OctetNumeral(b[k]); }
    SplitOfJoin([Numeral(b[0], Decimal), Numeral(b[1], Decimal), Numeral(b[2], Decimal), Numeral(b[3], Decimal)], '.');
    NumeralRoundTrip(b[i], Decimal);
  }

  // Eight hexadecimal numbers without leading zeros, one for two octets, the first counting more.
  lemma Ipv6Text(b: Buffer, i: nat)
    requires |b| == 16 && i < 8
    ensures var parts := Split(FormatIpv6(b), ':'); var n := (b[2 * i] as int) * 256 + b[2 * i + 1];
      |parts| == 8 && IsNumeral(parts[i], Hexadecimal) && Value(parts[i], Hexadecimal) == n && (parts[i][0] == '0' ==> n == 0)
  {
    hide Split, Join, Numeral, Value, IsNumeral;
    var groups := Groups(b);
    GroupAt(b, i);
    forall k: nat | k < |groups| ensures Lacks(GroupTexts(groups)[k], ':') { HexNumeralClean(groups[k]); }
    SplitOfJoin(GroupTexts(groups), ':');
    NumeralRoundTrip(groups[i], Hexadecimal);
  }

  lemma {:induction false} GroupAt(b: Buffer, i: nat)
    requires |b| % 2 == 0 && 2 * i + 1 < |b|
    ensures |Groups(b)| == |b| / 2 && Groups(b)[i] == (b[2 * i] as int) * 256 + b[2 * i + 1]
    decreases |b|
  {
    if |b| > 2 {
      if i > 0 { GroupAt(b[2..], i - 1); } else { GroupAt(b[2..], 0); }
    } else {
      assert b[2..] == [];
    }
  }
}

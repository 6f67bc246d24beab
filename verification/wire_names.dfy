// DNS names on the wire: RFC 1035 sections 2.3.4, 4.1.2 and 4.1.4.
module WireNames {
  import opened Wrappers
  import opened Text
  import opened Names
  import opened Wire

  datatype Failure =
    | BadLabelLength | NameTooLong
    | OffsetOutside | TruncatedName | TruncatedPointer | PointerOutside | PointerLoop | BadMarker | TruncatedLabel

  // ---- Encoding ----

  function EncodeLabel(part: string): Buffer
    requires |part| < 256
  {
    [|part|] + ToBytes(part)
  }

  // Labels from the `length`-th octet of the name on.
  function EncodeLabels(labels: seq<string>, length: nat): Result<Buffer, Failure> {
    if labels == [] then Ok([0])
    else if |labels[0]| == 0 || |labels[0]| > 63 then Err(BadLabelLength)
    else if length + |labels[0]| + 1 > 255 then Err(NameTooLong)
    else match EncodeLabels(labels[1..], length + |labels[0]| + 1)
      case Err(e) => Err(e)
      case Ok(rest) => Ok(EncodeLabel(labels[0]) + rest)
  }

  function Encode(name: string): Result<Buffer, Failure> {
    var normalized := NormalizeName(name);
    if normalized == "" then Ok([0]) else EncodeLabels(Labels(normalized), 1)
  }

  method EncodeName(name: string) returns (r: Result<Buffer, Failure>)
    ensures r == Encode(name)
  {
    var normalized := NormalizeName(name);
    if normalized == "" { return Ok([0]); }
    var labels := Labels(normalized);
    var chunks: Buffer := [];
    var length: nat := 1;
    assert labels[0..] == labels && forall rest: Buffer :: [] + rest == rest;
    for i := 0 to |labels|
      invariant match EncodeLabels(labels[i..], length)
                case Ok(rest) => EncodeLabels(labels, 1) == Ok(chunks + rest)
                case Err(e) => EncodeLabels(labels, 1) == Err(e)
    {
      assert labels[i..][1..] == labels[i + 1..];
      var part := labels[i];
      if |part| == 0 || |part| > 63 { return Err(BadLabelLength); }
      length := length + |part| + 1;
      if length > 255 { return Err(NameTooLong); }
      ghost var before := chunks;
      chunks := chunks + EncodeLabel(part);
      assert forall rest: Buffer :: before + (EncodeLabel(part) + rest) == before + EncodeLabel(part) + rest;
    }
    return Ok(chunks + [0]);
  }

  // ---- Which names encode ----

  // The limits of section 2.3.4: labels of 1 to 63 octets, 255 octets on the wire.
  predicate Encodable(name: string) {
    name == "" || (|name| <= 253 && forall i :: 0 <= i < |Labels(name)| ==> 1 <= |Labels(name)[i]| <= 63)
  }

  lemma {:induction false} LabelsEncodeExactly(labels: seq<string>, length: nat)
    requires labels != []
    ensures EncodeLabels(labels, length).Ok? <==>
      && (forall i :: 0 <= i < |labels| ==> 1 <= |labels[i]| <= 63)
      && length + |Join(labels, '.')| + 1 <= 255
    decreases |labels|
  {
    hide EncodeLabel;
    var rest := labels[1..];
    assert labels == [labels[0]] + rest;
    if rest == [] {
      assert EncodeLabels(rest, length + |labels[0]| + 1) == Ok([0]);
    } else {
      LabelsEncodeExactly(rest, length + |labels[0]| + 1);
    }
  }

  // encodeName succeeds exactly within the limits.
  lemma EncodesExactly(name: string)
    ensures Encode(name).Ok? <==> Encodable(NormalizeName(name))
  {
    hide Split, Join, EncodeLabels, NormalizeName;
    var normalized := NormalizeName(name);
    if normalized != "" {
      LabelsEncodeExactly(Labels(normalized), 1);
      JoinOfSplit(normalized, '.');
    }
  }

  // A lower-case text survives encoding as it is exactly within the limits.
  lemma SurvivesExactly(text: string)
    requires Lower(text) == text
    ensures Encode(text).Ok? && NormalizeName(text) == text <==> Encodable(text)
  {
    hide Encode, Lower;
    EncodesExactly(text);
    if text != "" && Encodable(text) { LabelsNotEmpty(text); }
  }

  // ---- Decoding ----

  // A pointer's fourteen-bit target.
  function Pointer(high: Byte, low: Byte): nat
    requires high >= 192
  {
    (high - 192) * 256 + low
  }

  function NameText(labels: seq<string>): string {
    if labels == [] then "" else Lower(Join(labels, '.'))
  }

  datatype Decoded = Decoded(labels: seq<string>, next: nat)

  function Unvisited(b: Buffer, visited: set<nat>): set<nat> {
    set i: nat | i < |b| && i !in visited
  }

  // One decodeName loop from an offset on; a pointer's name arrives as one element.
  function DecodeLabels(b: Buffer, o: nat, visited: set<nat>): Result<Decoded, Failure>
    decreases Unvisited(b, visited), |b| - o
  {
    if o >= |b| then Err(TruncatedName)
    else
      var length := b[o];
      if length >= 192 then
        if o + 1 >= |b| then Err(TruncatedPointer)
        else
          var p := Pointer(length, b[o + 1]);
          if p >= |b| then Err(PointerOutside)
          else if p in visited then Err(PointerLoop)
          else
            assert p in Unvisited(b, visited) && p !in Unvisited(b, visited + {p});
            match DecodeLabels(b, p, visited + {p})
            case Err(e) => Err(e)
            case Ok(d) => Ok(Decoded(if NameText(d.labels) == "" then [] else [NameText(d.labels)], o + 2))
      else if length >= 64 then Err(BadMarker)
      else if length == 0 then Ok(Decoded([], o + 1))
      else if o + 1 + length > |b| then Err(TruncatedLabel)
      else match DecodeLabels(b, o + 1 + length, visited)
        case Err(e) => Err(e)
        case Ok(d) => Ok(Decoded([FromBytes(b[o + 1..o + 1 + length])] + d.labels, d.next))
  }

  datatype Name = Name(text: string, next: nat)

  function Decode(b: Buffer, o: int, visited: set<nat> := {}): Result<Name, Failure> {
    if o < 0 || o >= |b| then Err(OffsetOutside)
    else match DecodeLabels(b, o, visited)
      case Err(e) => Err(e)
      case Ok(d) => Ok(Name(NameText(d.labels), d.next))
  }

  // The name made of the labels so far and those that decoding the rest gives.
  function Named(labels: seq<string>, rest: Result<Decoded, Failure>): Result<Name, Failure> {
    match rest
    case Err(e) => Err(e)
    case Ok(d) => Ok(Name(NameText(labels + d.labels), d.next))
  }

  function WithLabel(part: string, rest: Result<Decoded, Failure>): Result<Decoded, Failure> {
    match rest
    case Ok(d) => Ok(Decoded([part] + d.labels, d.next))
    case Err(e) => Err(e)
  }

  lemma NamedStep(labels: seq<string>, part: string, rest: Result<Decoded, Failure>)
    ensures Named(labels, WithLabel(part, rest)) == Named(labels + [part], rest)
  {
    if rest.Ok? { assert labels + ([part] + rest.value.labels) == labels + [part] + rest.value.labels; }
  }

  lemma NamedOne(labels: seq<string>, part: string, next: nat)
    ensures Named(labels, Ok(Decoded([part], next))) == Ok(Name(NameText(labels + [part]), next))
  {
  }

  lemma NamedError(labels: seq<string>, rest: Result<Decoded, Failure>)
    ensures rest.Err? ==> Named(labels, rest) == Err(rest.error)
  {
  }

  // The branches that decode no further label.
  lemma DecodeStops(b: Buffer, o: nat, visited: set<nat>)
    ensures var d := DecodeLabels(b, o, visited);
      && (o >= |b| ==> d == Err(TruncatedName))
      && (o < |b| && b[o] >= 192 && o + 1 >= |b| ==> d == Err(TruncatedPointer))
      && (o < |b| && 64 <= b[o] < 192 ==> d == Err(BadMarker))
      && (o < |b| && b[o] == 0 ==> d == Ok(Decoded([], o + 1)))
      && (o < |b| && 0 < b[o] < 64 && o + 1 + b[o] > |b| ==> d == Err(TruncatedLabel))
  {
  }

  lemma DecodePointer(b: Buffer, o: nat, visited: set<nat>)
    requires o + 1 < |b| && b[o] >= 192
    ensures var d, p := DecodeLabels(b, o, visited), Pointer(b[o], b[o + 1]);
      && (p >= |b| ==> d == Err(PointerOutside))
      && (p < |b| && p in visited ==> d == Err(PointerLoop))
      && (p < |b| && p !in visited ==>
            match DecodeLabels(b, p, visited + {p})
            case Err(e) => d == Err(e)
            case Ok(t) => d == Ok(Decoded(if NameText(t.labels) == "" then [] else [NameText(t.labels)], o + 2)))
  {
  }

  lemma DecodePlain(b: Buffer, o: nat, visited: set<nat>)
    requires o < |b| && 0 < b[o] < 64 && o + 1 + b[o] <= |b|
    ensures DecodeLabels(b, o, visited) ==
      WithLabel(FromBytes(b[o + 1..o + 1 + b[o]]), DecodeLabels(b, o + 1 + b[o], visited))
  {
  }

  lemma NamedLast(labels: seq<string>, rest: Result<Decoded, Failure>)
    ensures rest.Ok? && rest.value.labels == [] ==> Named(labels, rest) == Ok(Name(NameText(labels), rest.value.next))
    ensures Named([], rest) == match rest case Err(e) => Err(e) case Ok(d) => Ok(Name(NameText(d.labels), d.next))
  {
    assert labels + [] == labels;
    if rest.Ok? { assert [] + rest.value.labels == rest.value.labels; }
  }

  lemma DecodeIsNamed(b: Buffer, o: int, visited: set<nat>)
    ensures 0 <= o < |b| ==> Decode(b, o, visited) == Named([], DecodeLabels(b, o, visited))
    ensures !(0 <= o < |b|) ==> Decode(b, o, visited) == Err(OffsetOutside)
  {
    if 0 <= o < |b| { NamedLast([], DecodeLabels(b, o, visited)); }
  }

  method DecodeName(b: Buffer, start: int, visited: set<nat>) returns (r: Result<Name, Failure>)
    ensures r == Decode(b, start, visited)
    decreases Unvisited(b, visited)
  {
    hide *;
    DecodeIsNamed(b, start, visited);
    if start < 0 || start >= |b| { return Err(OffsetOutside); }
    var labels: seq<string> := [];
    var o: nat := start;
    while true
      invariant Named(labels, DecodeLabels(b, o, visited)) == Decode(b, start, visited)
      decreases |b| - o
    {
      NamedError(labels, DecodeLabels(b, o, visited));
      NamedLast(labels, DecodeLabels(b, o, visited));
      DecodeStops(b, o, visited);
      if o >= |b| { return Err(TruncatedName); }
      var length := b[o];
      if length >= 192 {
        if o + 1 >= |b| { return Err(TruncatedPointer); }
        DecodePointer(b, o, visited);
        var p := Pointer(length, b[o + 1]);
        if p >= |b| { return Err(PointerOutside); }
        if p in visited { return Err(PointerLoop); }
        VisitingShrinks(b, p, visited);
        var target := DecodeName(b, p, visited + {p});
        DecodeIsNamed(b, p, visited + {p});
        NamedLast([], DecodeLabels(b, p, visited + {p}));
        if target.Err? { return Err(target.error); }
        if target.value.text != "" {
          NamedOne(labels, target.value.text, o + 2);
          labels := labels + [target.value.text];
        }
        return Ok(Name(NameText(labels), o + 2));
      }
      if length >= 64 { return Err(BadMarker); }
      if length == 0 { return Ok(Name(NameText(labels), o + 1)); }
      if o + 1 + length > |b| { return Err(TruncatedLabel); }
      var part := FromBytes(b[o + 1..o + 1 + length]);
      DecodePlain(b, o, visited);
      NamedStep(labels, part, DecodeLabels(b, o + 1 + length, visited));
      labels := labels + [part];
      o := o + 1 + length;
    }
  }

  lemma VisitingShrinks(b: Buffer, p: nat, visited: set<nat>)
    requires p < |b| && p !in visited
    ensures Unvisited(b, visited + {p}) < Unvisited(b, visited)
  {
    assert p in Unvisited(b, visited) && p !in Unvisited(b, visited + {p});
  }

  // ---- What a name means: expanding pointers ----

  // The part list at an offset, following at most `jumps` pointers; None when it is malformed or needs more.
  function Expand(b: Buffer, o: nat, jumps: nat): Option<seq<string>>
    decreases jumps, |b| - o
  {
    if o >= |b| then None
    else
      var length := b[o];
      if length >= 192 then
        if o + 1 >= |b| || jumps == 0 then None else Expand(b, Pointer(length, b[o + 1]), jumps - 1)
      else if length >= 64 || o + 1 + length > |b| then None
      else if length == 0 then Some([])
      else match Expand(b, o + 1 + length, jumps)
        case None => None
        case Some(rest) => Some([FromBytes(b[o + 1..o + 1 + length])] + rest)
  }

  lemma {:induction false} MoreJumps(b: Buffer, o: nat, jumps: nat, more: nat)
    requires Expand(b, o, jumps).Some? && jumps <= more
    ensures Expand(b, o, more) == Expand(b, o, jumps)
    decreases jumps, |b| - o
  {
    if b[o] >= 192 { MoreJumps(b, Pointer(b[o], b[o + 1]), jumps - 1, more - 1); }
    else if b[o] > 0 { MoreJumps(b, o + 1 + b[o], jumps, more); }
  }

  // Joining a joined and lowered tail gives the same lowered text as joining everything.
  lemma {:induction false} NestedJoin(labels: seq<string>, tail: seq<string>)
    requires |tail| > 0
    ensures NameText(labels + [NameText(tail)]) == NameText(labels + tail)
  {
    var inner := NameText(tail);
    LowerTwice(Join(tail, '.'));
    if labels == [] {
      assert [] + [inner] == [inner] && [] + tail == tail;
      assert Join([inner], '.') == inner;
    } else {
      JoinConcat(labels, [inner], '.');
      JoinConcat(labels, tail, '.');
      LowerConcat(Join(labels, '.') + ['.'], inner);
      LowerConcat(Join(labels, '.') + ['.'], Join(tail, '.'));
    }
  }

  lemma EmptyText(labels: seq<string>)
    requires forall i :: 0 <= i < |labels| ==> labels[i] != []
    ensures NameText(labels) == "" <==> labels == []
  {
    if labels != [] { assert |Join(labels, '.')| >= |labels[0]|; }
  }

  lemma {:induction false} ExpandedLabelsNonEmpty(b: Buffer, o: nat, jumps: nat)
    requires Expand(b, o, jumps).Some?
    ensures forall i :: 0 <= i < |Expand(b, o, jumps).value| ==> Expand(b, o, jumps).value[i] != []
    decreases jumps, |b| - o
  {
    if b[o] >= 192 { ExpandedLabelsNonEmpty(b, Pointer(b[o], b[o + 1]), jumps - 1); }
    else if b[o] > 0 { ExpandedLabelsNonEmpty(b, o + 1 + b[o], jumps); }
  }

  // Just past the first pointer or the terminator.
  function EndOfName(b: Buffer, o: nat): nat
    decreases |b| - o
  {
    if o >= |b| then o
    else if b[o] >= 192 then o + 2
    else if b[o] == 0 || b[o] >= 64 then o + 1
    else EndOfName(b, o + 1 + b[o])
  }

  // Decoding follows the expansion: same text however the labels are grouped.
  ghost predicate MatchesBehind(d: Decoded, labels: seq<string>) {
    forall front: seq<string> :: NameText(front + d.labels) == NameText(front + labels)
  }

  lemma PointerTail(d: Decoded, labels: seq<string>)
    requires NameText(d.labels) == NameText(labels)
    requires forall i :: 0 <= i < |labels| ==> labels[i] != []
    ensures MatchesBehind(Decoded(if NameText(d.labels) == "" then [] else [NameText(d.labels)], 0), labels)
  {
    EmptyText(labels);
    forall front: seq<string>
      ensures NameText(front + (if NameText(d.labels) == "" then [] else [NameText(d.labels)])) == NameText(front + labels)
    {
      if labels != [] { NestedJoin(front, labels); }
    }
  }

  lemma LabelTail(part: string, d: Decoded, labels: seq<string>)
    requires MatchesBehind(d, labels)
    ensures MatchesBehind(Decoded([part] + d.labels, d.next), [part] + labels)
  {
    hide NameText;
    forall front: seq<string> ensures NameText(front + ([part] + d.labels)) == NameText(front + ([part] + labels)) {
      assert front + ([part] + d.labels) == front + [part] + d.labels;
      assert front + ([part] + labels) == front + [part] + labels;
    }
  }

  lemma MatchesAlone(d: Decoded, labels: seq<string>)
    requires MatchesBehind(d, labels)
    ensures NameText(d.labels) == NameText(labels)
  {
    assert [] + d.labels == d.labels && [] + labels == labels;
  }

  // Soundness: whatever is decoded is the expansion.
  lemma {:induction false} DecodedIsExpansion(b: Buffer, o: nat, visited: set<nat>, jumps: nat)
    requires DecodeLabels(b, o, visited).Ok? && jumps >= |Unvisited(b, visited)|
    ensures Expand(b, o, jumps).Some?
    ensures DecodeLabels(b, o, visited).value.next == EndOfName(b, o)
    ensures MatchesBehind(DecodeLabels(b, o, visited).value, Expand(b, o, jumps).value)
    decreases Unvisited(b, visited), |b| - o
  {
    if b[o] >= 192 {
      var p := Pointer(b[o], b[o + 1]);
      var before, after := Unvisited(b, visited), Unvisited(b, visited + {p});
      assert p in before && after == before - {p};
      DecodedIsExpansion(b, p, visited + {p}, jumps - 1);
      var d := DecodeLabels(b, p, visited + {p}).value;
      MatchesAlone(d, Expand(b, p, jumps - 1).value);
      ExpandedLabelsNonEmpty(b, p, jumps - 1);
      PointerTail(d, Expand(b, p, jumps - 1).value);
    } else if b[o] > 0 {
      DecodedIsExpansion(b, o + 1 + b[o], visited, jumps);
      LabelTail(FromBytes(b[o + 1..o + 1 + b[o]]), DecodeLabels(b, o + 1 + b[o], visited).value, Expand(b, o + 1 + b[o], jumps).value);
    }
  }

  // Fewest jumps: none suffices, or one less does not.
  predicate Least(b: Buffer, o: nat, jumps: nat) {
    Expand(b, o, jumps).Some? && (jumps == 0 || Expand(b, o, jumps - 1).None?)
  }

  lemma {:induction false} LeastExists(b: Buffer, o: nat, jumps: nat) returns (least: nat)
    requires Expand(b, o, jumps).Some?
    ensures least <= jumps && Least(b, o, least)
  {
    if jumps == 0 || Expand(b, o, jumps - 1).None? { return jumps; }
    least := LeastExists(b, o, jumps - 1);
  }

  // Completeness: a name that expands is decoded; no offset visited on the way is met again, because each
  // needs at least as many jumps as the current one.
  lemma {:induction false} ExpansionDecodes(b: Buffer, o: nat, visited: set<nat>, jumps: nat)
    requires Least(b, o, jumps)
    requires forall v :: v in visited && jumps > 0 ==> Expand(b, v, jumps - 1).None?
    ensures DecodeLabels(b, o, visited).Ok?
    decreases jumps, |b| - o
  {
    if b[o] >= 192 {
      var p := Pointer(b[o], b[o + 1]);
      if jumps > 1 {
        assert Expand(b, p, jumps - 2).None?;
        forall v | v in visited + {p} ensures Expand(b, v, jumps - 2).None? {
          if Expand(b, v, jumps - 2).Some? { MoreJumps(b, v, jumps - 2, jumps - 1); }
        }
      }
      ExpansionDecodes(b, p, visited + {p}, jumps - 1);
    } else if b[o] > 0 {
      ExpansionDecodes(b, o + 1 + b[o], visited, jumps);
    }
  }

  // Main result: decodeName succeeds exactly on the offsets whose pointer expansion ends, returns the
  // expanded name, and stops just past the first pointer or terminator.
  lemma DecodeIsExpansion(b: Buffer, o: nat)
    ensures Decode(b, o).Ok? <==> exists jumps: nat :: Expand(b, o, jumps).Some?
    ensures forall jumps: nat :: Expand(b, o, jumps).Some? ==>
      Decode(b, o) == Ok(Name(NameText(Expand(b, o, jumps).value), EndOfName(b, o)))
  {
    if Decode(b, o).Ok? { DecodedIsExpansion(b, o, {}, |Unvisited(b, {})|); }
    forall jumps: nat | Expand(b, o, jumps).Some?
      ensures Decode(b, o) == Ok(Name(NameText(Expand(b, o, jumps).value), EndOfName(b, o)))
    {
      var least := LeastExists(b, o, jumps);
      ExpansionDecodes(b, o, {}, least);
      var many := jumps + |Unvisited(b, {})|;
      DecodedIsExpansion(b, o, {}, many);
      MoreJumps(b, o, jumps, many);
      MatchesAlone(DecodeLabels(b, o, {}).value, Expand(b, o, many).value);
    }
  }

  // ---- Round trip ----

  lemma EncodeFirst(labels: seq<string>, length: nat)
    requires labels != [] && EncodeLabels(labels, length).Ok?
    ensures var rest := EncodeLabels(labels[1..], length + |labels[0]| + 1);
      && rest.Ok? && 0 < |labels[0]| < 64
      && EncodeLabels(labels, length).value == EncodeLabel(labels[0]) + rest.value
  {
  }

  lemma {:induction false} EncodedLabelsDecode(b: Buffer, o: nat, labels: seq<string>, length: nat, visited: set<nat>)
    requires EncodeLabels(labels, length).Ok? && At(b, o, EncodeLabels(labels, length).value)
    requires forall i :: 0 <= i < |labels| ==> Octets(labels[i])
    ensures DecodeLabels(b, o, visited) == Ok(Decoded(labels, o + |EncodeLabels(labels, length).value|))
    decreases |labels|
  {
    hide DecodeLabels;
    if labels == [] {
      AtByte(b, o, [0], 0);
      DecodeStops(b, o, visited);
    } else {
      hide ToBytes, FromBytes, EncodeLabel, EncodeLabels, At, WithLabel, Octets;
      var part := labels[0];
      EncodeFirst(labels, length);
      var rest := EncodeLabels(labels[1..], length + |part| + 1).value;
      AtSplit(b, o, EncodeLabel(part), rest);
      EncodedLabelReads(b, o, part);
      DecodePlain(b, o, visited);
      EncodedLabelsDecode(b, o + 1 + |part|, labels[1..], length + |part| + 1, visited);
      LabelInFront(labels, o + |EncodeLabels(labels, length).value|);
    }
  }

  lemma LabelInFront(labels: seq<string>, next: nat)
    requires labels != []
    ensures WithLabel(labels[0], Ok(Decoded(labels[1..], next))) == Ok(Decoded(labels, next))
  {
    assert [labels[0]] + labels[1..] == labels;
  }

  lemma EncodedLabelReads(b: Buffer, o: nat, part: string)
    requires |part| < 256 && At(b, o, EncodeLabel(part)) && Octets(part)
    ensures |EncodeLabel(part)| == 1 + |part| && o + 1 + |part| <= |b|
    ensures b[o] == |part| && FromBytes(b[o + 1..o + 1 + |part|]) == part
  {
    AtByte(b, o, EncodeLabel(part), 0);
    AtSplit(b, o, [|part|], ToBytes(part));
    TextRoundTrip(part);
  }

  lemma {:induction false} PartsAreOctets(s: string, sep: char)
    requires Octets(s)
    ensures forall i :: 0 <= i < |Split(s, sep)| ==> Octets(Split(s, sep)[i])
  {
    if s != [] { PartsAreOctets(s[1..], sep); }
  }

  lemma NormalizedIsOctets(name: string)
    requires Octets(name)
    ensures Octets(NormalizeName(name))
  {
  }

  // An encoded name, wherever it stands in a message, decodes to the normalized name and ends where it ends.
  lemma EncodedNameDecodes(b: Buffer, o: nat, name: string)
    requires Encode(name).Ok? && At(b, o, Encode(name).value) && Octets(name)
    ensures Decode(b, o) == Ok(Name(NormalizeName(name), o + |Encode(name).value|))
  {
    hide Split, Join;
    var normalized := NormalizeName(name);
    NormalizedIsLower(name);
    NormalizedIsOctets(name);
    if normalized == "" {
      AtByte(b, o, [0], 0);
    } else {
      var labels := Labels(normalized);
      PartsAreOctets(normalized, '.');
      EncodedLabelsDecode(b, o, labels, 1, {});
      JoinOfSplit(normalized, '.');
    }
  }

  lemma {:induction false} EncodedLabelsLength(labels: seq<string>, length: nat)
    requires EncodeLabels(labels, length).Ok? && length <= 255
    ensures 1 <= |EncodeLabels(labels, length).value| && length + |EncodeLabels(labels, length).value| <= 256
    decreases |labels|
  {
    if labels != [] { EncodedLabelsLength(labels[1..], length + |labels[0]| + 1); }
  }

  // An encoded name takes 1 to 255 octets.
  lemma EncodedNameLength(name: string)
    requires Encode(name).Ok?
    ensures 1 <= |Encode(name).value| <= 255
  {
    if NormalizeName(name) != "" { EncodedLabelsLength(Labels(NormalizeName(name)), 1); }
  }

  lemma {:induction false} JoinOfOctets(parts: seq<string>, sep: char)
    requires |parts| > 0 && sep as int < 256 && forall i :: 0 <= i < |parts| ==> Octets(parts[i])
    ensures Octets(Join(parts, sep))
  {
    if |parts| > 1 { JoinOfOctets(parts[1..], sep); }
  }

  lemma TextOfOctets(labels: seq<string>)
    requires forall i :: 0 <= i < |labels| ==> Octets(labels[i])
    ensures Octets(NameText(labels))
  {
    if labels != [] { JoinOfOctets(labels, '.'); }
  }

  lemma {:induction false} DecodedLabelsAreOctets(b: Buffer, o: nat, visited: set<nat>)
    requires DecodeLabels(b, o, visited).Ok?
    ensures var labels := DecodeLabels(b, o, visited).value.labels; forall i :: 0 <= i < |labels| ==> Octets(labels[i])
    decreases Unvisited(b, visited), |b| - o
  {
    if b[o] >= 192 {
      var p := Pointer(b[o], b[o + 1]);
      VisitingShrinks(b, p, visited);
      DecodedLabelsAreOctets(b, p, visited + {p});
      TextOfOctets(DecodeLabels(b, p, visited + {p}).value.labels);
    } else if b[o] > 0 {
      DecodedLabelsAreOctets(b, o + 1 + b[o], visited);
    }
  }

  lemma DecodedIsLower(b: Buffer, o: nat, visited: set<nat>)
    requires Decode(b, o, visited).Ok?
    ensures Lower(Decode(b, o, visited).value.text) == Decode(b, o, visited).value.text
  {
    var labels := DecodeLabels(b, o, visited).value.labels;
    if labels != [] { LowerTwice(Join(labels, '.')); }
  }

  lemma DecodedIsOctets(b: Buffer, o: nat, visited: set<nat>)
    requires Decode(b, o, visited).Ok?
    ensures Octets(Decode(b, o, visited).value.text)
  {
    DecodedLabelsAreOctets(b, o, visited);
    TextOfOctets(DecodeLabels(b, o, visited).value.labels);
  }
}

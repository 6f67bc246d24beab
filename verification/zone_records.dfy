// One printed record: what its line scans to, and what the statement parses to.
module ZoneRecords {
  import opened Wrappers
  import opened Text
  import opened Names
  import opened ZoneFiles
  import opened ZoneScan
  import opened ZoneRoundTrip

  // ---- What may be stored ----

  // Visible ASCII characters, less those a zone file gives a meaning inside a word.
  predicate Spelled(s: string) {
    forall i :: 0 <= i < |s| ==> '!' <= s[i] <= '~' && s[i] != '"' && s[i] != '(' && s[i] != ')' && s[i] != ';'
  }

  predicate FieldsEntered(f: Fields) {
    match f
    case AddressOf(_, address) => Word(address)
    case AliasOf(_, target) => Spelled(target)
    case MxOf(_, exchange) => Spelled(exchange)
    case TxtOf(_) => true
    case SrvOf(_, _, _, target) => Spelled(target)
  }

  // A record as a configuration may hold it.
  predicate Entered(isIp: string -> nat, r: Stored, zone: string) {
    Spelled(r.name) && LiesUnder(r.name, zone) && FieldsEntered(r.fields) && Accepted(isIp, r)
  }

  // ---- What comes back ----

  predicate InShort(n: int) { 0 <= n <= MAX_U16 }

  predicate FieldsPrint(f: Fields) {
    match f
    case MxOf(priority, _) => priority.Some? && InShort(priority.value)
    case SrvOf(priority, weight, _, _) => InShort(OrZero(priority)) && InShort(OrZero(weight))
    case _ => true
  }

  // With a TTL, and numbers the parser takes.
  predicate Prints(r: Stored) {
    r.ttl.Some? && FieldsPrint(r.fields)
  }

  predicate SingleLine(r: Stored) {
    r.fields.TxtOf? ==> NoNewline(r.fields.value)
  }

  // The owner is read back behind a record whose owner was `previous`. A name no more than one character longer than the
  // zone's is the zone's own, or that of the record before it. Any other has no final dot and no empty label before the
  // zone's name, and what is ahead of it is neither a lone @ nor begins like a directive.
  predicate OwnerReturns(previous: Option<string>, name: string, zone: string) {
    if |name| <= |zone| + 1 then name == zone || previous == Some(NormalizeName(name))
    else
      var last := |name| - |zone| - 2;
      name[|name| - 1] != '.' && name[last] != '.' && name[0] != '$' && !(last == 0 && name[0] == '@')
  }

  // ---- Texts ----

  function FrontWords(r: Stored, zone: string): seq<string> {
    (if RelativeName(r.name, zone) == "" then [] else [RelativeName(r.name, zone)]) + [OptionText(r.ttl), "IN", r.rtype]
  }

  // The line, less the blank that an empty owner leaves at its start.
  function CoreText(r: Stored, zone: string): string {
    Join(FrontWords(r, zone) + FieldTexts(r.fields), ' ')
  }

  function RecordStatement(r: Stored, zone: string): Statement {
    Statement(CoreText(r, zone), RelativeName(r.name, zone) == "")
  }

  lemma LineIsCore(r: Stored, zone: string)
    ensures RecordText(r, zone) == (if RelativeName(r.name, zone) == "" then [' '] else []) + CoreText(r, zone)
  {
    hide RelativeName, OptionText, FieldTexts, Join;
    var rest := [OptionText(r.ttl), "IN", r.rtype] + FieldTexts(r.fields);
    if RelativeName(r.name, zone) == "" {
      assert [RelativeName(r.name, zone), OptionText(r.ttl), "IN", r.rtype] + FieldTexts(r.fields) == [""] + rest;
      assert FrontWords(r, zone) + FieldTexts(r.fields) == rest;
      JoinBehindNothing(rest);
    } else {
      assert [RelativeName(r.name, zone), OptionText(r.ttl), "IN", r.rtype] == FrontWords(r, zone);
      assert [] + CoreText(r, zone) == CoreText(r, zone);
    }
  }

  lemma JoinBehindNothing(words: seq<string>)
    requires words != []
    ensures Join([""] + words, ' ') == [' '] + Join(words, ' ')
  {
    assert ([""] + words)[1..] == words;
  }

  // ---- Words ----

  lemma SpelledWord(s: string)
    requires Spelled(s) && s != []
    ensures Word(s)
  {
  }

  lemma LowerSpelled(s: string)
    requires Spelled(s)
    ensures Spelled(NormalizeName(s))
  {
  }

  lemma TargetReads(target: string, origin: string)
    requires Spelled(target)
    ensures Word(AbsoluteName(target)) && TargetName(AbsoluteName(target), origin) == Ok(NormalizeName(target))
  {
    hide Word, Lower;
    var n := NormalizeName(target);
    var text := AbsoluteName(target);
    LowerSpelled(target);
    NormalizedIsLower(target);
    assert text[..|text| - 1] == n;
    assert Spelled(text);
    SpelledWord(text);
    if n == "" { LowerOfEmpty(); }
  }

  lemma IntWord(n: int)
    ensures Word(IntText(n)) && (n < 0 ==> !IsNumeral(IntText(n), Decimal))
  {
    hide Word, Dec, IsNumeral;
    if n < 0 {
      DecWord(-n);
      MinusWord(Dec(-n));
      NotNumeral(['-'] + Dec(-n));
    } else {
      DecWord(n);
    }
  }

  lemma MinusWord(s: string)
    requires Word(s)
    ensures Word(['-'] + s)
  {
    var t := ['-'] + s;
    forall i | 0 <= i < |t| ensures PlainChar(t[i]) && !Space(t[i]) {
      if i > 0 { assert t[i] == s[i - 1]; }
    }
  }

  lemma UndefinedWord()
    ensures Word("undefined") && Upper("undefined") == "UNDEFINED"
    ensures !IsNumeral("undefined", Decimal) && !IsNumeral("UNDEFINED", Decimal)
  {
    hide IsNumeral;
    NotNumeral("undefined");
    NotNumeral("UNDEFINED");
  }

  lemma OptionWord(n: Option<int>)
    ensures Word(OptionText(n)) && OptionText(n)[0] != '$'
  {
    hide Word, IntText;
    UndefinedWord();
    if n.Some? {
      IntWord(n.value);
      IntStarts(n.value);
    }
  }

  lemma IntStarts(n: int)
    ensures IntText(n) != [] && IntText(n)[0] != '$'
  {
    hide Dec;
    if n >= 0 { DecStarts(n); }
  }

  lemma DecStarts(n: nat)
    ensures Dec(n) != [] && Dec(n)[0] != '$'
  {
    NumeralRoundTrip(n, Decimal);
    assert DigitValue(Dec(n)[0]).Some?;
  }

  lemma IntegerExactly(n: int, min: nat, max: nat)
    ensures Integer(IntText(n), min, max).Ok? <==> min <= n <= max
    ensures min <= n <= max ==> Integer(IntText(n), min, max) == Ok(n)
  {
    hide Dec, IsNumeral, Value, Word;
    IntWord(n);
    if n >= 0 { DecWord(n); }
  }

  lemma TypeIsWord(f: Fields)
    ensures Word(TypeOf(f)) && Upper(TypeOf(f)) == TypeOf(f) && !IsNumeral(TypeOf(f), Decimal)
    ensures TypeOf(f) != "IN" && TypeOf(f) != "SOA"
  {
    hide Word, Upper, IsNumeral;
    NotNumeral(TypeOf(f));
    CapitalsAreWord(TypeOf(f));
  }

  lemma FieldWords(f: Fields, i: nat)
    requires FieldsEntered(f) && !f.TxtOf? && i < |FieldTexts(f)|
    ensures Word(FieldTexts(f)[i])
  {
    hide Word, AbsoluteName, Spelled, Dec, IntText, OptionText;
    match f {
      case AddressOf(_, _) =>
      case AliasOf(_, target) => TargetReads(target, "");
      case MxOf(priority, exchange) =>
        OptionWord(priority);
        TargetReads(exchange, "");
      case SrvOf(priority, weight, port, target) =>
        IntWord(OrZero(priority));
        IntWord(OrZero(weight));
        DecWord(port);
        TargetReads(target, "");
    }
  }

  lemma OwnerWord(name: string, zone: string)
    requires Spelled(name) && RelativeName(name, zone) != ""
    ensures Word(RelativeName(name, zone))
  {
    CapitalAt();
    if name != zone { SpelledWord(RelativeName(name, zone)); }
  }

  lemma FrontIsWords(r: Stored, zone: string, i: nat)
    requires Spelled(r.name) && r.rtype == TypeOf(r.fields) && i < |FrontWords(r, zone)|
    ensures Word(FrontWords(r, zone)[i])
  {
    hide Word, RelativeName, OptionText, TypeOf, Spelled;
    OptionWord(r.ttl);
    TypeIsWord(r.fields);
    ClassIsWord();
    if RelativeName(r.name, zone) != "" { OwnerWord(r.name, zone); }
  }

  // ---- Scanning the line ----

  // The scanner at the first word of a line, behind the blank of an empty owner.
  function LineStart(done: seq<Statement>, blank: bool): Scan {
    if blank then ScanStart(done).(text := " ", leading := true) else ScanStart(done)
  }

  lemma BlankScans(done: seq<Statement>)
    ensures ScanText(ScanStart(done), [' ']) == Ok(LineStart(done, true))
  {
    ScanOne(ScanStart(done), ' ');
    assert "" + [' '] == " ";
  }

  // Words, and at the end perhaps a quoted text.
  lemma WordsScan(s: Scan, words: seq<string>, quoted: Option<string>)
    requires !s.quoted && !s.escaped && !s.comment && !s.started
    requires words != [] && forall i :: 0 <= i < |words| ==> Word(words[i])
    requires quoted.Some? ==> NoNewline(quoted.value)
    ensures var core := Join(words + (if quoted.Some? then [QuotedText(quoted.value)] else []), ' ');
      && core != [] && !Space(core[0]) && !Space(core[|core| - 1])
      && ScanText(s, core) == Ok(s.(text := s.text + core, started := true))
  {
    hide Join, Word, ScanText, QuotedText;
    var j := Join(words, ' ');
    JoinOfWords(words);
    if quoted.None? {
      assert words + [] == words;
      ScanFirstBehind(s, j);
    } else {
      var q := QuotedText(quoted.value);
      JoinConcat(words, [q], ' ');
      JoinOfOne(q);
      QuotedEnds(quoted.value);
      var front := j + [' '];
      ScanConcat(s, front, q);
      ScanFirstBehind(s, front);
      ScanQuoted(s.(text := s.text + front, started := true), quoted.value);
      assert s.text + front + q == s.text + (front + q);
    }
  }

  lemma QuotedEnds(value: string)
    ensures var q := QuotedText(value); q != [] && q[|q| - 1] == '"' && !Space('"')
  {
  }

  lemma LineEnds(done: seq<Statement>, blank: bool, core: string)
    requires core != [] && !Space(core[0]) && !Space(core[|core| - 1])
    ensures var s := LineStart(done, blank);
      ScanText(s.(text := s.text + core, started := true), ['\n']) == Ok(ScanStart(done + [Statement(core, blank)]))
  {
    var s := LineStart(done, blank);
    var t := s.(text := s.text + core, started := true);
    ScanOne(t, '\n');
    TrimsTo(s.text, core, []);
    assert core + [] == core && s.text + (core + []) == s.text + core;
  }

  // Blanks in front and behind are trimmed.
  lemma TrimsTo(blank: string, core: string, tail: string)
    requires Blank(blank) && Blank(tail) && core != [] && !Space(core[0]) && !Space(core[|core| - 1])
    ensures Trim(blank + (core + tail)) == core
  {
    TrimsLeft(blank, core + tail);
    TrimCore(core, tail);
    assert TrimLeft(core + tail) == core + tail;
  }

  lemma {:induction false} TrimsLeft(blank: string, core: string)
    requires Blank(blank) && core != [] && !Space(core[0])
    ensures TrimLeft(blank + core) == core
  {
    if blank == [] {
      assert blank + core == core;
    } else {
      assert (blank + core)[1..] == blank[1..] + core;
      TrimsLeft(blank[1..], core);
    }
  }

  function QuotedPart(f: Fields): Option<string> {
    if f.TxtOf? then Some(f.value) else None
  }

  function PlainPart(f: Fields): seq<string> {
    if f.TxtOf? then [] else FieldTexts(f)
  }

  lemma CoreIsPieces(r: Stored, zone: string)
    ensures var words := FrontWords(r, zone) + PlainPart(r.fields); var quoted := QuotedPart(r.fields);
      CoreText(r, zone) == Join(words + (if quoted.Some? then [QuotedText(quoted.value)] else []), ' ')
  {
    hide FrontWords, Join;
    assert FrontWords(r, zone) + [] == FrontWords(r, zone);
    var plain := FrontWords(r, zone) + PlainPart(r.fields);
    assert plain + [] == plain;
  }

  lemma PiecesAreWords(r: Stored, zone: string, i: nat)
    requires Spelled(r.name) && FieldsEntered(r.fields) && r.rtype == TypeOf(r.fields)
    requires i < |FrontWords(r, zone) + PlainPart(r.fields)|
    ensures Word((FrontWords(r, zone) + PlainPart(r.fields))[i])
  {
    hide Word, FieldTexts, Spelled, FieldsEntered, TypeOf;
    var n := |FrontWords(r, zone)|;
    if i < n { FrontIsWords(r, zone, i); } else { FieldWords(r.fields, i - n); }
  }

  // A record's line scans to its statement.
  lemma RecordScans(done: seq<Statement>, r: Stored, zone: string)
    requires Spelled(r.name) && FieldsEntered(r.fields) && r.rtype == TypeOf(r.fields) && SingleLine(r)
    ensures ScanText(ScanStart(done), RecordText(r, zone) + ['\n']) == Ok(ScanStart(done + [RecordStatement(r, zone)]))
  {
    hide ScanText, Join, Word, FieldTexts, RelativeName, Spelled, FieldsEntered, TypeOf, NoNewline, FrontWords, PlainPart, RecordText, CoreText;
    var blank := RelativeName(r.name, zone) == "";
    var core := CoreText(r, zone);
    var words := FrontWords(r, zone) + PlainPart(r.fields);
    var s := LineStart(done, blank);
    LineIsCore(r, zone);
    CoreIsPieces(r, zone);
    forall i | 0 <= i < |words| ensures Word(words[i]) { PiecesAreWords(r, zone, i); }
    FrontNotEmpty(r, zone);
    WordsScan(s, words, QuotedPart(r.fields));
    LineEnds(done, blank, core);
    ScanConcat(s, core, ['\n']);
    if blank {
      BlankScans(done);
      ScanConcat(ScanStart(done), [' '], core + ['\n']);
      assert RecordText(r, zone) + ['\n'] == [' '] + (core + ['\n']);
    } else {
      assert [] + core == core;
    }
  }

  lemma FrontNotEmpty(r: Stored, zone: string)
    ensures |FrontWords(r, zone)| >= 3
  {
  }

  // ---- Tokens ----

  function FieldValues(f: Fields): seq<string> {
    if f.TxtOf? then [f.value] else FieldTexts(f)
  }

  lemma RecordTokenizes(r: Stored, zone: string)
    requires Spelled(r.name) && FieldsEntered(r.fields) && r.rtype == TypeOf(r.fields)
    ensures Tokenize(CoreText(r, zone)) == Ok(FrontWords(r, zone) + FieldValues(r.fields))
  {
    hide Word, Reads, Tokenize, FrontWords, Spelled, TypeOf;
    var front := FrontWords(r, zone);
    var texts, values := front + FieldTexts(r.fields), front + FieldValues(r.fields);
    FrontNotEmpty(r, zone);
    forall i | 0 <= i < |front| ensures Reads(front[i], front[i]) {
      FrontIsWords(r, zone, i);
      WordReads(front[i]);
    }
    if r.fields.TxtOf? {
      QuotedReads(r.fields.value);
    } else {
      forall i | 0 <= i < |FieldTexts(r.fields)| ensures Reads(FieldTexts(r.fields)[i], FieldTexts(r.fields)[i]) {
        FieldWords(r.fields, i);
        WordReads(FieldTexts(r.fields)[i]);
      }
    }
    assert AllRead(texts, values);
    JoinTokenizes(texts, values);
  }

  // ---- Parsing ----

  lemma FieldsParse(f: Fields, origin: string)
    requires FieldsEntered(f) && (f.SrvOf? ==> 1 <= f.port <= MAX_U16)
    ensures RecordData(TypeOf(f), FieldValues(f), origin).Ok? <==> FieldsPrint(f)
    ensures FieldsPrint(f) ==> RecordData(TypeOf(f), FieldValues(f), origin) == Ok(NormalData(f))
  {
    hide Integer, TargetName, IntText, AbsoluteName, Spelled, NormalizeName;
    match f {
      case AddressOf(_, _) =>
      case AliasOf(_, target) => TargetReads(target, origin);
      case MxOf(priority, exchange) =>
        TargetReads(exchange, origin);
        OptionParses(priority, 0, MAX_U16);
      case TxtOf(value) => assert Join([value], ' ') == value;
      case SrvOf(priority, weight, port, target) =>
        IntegerExactly(OrZero(priority), 0, MAX_U16);
        IntegerExactly(OrZero(weight), 0, MAX_U16);
        IntegerExactly(port, 1, MAX_U16);
        IntOfNat(port);
        TargetReads(target, origin);
    }
  }

  lemma IntOfNat(n: nat)
    ensures IntText(n) == Dec(n)
  {
  }

  lemma OptionParses(n: Option<int>, min: nat, max: nat)
    ensures Integer(OptionText(n), min, max).Ok? <==> n.Some? && min <= n.value <= max
    ensures n.Some? && min <= n.value <= max ==> Integer(OptionText(n), min, max) == Ok(n.value)
  {
    hide IntText;
    if n.Some? { IntegerExactly(n.value, min, max); } else { UndefinedWord(); }
  }

  // A statement without a TTL takes the text printed in its place for a type.
  lemma MissingTtl(s: State, zone: string, owner: string, rest: seq<string>)
    ensures Resource(s, zone, owner, ["undefined", "IN"] + rest).Err?
  {
    UndefinedWord();
    var tokens := ["undefined", "IN"] + rest;
    assert TtlAndClass(tokens, s.defaultTtl) == Ok((tokens, s.defaultTtl));
    assert Upper(tokens[0]) == "UNDEFINED";
  }

  // The resource behind a printed owner.
  lemma ResourceReads(s: State, r: Stored, zone: string, owner: string)
    requires FieldsEntered(r.fields) && r.rtype == TypeOf(r.fields) && s.origin == zone
    requires (r.fields.SrvOf? ==> 1 <= r.fields.port <= MAX_U16) && (r.ttl.Some? ==> r.ttl.value <= MAX_TTL)
    ensures var p := Resource(s, zone, owner, [OptionText(r.ttl), "IN", r.rtype] + FieldValues(r.fields));
      && (p.Ok? <==> Prints(r))
      && (p.Ok? ==>
            p.value == s.(owner := Some(owner), records := s.records + [Record(owner, r.ttl.value, NormalData(r.fields), true)]))
  {
    hide RecordData, FieldValues, TypeOf, Dec, FieldsPrint, FieldsEntered, NormalData;
    var rest := [r.rtype] + FieldValues(r.fields);
    assert [OptionText(r.ttl), "IN", r.rtype] + FieldValues(r.fields) == [OptionText(r.ttl), "IN"] + rest;
    if r.ttl.None? {
      MissingTtl(s, zone, owner, rest);
    } else {
      TypeIsWord(r.fields);
      IntOfNat(r.ttl.value);
      TtlAndClassRead(r.ttl.value, rest, s.defaultTtl);
      assert rest[1..] == FieldValues(r.fields);
      FieldsParse(r.fields, zone);
    }
  }

  // The owner a printed record is read back with.
  function ReadOwner(previous: Option<string>, name: string, zone: string): Result<string, Failure> {
    var text := RelativeName(name, zone);
    if text == "" then (if previous.None? then Err(NoPreviousOwner) else Ok(previous.value))
    else if text[0] == '$' then Err(BadDirective)
    else OwnerName(text, zone, zone)
  }

  // A printed record parses exactly when its owner can be read and it prints; it keeps everything but perhaps its owner,
  // and is enabled.
  lemma StatementReads(s: State, isIp: string -> nat, r: Stored, zone: string)
    requires Entered(isIp, r, zone) && r.rtype == TypeOf(r.fields) && s.origin == zone && zone != ""
    ensures var p := ParseStatement(s, zone, RecordStatement(r, zone)); var owner := ReadOwner(s.owner, r.name, zone);
      && (p.Ok? <==> owner.Ok? && Prints(r))
      && (p.Ok? ==>
            p.value == s.(owner := Some(owner.value), records := s.records + [Record(owner.value, r.ttl.value, NormalData(r.fields), true)]))
  {
    hide Tokenize, CoreText, FieldValues, TypeOf, OptionText, RelativeName, Spelled, FieldsEntered, NormalizeName, Resource, Prints,
      NormalData, OwnerName, Upper, Directive;
    var owner := ReadOwner(s.owner, r.name, zone);
    var text := RelativeName(r.name, zone);
    var tokens := FrontWords(r, zone) + FieldValues(r.fields);
    var rest := [OptionText(r.ttl), "IN", r.rtype] + FieldValues(r.fields);
    RecordTokenizes(r, zone);
    OptionWord(r.ttl);
    AcceptedBounds(isIp, r);
    if text == "" {
      assert tokens == rest;
      OptionNotEmpty(r.ttl);
    } else {
      assert tokens[0] == text && tokens[1..] == rest;
      if text[0] == '$' {
        NoSuchDirective(s, zone, tokens);
      } else if owner.Ok? {
        OwnerNotEmpty(text, zone);
      }
    }
    if owner.Ok? { ResourceReads(s, r, zone, owner.value); }
  }

  lemma NoSuchDirective(s: State, zone: string, tokens: seq<string>)
    requires |tokens| > 2
    ensures Directive(s, zone, tokens).Err?
  {
  }

  lemma OptionNotEmpty(n: Option<int>)
    ensures OptionText(n) != ""
  {
    hide Word;
    OptionWord(n);
  }

  lemma OwnerNotEmpty(text: string, zone: string)
    requires OwnerName(text, zone, zone).Ok? && zone != ""
    ensures OwnerName(text, zone, zone).value != ""
  {
    UnderByIndex(AbsoluteForm(text, zone), zone);
  }

  lemma AcceptedBounds(isIp: string -> nat, r: Stored)
    requires Accepted(isIp, r)
    ensures (r.fields.SrvOf? ==> 1 <= r.fields.port <= MAX_U16) && (r.ttl.Some? ==> r.ttl.value <= MAX_TTL)
  {
    hide Upper;
  }

  // ---- When the owner comes back ----

  lemma DotsStay(s: string)
    ensures forall i :: 0 <= i < |s| ==> (Lower(s)[i] == '.' <==> s[i] == '.')
  {
  }

  lemma NormalizedWithoutDot(name: string)
    requires name != "" && name[|name| - 1] != '.'
    ensures NormalizeName(name) == Lower(name) && NormalizeName(Lower(name)) == Lower(name)
  {
    hide Lower;
    DotsStay(name);
    LowerTwice(name);
  }

  lemma NormalizedWithDot(name: string)
    requires name != "" && name[|name| - 1] == '.'
    ensures NormalizeName(name) == Lower(name[..|name| - 1])
  {
    if name == "." { assert Lower(name[..0]) == ""; }
  }

  lemma UnderEndsLikeZone(name: string, zone: string)
    requires Under(name, zone) && zone != "" && zone[|zone| - 1] != '.'
    ensures name != "" && name[|name| - 1] != '.' && |name| >= |zone|
  {
    UnderByIndex(name, zone);
    assert name[|name| - |zone|..][|zone| - 1] == zone[|zone| - 1];
  }

  // Below the apex, as the zone file means it.
  lemma PlainOwnerReads(previous: Option<string>, name: string, zone: string)
    requires Spelled(name) && LiesUnder(name, zone) && ZoneOk(zone) && zone != ""
    requires |name| > |zone| + 1 && OwnerReturns(previous, name, zone)
    ensures ReadOwner(previous, name, zone) == Ok(NormalizeName(name))
  {
    hide ZoneOk, Lower, EndsWith;
    ZoneShape(zone);
    NormalizedWithoutDot(name);
    var n := NormalizeName(name);
    UnderByIndex(n, zone);
    OwnerSplits(name, zone);
    var text := RelativeName(name, zone);
    NormalizedWithoutDot(text + ['.'] + zone);
    LowerConcat(text + ['.'], zone);
    LowerConcat(text, ['.']);
    LowerOfDot();
  }

  lemma OwnerSplits(name: string, zone: string)
    requires |name| > |zone| + 1 && Under(Lower(name), zone)
    ensures RelativeName(name, zone) == name[..|name| - |zone| - 1]
    ensures Lower(name) == Lower(RelativeName(name, zone)) + ['.'] + zone
  {
    hide Lower, Under, EndsWith;
    var n := Lower(name);
    var k := |name| - |zone| - 1;
    UnderByIndex(n, zone);
    LowerPrefix(name, k);
    assert n == n[..k] + [n[k]] + n[k + 1..];
  }

  lemma LowerPrefix(s: string, k: nat)
    requires k <= |s|
    ensures Lower(s[..k]) == Lower(s)[..k]
  {
  }

  lemma ZoneShape(zone: string)
    requires ZoneOk(zone) && zone != ""
    ensures Lower(zone) == zone && zone[|zone| - 1] != '.' && NormalizeName(zone) == zone
  {
    NormalIsLower(zone);
  }

  // With a final dot, or an empty label before the zone: what is read is shorter, or does not end in a dot.
  lemma DottedOwnerChanges(previous: Option<string>, name: string, zone: string)
    requires LiesUnder(name, zone) && ZoneOk(zone) && zone != ""
    requires |name| > |zone| + 1 && (name[|name| - 1] == '.' || name[|name| - |zone| - 2] == '.')
    ensures ReadOwner(previous, name, zone) != Ok(NormalizeName(name))
  {
    hide ZoneOk, Lower, OwnerName, RelativeName;
    ZoneShape(zone);
    var n := NormalizeName(name);
    var text := RelativeName(name, zone);
    RelativeIsFront(name, zone);
    if n[|n| - 1] == '.' {
      if ReadOwner(previous, name, zone).Ok? && text[0] != '$' { OwnerNameEnds(text, zone); }
    } else {
      FrontEndsInDot(name, zone);
      OwnerNameShrinks(text, zone);
    }
  }

  lemma RelativeIsFront(name: string, zone: string)
    requires |name| > |zone| + 1
    ensures RelativeName(name, zone) == name[..|name| - |zone| - 1] && |NormalizeName(name)| + 1 >= |name|
  {
  }

  lemma OwnerNameEnds(text: string, zone: string)
    requires OwnerName(text, zone, zone).Ok? && zone != "" && zone[|zone| - 1] != '.'
    ensures var owner := OwnerName(text, zone, zone).value; owner != "" && owner[|owner| - 1] != '.'
  {
    UnderEndsLikeZone(AbsoluteForm(text, zone), zone);
  }

  lemma FrontEndsInDot(name: string, zone: string)
    requires LiesUnder(name, zone) && zone != "" && |name| > |zone| + 1
    requires name[|name| - 1] == '.' || name[|name| - |zone| - 2] == '.'
    requires var n := NormalizeName(name); n != "" && n[|n| - 1] != '.'
    ensures name[|name| - |zone| - 2] == '.' && |NormalizeName(name)| >= |name| - |zone| - 1
  {
    hide Lower, Under;
    if name[|name| - 1] == '.' {
      var front := name[..|name| - 1];
      var n := Lower(front);
      NormalizedWithDot(name);
      DotsStay(front);
      NormalizedWithoutDot(front);
      UnderByIndex(n, zone);
      assert n[|n| - |zone| - 1] == '.';
      assert front[|n| - |zone| - 1] == '.';
    }
  }

  lemma OwnerNameShrinks(text: string, zone: string)
    requires text != "" && text[|text| - 1] == '.'
    ensures OwnerName(text, zone, zone).Ok? ==> |OwnerName(text, zone, zone).value| < |text|
  {
  }

  // A lone @ names the zone, which the name is not.
  lemma AtIsZone(name: string, zone: string)
    requires LiesUnder(name, zone) && zone != "" && |name| == |zone| + 2 && name[0] == '@'
    ensures OwnerName("@", zone, zone) == Ok(zone) && NormalizeName(name) != zone
  {
    assert |NormalizeName(name)| >= |name| - 1;
  }

  // Main result on owners: a stored name is read back normalized exactly when OwnerReturns says so.
  lemma OwnerReadsExactly(previous: Option<string>, name: string, zone: string)
    requires Spelled(name) && LiesUnder(name, zone) && ZoneOk(zone) && zone != ""
    ensures ReadOwner(previous, name, zone) == Ok(NormalizeName(name)) <==> OwnerReturns(previous, name, zone)
  {
    hide ZoneOk, Lower, OwnerName, NormalizeName;
    ZoneShape(zone);
    if name == zone {
      ApexReads(zone);
    } else if |name| > |zone| + 1 {
      var last := |name| - |zone| - 2;
      RelativeIsFront(name, zone);
      if OwnerReturns(previous, name, zone) {
        PlainOwnerReads(previous, name, zone);
      } else if name[|name| - 1] == '.' || name[last] == '.' {
        DottedOwnerChanges(previous, name, zone);
      } else if name[0] == '@' {
        assert name[..1] == "@";
        AtIsZone(name, zone);
      }
    }
  }

  lemma ApexReads(zone: string)
    requires zone != ""
    ensures RelativeName(zone, zone) == "@" && OwnerName("@", zone, zone) == Ok(zone)
  {
  }
}

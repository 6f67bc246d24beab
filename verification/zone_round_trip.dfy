// Printing a zone and parsing the text gives the zone back.
module ZoneRoundTrip {
  import opened Wrappers
  import opened Text
  import opened Names
  import opened ZoneFiles
  import opened ZoneScan

  // ---- What may be printed ----

  predicate Ordinary(s: string) {
    forall i :: 0 <= i < |s| ==>
      'a' <= s[i] <= 'z' || '0' <= s[i] <= '9' || s[i] == '-' || s[i] == '_' || s[i] == '*' || s[i] == '.'
  }

  predicate TargetOk(name: string) {
    Ordinary(name) && Normal(name)
  }

  predicate ZoneOk(zone: string) {
    Ordinary(zone) && Normal(zone) && NormalizeDomainName(zone) == Ok(zone)
  }

  predicate SoaOk(soa: Soa) {
    && TargetOk(soa.mname) && TargetOk(soa.rname) && soa.serial <= MAX_U32 && soa.refresh <= MAX_U32
    && soa.retry <= MAX_U32 && soa.expire <= MAX_U32 && soa.minimum <= MAX_U32
  }

  // ---- Words ----

  lemma OrdinaryWord(s: string)
    requires Ordinary(s) && s != []
    ensures Word(s)
  {
  }

  predicate Capitals(s: string) {
    forall i :: 0 <= i < |s| ==> 'A' <= s[i] <= 'Z' || '0' <= s[i] <= '9'
  }

  lemma CapitalsAreWord(s: string)
    requires s != [] && Capitals(s)
    ensures Word(s) && Upper(s) == s
  {
  }

  lemma DigitsAreCapitals(s: string)
    requires AllDigits(s, Decimal)
    ensures Capitals(s)
  {
    forall i | 0 <= i < |s| ensures '0' <= s[i] <= '9' { assert DigitValue(s[i]).Some?; }
  }

  lemma DecWord(n: nat)
    ensures Word(Dec(n)) && IsNumeral(Dec(n), Decimal) && Value(Dec(n), Decimal) == n && Upper(Dec(n)) == Dec(n)
  {
    hide Word, Upper, Numeral, Value, AllDigits, Capitals;
    NumeralRoundTrip(n, Decimal);
    DigitsAreCapitals(Dec(n));
    CapitalsAreWord(Dec(n));
  }

  lemma IntegerReads(n: nat, min: nat, max: nat)
    requires min <= n <= max
    ensures Integer(Dec(n), min, max) == Ok(n)
  {
    DecWord(n);
  }

  lemma AbsoluteReads(name: string, origin: string)
    requires TargetOk(name)
    ensures Word(AbsoluteName(name)) && TargetName(AbsoluteName(name), origin) == Ok(name)
  {
    var text := AbsoluteName(name);
    assert text == name + ['.'];
    assert text[..|text| - 1] == name;
    OrdinaryWord(text);
    NormalIsLower(name);
    assert NormalizeName(text) == name;
  }

  lemma CapitalAt()
    ensures Word("@")
  {
  }

  lemma {:induction false} JoinOfWords(words: seq<string>)
    requires words != [] && forall i :: 0 <= i < |words| ==> Word(words[i])
    ensures var s := Join(words, ' '); s != [] && Plain(s) && !Space(s[0]) && !Space(s[|s| - 1])
  {
    if |words| > 1 { JoinOfWords(words[1..]); }
  }

  // ---- One-line statements ----

  ghost predicate LineGives(line: string, text: string) {
    forall done: seq<Statement> ::
      ScanText(ScanStart(done), line + ['\n']) == Ok(ScanStart(done + [Statement(text, false)]))
  }

  lemma EndOfLine(done: seq<Statement>, line: string)
    requires line != [] && !Space(line[0]) && !Space(line[|line| - 1])
    ensures ScanText(ScanStart(done).(text := line, started := true), ['\n']) == Ok(ScanStart(done + [Statement(line, false)]))
  {
    var s := ScanStart(done).(text := line, started := true);
    ScanOne(s, '\n');
    assert line + [] == line;
    TrimCore(line, []);
  }

  lemma PlainLine(words: seq<string>)
    requires words != [] && forall i :: 0 <= i < |words| ==> Word(words[i])
    ensures LineGives(Join(words, ' '), Join(words, ' '))
  {
    var line := Join(words, ' ');
    JoinOfWords(words);
    forall done: seq<Statement>
      ensures ScanText(ScanStart(done), line + ['\n']) == Ok(ScanStart(done + [Statement(line, false)]))
    {
      ScanConcat(ScanStart(done), line, ['\n']);
      ScanFirst(done, line);
      EndOfLine(done, line);
    }
  }

  lemma JoinOfOne(s: string)
    ensures Join([s], ' ') == s
  {
  }

  // ---- Behind the owner ----

  lemma NotNumeral(s: string)
    requires s != [] && !('0' <= s[0] <= '9')
    ensures !IsNumeral(s, Decimal)
  {
    assert DigitValue(s[0]).None? || DigitValue(s[0]).value >= 10;
  }

  lemma ClassIsWord()
    ensures Word("IN") && Upper("IN") == "IN" && !IsNumeral("IN", Decimal)
  {
    hide Word, Upper, IsNumeral;
    NotNumeral("IN");
    CapitalsAreWord("IN");
  }

  lemma TtlAndClassRead(ttl: nat, rest: seq<string>, default: nat)
    requires ttl <= MAX_TTL && rest != [] && Upper(rest[0]) != "IN" && !IsNumeral(Upper(rest[0]), Decimal)
    ensures TtlAndClass([Dec(ttl), "IN"] + rest, default) == Ok((rest, ttl))
  {
    var tokens := [Dec(ttl), "IN"] + rest;
    DecWord(ttl);
    IntegerReads(ttl, 0, MAX_TTL);
    ClassIsWord();
    assert tokens[1..] == ["IN"] + rest && tokens[1..][1..] == rest;
    assert TtlAndClass(rest, ttl) == Ok((rest, ttl));
    assert TtlAndClass(tokens[1..], ttl) == TtlAndClass(tokens[1..][1..], ttl);
  }

  // ---- The SOA block ----

  function SoaWords(ttl: nat, soa: Soa): seq<string> {
    ["@", Dec(ttl), "IN", "SOA", AbsoluteName(soa.mname), AbsoluteName(soa.rname)]
  }

  // One number behind its two blanks, then the separator that ended its line.
  function Number(n: nat, end: char): string {
    [' ', ' '] + Dec(n) + [end]
  }

  function NumberLines(soa: Soa): string {
    Number(soa.serial, '\n') + (Number(soa.refresh, '\n') + (Number(soa.retry, '\n')
      + (Number(soa.expire, '\n') + Number(soa.minimum, '\n'))))
  }

  function NumbersText(soa: Soa): string {
    Number(soa.serial, ' ') + (Number(soa.refresh, ' ') + (Number(soa.retry, ' ')
      + (Number(soa.expire, ' ') + ([' ', ' '] + Dec(soa.minimum)))))
  }

  // The statement the lines make: parentheses and line feeds become blanks.
  function SoaText(ttl: nat, soa: Soa): string {
    Join(SoaWords(ttl, soa), ' ') + [' ', ' ', ' '] + NumbersText(soa)
  }

  lemma SoaWordsOk(ttl: nat, soa: Soa, i: nat)
    requires SoaOk(soa) && i < 6
    ensures Word(SoaWords(ttl, soa)[i])
  {
    hide Word, AbsoluteName, Dec, TargetOk, Normal;
    DecWord(ttl);
    CapitalAt();
    CapitalsAreWord("IN");
    CapitalsAreWord("SOA");
    AbsoluteReads(soa.mname, "");
    AbsoluteReads(soa.rname, "");
  }

  // Inside parentheses a line feed is a blank.
  lemma NumberLine(s: Scan, n: nat)
    requires Open(s) && s.depth == 1
    ensures ScanText(s, Number(n, '\n')) == Ok(s.(text := s.text + Number(n, ' ')))
  {
    DecWord(n);
    var line := [' ', ' '] + Dec(n);
    ScanConcat(s, line, ['\n']);
    ScanPlain(s, line);
    ScanOne(s.(text := s.text + line), '\n');
    assert s.text + line + [' '] == s.text + Number(n, ' ');
  }

  lemma CloseLine(done: seq<Statement>, core: string, tail: string)
    requires core != [] && !Space(core[0]) && !Space(core[|core| - 1]) && Blank(tail)
    ensures ScanText(ScanStart(done).(text := core + tail, started := true, depth := 1), [')', '\n'])
      == Ok(ScanStart(done + [Statement(core, false)]))
  {
    var s := ScanStart(done).(text := core + tail, started := true, depth := 1);
    var t := s.(text := s.text + [' '], depth := 0);
    assert [')', '\n'] == [')'] + ['\n'];
    ScanConcat(s, [')'], ['\n']);
    ScanOne(s, ')');
    ScanOne(t, '\n');
    assert t.text == core + (tail + [' ']);
    TrimCore(core, tail + [' ']);
  }

  lemma NumbersScan(s: Scan, soa: Soa)
    requires Open(s) && s.depth == 1
    ensures ScanText(s, NumberLines(soa)) == Ok(s.(text := s.text + NumbersText(soa) + [' ']))
  {
    hide ScanText, Number;
    var a, b, c, d, e := Number(soa.serial, ' '), Number(soa.refresh, ' '), Number(soa.retry, ' '), Number(soa.expire, ' '),
      Number(soa.minimum, ' ');
    var s1 := s.(text := s.text + a);
    var s2 := s1.(text := s1.text + b);
    var s3 := s2.(text := s2.text + c);
    var s4 := s3.(text := s3.text + d);
    NumberLine(s, soa.serial);
    NumberLine(s1, soa.refresh);
    NumberLine(s2, soa.retry);
    NumberLine(s3, soa.expire);
    NumberLine(s4, soa.minimum);
    var l2, l3, l4, l5 := Number(soa.refresh, '\n'), Number(soa.retry, '\n'), Number(soa.expire, '\n'), Number(soa.minimum, '\n');
    ScanConcat(s, Number(soa.serial, '\n'), l2 + (l3 + (l4 + l5)));
    ScanConcat(s1, l2, l3 + (l4 + l5));
    ScanConcat(s2, l3, l4 + l5);
    ScanConcat(s3, l4, l5);
    LastNumber(soa.minimum);
    assert s.text + a + b + c + d + e == s.text + NumbersText(soa) + [' '];
  }

  lemma LastNumber(n: nat)
    ensures Number(n, ' ') == [' ', ' '] + Dec(n) + [' ']
  {
  }

  lemma NumbersEnd(soa: Soa)
    ensures var s := NumbersText(soa); s != [] && !Space(s[|s| - 1])
  {
    DecWord(soa.minimum);
    var s := NumbersText(soa);
    assert s[|s| - 1] == Dec(soa.minimum)[|Dec(soa.minimum)| - 1];
  }

  // The SOA lines scan to one statement.
  lemma SoaBlock(done: seq<Statement>, ttl: nat, soa: Soa)
    requires SoaOk(soa)
    ensures ScanText(ScanStart(done), Lines(SoaLines(ttl, soa))) == Ok(ScanStart(done + [Statement(SoaText(ttl, soa), false)]))
  {
    hide ScanText, Number, Join, ScanChar, Word, Trim;
    var words := SoaWords(ttl, soa);
    var j := Join(words, ' ');
    forall i | 0 <= i < |words| ensures Word(words[i]) { SoaWordsOk(ttl, soa, i); }
    JoinOfWords(words);
    SoaLinesText(ttl, soa);
    var s0 := ScanStart(done);
    var s1 := s0.(text := j + [' '], started := true);
    var s2 := s1.(text := j + [' ', ' ', ' '], depth := 1);
    var s3 := s2.(text := j + [' ', ' ', ' '] + NumbersText(soa) + [' ']);
    var rest := NumberLines(soa) + [')', '\n'];
    ScanConcat(s0, j + [' '], ['(', '\n'] + rest);
    ScanFirst(done, j + [' ']);
    ScanConcat(s1, ['(', '\n'], rest);
    OpenLine(s1);
    assert j + [' '] + [' ', ' '] == j + [' ', ' ', ' '];
    ScanConcat(s2, NumberLines(soa), [')', '\n']);
    NumbersScan(s2, soa);
    NumbersEnd(soa);
    var core := SoaText(ttl, soa);
    assert core[|core| - 1] == NumbersText(soa)[|NumbersText(soa)| - 1] && core[0] == j[0];
    CloseLine(done, core, [' ']);
  }

  lemma OpenLine(s: Scan)
    requires Open(s) && s.depth == 0
    ensures ScanText(s, ['(', '\n']) == Ok(s.(text := s.text + [' ', ' '], depth := 1))
  {
    var t := s.(text := s.text + [' '], depth := 1);
    assert ['(', '\n'] == ['('] + ['\n'];
    ScanConcat(s, ['('], ['\n']);
    ScanOne(s, '(');
    ScanOne(t, '\n');
    assert s.text + [' '] + [' '] == s.text + [' ', ' '];
  }

  lemma LinesConcat(a: seq<string>, b: seq<string>)
    ensures Lines(a + b) == Lines(a) + Lines(b)
  {
    if a == [] {
      assert a + b == b;
    } else {
      assert (a + b)[1..] == a[1..] + b;
      LinesConcat(a[1..], b);
    }
  }

  lemma SoaLinesText(ttl: nat, soa: Soa)
    ensures Lines(SoaLines(ttl, soa)) ==
      (Join(SoaWords(ttl, soa), ' ') + [' ']) + (['(', '\n'] + (NumberLines(soa) + [')', '\n']))
  {
    hide Join, Dec;
    var j := Join(SoaWords(ttl, soa), ' ');
    var a, b, c, d, e := "  " + Dec(soa.serial), "  " + Dec(soa.refresh), "  " + Dec(soa.retry), "  " + Dec(soa.expire), "  " + Dec(soa.minimum);
    SevenLines(j + [' ', '('], a, b, c, d, e, ")");
  }

  lemma SevenLines(l: string, a: string, b: string, c: string, d: string, e: string, z: string)
    ensures Lines([l, a, b, c, d, e, z]) == l + ['\n'] + (a + ['\n'] + (b + ['\n'] + (c + ['\n'] + (d + ['\n'] + (e + ['\n'] + (z + ['\n']))))))
  {
    assert [l, a, b, c, d, e, z] == [l] + ([a] + ([b] + ([c] + ([d] + ([e] + [z])))));
    OneLine(l); OneLine(a); OneLine(b); OneLine(c); OneLine(d); OneLine(e); OneLine(z);
    LinesConcat([l], [a] + ([b] + ([c] + ([d] + ([e] + [z])))));
    LinesConcat([a], [b] + ([c] + ([d] + ([e] + [z]))));
    LinesConcat([b], [c] + ([d] + ([e] + [z])));
    LinesConcat([c], [d] + ([e] + [z]));
    LinesConcat([d], [e] + [z]);
    LinesConcat([e], [z]);
  }

  lemma OneLine(l: string)
    ensures Lines([l]) == l + ['\n']
  {
    assert Lines([l][1..]) == [];
  }

  // ---- Tokens of the SOA statement ----

  lemma NumberToken(done: seq<string>, n: nat, rest: string)
    ensures TokenText(NoTokens(done), Number(n, ' ') + rest) == TokenText(NoTokens(done + [Dec(n)]), rest)
  {
    DecWord(n);
    WordReads(Dec(n));
    assert Number(n, ' ') + rest == [' ', ' '] + (Dec(n) + ([' '] + rest));
    TokenConcat(NoTokens(done), [' ', ' '], Dec(n) + ([' '] + rest));
    TokenBlank(done, [' ', ' ']);
    PieceAndGap(done, Dec(n), Dec(n), [' '], rest);
  }

  function SoaTokens(ttl: nat, soa: Soa): seq<string> {
    SoaWords(ttl, soa) + [Dec(soa.serial), Dec(soa.refresh), Dec(soa.retry), Dec(soa.expire), Dec(soa.minimum)]
  }

  lemma NumbersTokenize(done: seq<string>, soa: Soa)
    ensures TokenText(NoTokens(done), NumbersText(soa)) ==
      Tokens(done + [Dec(soa.serial), Dec(soa.refresh), Dec(soa.retry), Dec(soa.expire)], Dec(soa.minimum), false, false, true)
  {
    hide TokenText, Number, Dec;
    var last := [' ', ' '] + Dec(soa.minimum);
    var t4 := Number(soa.expire, ' ') + last;
    var t3 := Number(soa.retry, ' ') + t4;
    var t2 := Number(soa.refresh, ' ') + t3;
    var d1 := done + [Dec(soa.serial)];
    var d2 := d1 + [Dec(soa.refresh)];
    var d3 := d2 + [Dec(soa.retry)];
    var d4 := d3 + [Dec(soa.expire)];
    NumberToken(done, soa.serial, t2);
    NumberToken(d1, soa.refresh, t3);
    NumberToken(d2, soa.retry, t4);
    NumberToken(d3, soa.expire, last);
    TokenConcat(NoTokens(d4), [' ', ' '], Dec(soa.minimum));
    TokenBlank(d4, [' ', ' ']);
    DecWord(soa.minimum);
    WordReads(Dec(soa.minimum));
    ReadsNow(d4, Dec(soa.minimum), Dec(soa.minimum));
    assert d4 == done + [Dec(soa.serial), Dec(soa.refresh), Dec(soa.retry), Dec(soa.expire)];
  }

  lemma SoaTokenizes(ttl: nat, soa: Soa)
    requires SoaOk(soa)
    ensures Tokenize(SoaText(ttl, soa)) == Ok(SoaTokens(ttl, soa))
  {
    hide TokenText, NumbersText, Join, Word, Reads, Dec;
    var words := SoaWords(ttl, soa);
    var j := Join(words, ' ');
    forall i | 0 <= i < |words| ensures Reads(words[i], words[i]) {
      SoaWordsOk(ttl, soa, i);
      WordReads(words[i]);
    }
    JoinReads([], words, words);
    var front := words[..5];
    assert [] + front == front;
    TokenConcat(NoTokens([]), j + [' ', ' ', ' '], NumbersText(soa));
    TokenConcat(NoTokens([]), j, [' ', ' ', ' ']);
    TokenGap(front, words[5], [' ', ' ', ' ']);
    assert front + [words[5]] == words;
    NumbersTokenize(words, soa);
    assert words + [Dec(soa.serial), Dec(soa.refresh), Dec(soa.retry), Dec(soa.expire)] + [Dec(soa.minimum)] == SoaTokens(ttl, soa);
  }

  lemma SoaDataReads(soa: Soa, origin: string)
    requires SoaOk(soa)
    ensures SoaData([AbsoluteName(soa.mname), AbsoluteName(soa.rname), Dec(soa.serial), Dec(soa.refresh), Dec(soa.retry),
                     Dec(soa.expire), Dec(soa.minimum)], origin) == Ok(soa)
  {
    hide Integer, TargetName;
    AbsoluteReads(soa.mname, origin);
    AbsoluteReads(soa.rname, origin);
    IntegerReads(soa.serial, 0, MAX_U32);
    IntegerReads(soa.refresh, 0, MAX_U32);
    IntegerReads(soa.retry, 0, MAX_U32);
    IntegerReads(soa.expire, 0, MAX_U32);
    IntegerReads(soa.minimum, 0, MAX_U32);
  }

  lemma SoaParses(s: State, ttl: nat, soa: Soa, zone: string)
    requires SoaOk(soa) && ttl <= MAX_TTL && zone != "" && s.origin == zone && s.soa.None?
    ensures ParseStatement(s, zone, Statement(SoaText(ttl, soa), false)) == Ok(s.(owner := Some(zone), soa := Some(soa)))
  {
    hide Tokenize, SoaText, SoaData, Dec, AbsoluteName;
    var tokens := SoaTokens(ttl, soa);
    SoaTokenizes(ttl, soa);
    var data := [AbsoluteName(soa.mname), AbsoluteName(soa.rname), Dec(soa.serial), Dec(soa.refresh), Dec(soa.retry),
                 Dec(soa.expire), Dec(soa.minimum)];
    var rest := ["SOA"] + data;
    assert Upper("SOA") == "SOA";
    NotNumeral("SOA");
    TtlAndClassRead(ttl, rest, s.defaultTtl);
    assert tokens[1..] == [Dec(ttl), "IN"] + rest;
    assert rest[1..] == data;
    SoaDataReads(soa, zone);
    assert OwnerName("@", zone, zone) == Ok(zone);
  }

  // ---- Directives ----

  lemma OriginLine(zone: string, s: State)
    requires ZoneOk(zone) && zone != ""
    ensures LineGives("$ORIGIN " + AbsoluteName(zone), "$ORIGIN " + AbsoluteName(zone))
    ensures ParseStatement(s, zone, Statement("$ORIGIN " + AbsoluteName(zone), false)) == Ok(s.(origin := zone))
  {
    hide Tokenize, LineGives, AbsoluteName, Word;
    assert "$ORIGIN" + [' '] == "$ORIGIN ";
    AbsoluteReads(zone, zone);
    KeywordIsWord("$ORIGIN");
    DirectiveLine("$ORIGIN", AbsoluteName(zone));
  }

  lemma TtlLine(zone: string, ttl: nat, s: State)
    requires ttl <= MAX_TTL
    ensures LineGives("$TTL " + Dec(ttl), "$TTL " + Dec(ttl))
    ensures ParseStatement(s, zone, Statement("$TTL " + Dec(ttl), false)) == Ok(s.(defaultTtl := ttl))
  {
    hide Tokenize, LineGives, Dec, Word;
    assert "$TTL" + [' '] == "$TTL ";
    DecWord(ttl);
    IntegerReads(ttl, 0, MAX_TTL);
    KeywordIsWord("$TTL");
    DirectiveLine("$TTL", Dec(ttl));
  }

  lemma KeywordIsWord(s: string)
    requires s == "$TTL" || s == "$ORIGIN"
    ensures Word(s) && Upper(s) == s
  {
  }

  lemma DirectiveLine(name: string, value: string)
    requires Word(name) && Word(value)
    ensures LineGives(name + [' '] + value, name + [' '] + value)
    ensures Tokenize(name + [' '] + value) == Ok([name, value])
  {
    var words := [name, value];
    assert words[1..] == [value];
    assert Join(words, ' ') == name + [' '] + value;
    PlainLine(words);
    WordReads(name);
    WordReads(value);
    JoinTokenizes(words, words);
  }

  // ---- The whole file ----

  lemma {:induction false} ParseConcat(s: State, zone: string, a: seq<Statement>, b: seq<Statement>)
    ensures ParseStatements(s, zone, a + b) ==
      match ParseStatements(s, zone, a) case Err(e) => Err(e) case Ok(t) => ParseStatements(t, zone, b)
  {
    hide ParseStatement;
    if b == [] {
      assert a + b == a;
    } else {
      assert (a + b)[..|a + b| - 1] == a + b[..|b| - 1];
      ParseConcat(s, zone, a, b[..|b| - 1]);
    }
  }

  lemma LineScans(done: seq<Statement>, line: string)
    requires LineGives(line, line)
    ensures ScanText(ScanStart(done), Lines([line])) == Ok(ScanStart(done + [Statement(line, false)]))
  {
    OneLine(line);
  }

  function Header(zone: string, ttl: nat): seq<string> {
    ["$ORIGIN " + AbsoluteName(zone), "$TTL " + Dec(ttl)]
  }

  lemma ScanThen(s: Scan, a: string, t: Scan, b: string, u: Scan)
    requires ScanText(s, a) == Ok(t) && ScanText(t, b) == Ok(u)
    ensures ScanText(s, a + b) == Ok(u)
  {
    ScanConcat(s, a, b);
  }

  // The scan of printed lines goes piece by piece.
  lemma PiecesScan(first: string, second: string, block: seq<string>, rest: seq<string>, s1: Scan, s2: Scan, s3: Scan, s4: Scan)
    requires ScanText(ScanStart([]), Lines([first])) == Ok(s1) && ScanText(s1, Lines([second])) == Ok(s2)
    requires ScanText(s2, Lines(block)) == Ok(s3) && ScanText(s3, Lines(rest)) == Ok(s4)
    ensures ScanText(ScanStart([]), Lines([first, second] + block + rest)) == Ok(s4)
  {
    hide ScanText, Lines;
    ScanThen(s2, Lines(block), s3, Lines(rest), s4);
    LinesConcat(block, rest);
    ScanThen(s1, Lines([second]), s2, Lines(block + rest), s4);
    LinesConcat([second], block + rest);
    ScanThen(ScanStart([]), Lines([first]), s1, Lines([second] + (block + rest)), s4);
    LinesConcat([first], [second] + (block + rest));
    assert [first, second] + block + rest == [first] + ([second] + (block + rest));
  }

  // The statements ahead of the records.
  function HeadStatements(zone: string, ttl: nat, soa: Soa): seq<Statement> {
    [Statement("$ORIGIN " + AbsoluteName(zone), false), Statement("$TTL " + Dec(ttl), false), Statement(SoaText(ttl, soa), false)]
  }

  // A printed head scans to its statements, and scanning goes on behind it.
  lemma HeadScan(zone: string, ttl: nat, soa: Soa, rest: seq<string>, after: Scan)
    requires ZoneOk(zone) && zone != "" && ttl <= MAX_TTL && SoaOk(soa)
    requires ScanText(ScanStart(HeadStatements(zone, ttl, soa)), Lines(rest)) == Ok(after)
    ensures ScanText(ScanStart([]), Lines(Header(zone, ttl) + SoaLines(ttl, soa) + rest)) == Ok(after)
  {
    hide ScanText, LineGives, SoaLines, SoaText, AbsoluteName, Dec, ScanChar, SoaOk, ZoneOk, Lines;
    var first, second := "$ORIGIN " + AbsoluteName(zone), "$TTL " + Dec(ttl);
    var d1 := [Statement(first, false)];
    var d2 := d1 + [Statement(second, false)];
    var d3 := d2 + [Statement(SoaText(ttl, soa), false)];
    var start := State(zone, 300, None, None, []);
    OriginLine(zone, start);
    TtlLine(zone, ttl, start);
    LineScans([], first);
    assert [] + d1 == d1;
    LineScans(d1, second);
    SoaBlock(d2, ttl, soa);
    assert d3 == HeadStatements(zone, ttl, soa);
    PiecesScan(first, second, SoaLines(ttl, soa), rest, ScanStart(d1), ScanStart(d2), ScanStart(d3), after);
  }

  lemma FinalLineFeed(done: seq<Statement>)
    ensures ScanText(ScanStart(done), ['\n']) == Ok(ScanStart(done))
  {
    ScanOne(ScanStart(done), '\n');
    assert done + [] == done;
  }

  // What parsing the head leaves.
  function HeadState(zone: string, ttl: nat, soa: Soa): State {
    State(zone, ttl, Some(zone), Some(soa), [])
  }

  lemma HeadParses(zone: string, ttl: nat, soa: Soa)
    requires ZoneOk(zone) && zone != "" && ttl <= MAX_TTL && SoaOk(soa)
    ensures ParseStatements(State(zone, 300, None, None, []), zone, HeadStatements(zone, ttl, soa)) == Ok(HeadState(zone, ttl, soa))
  {
    hide ParseStatement, SoaText, AbsoluteName, Dec, SoaOk, ZoneOk, LineGives;
    var head := HeadStatements(zone, ttl, soa);
    var s0 := State(zone, 300, None, None, []);
    var s2 := s0.(defaultTtl := ttl);
    assert head[..2][..1] == head[..1] && head[..1][..0] == [];
    OriginLine(zone, s0);
    TtlLine(zone, ttl, s0);
    SoaParses(s2, ttl, soa, zone);
    assert ParseStatements(s0, zone, head[..1]) == ParseStatement(s0, zone, head[0]);
    assert ParseStatements(s0, zone, head[..2]) == ParseStatement(s0, zone, head[1]);
  }

  lemma ZoneIsGiven(zone: string)
    requires ZoneOk(zone)
    ensures zone != "" && NormalizeDomainName(zone) == Ok(zone)
  {
  }
}

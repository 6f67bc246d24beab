// The one character a text value does not survive: a line feed ends the statement inside the quotes.
module ZoneNewlines {
  import opened Wrappers
  import opened Text
  import opened Names
  import opened ZoneFiles
  import opened ZoneScan
  import opened ZoneRoundTrip
  import opened ZoneRecords

  lemma {:induction false} EscapeConcat(a: string, b: string)
    ensures EscapeText(a + b) == EscapeText(a) + EscapeText(b)
  {
    if a == [] {
      assert a + b == b;
    } else {
      assert (a + b)[1..] == a[1..] + b;
      EscapeConcat(a[1..], b);
    }
  }

  lemma EscapeOne(c: char)
    ensures EscapeText([c]) == EscapedChar(c)
  {
    assert [c][1..] == [];
    assert EscapedChar(c) + [] == EscapedChar(c);
  }

  // Trimming an open quoted value only shortens the value.
  lemma {:induction false} TrimOpenValue(front: string, value: string) returns (kept: string)
    requires front != [] && !Space(front[|front| - 1])
    ensures TrimRight(front + EscapeText(value)) == front + EscapeText(kept)
    decreases |value|
  {
    hide EscapeText, Space, TrimRight;
    if value == [] {
      NothingEscaped();
      assert front + [] == front;
      TrimRightKeeps(front);
      return value;
    }
    var n := |value| - 1;
    EscapeLast(value);
    if Space(value[n]) {
      LastBlank(front + EscapeText(value[..n]), value[n]);
      assert front + EscapeText(value) == front + EscapeText(value[..n]) + [value[n]];
      kept := TrimOpenValue(front, value[..n]);
    } else {
      kept := value;
      TrimRightKeeps(front + EscapeText(value));
    }
  }

  lemma NothingEscaped()
    ensures EscapeText([]) == []
  {
  }

  lemma TrimRightKeeps(s: string)
    requires s != [] && !Space(s[|s| - 1])
    ensures TrimRight(s) == s
  {
  }

  // The last character of an escaped value is the value's last; a blank is not escaped.
  lemma EscapeLast(value: string)
    requires value != []
    ensures var n := |value| - 1; var e := EscapeText(value);
      e != [] && e[|e| - 1] == value[n] && (Space(value[n]) ==> e == EscapeText(value[..n]) + [value[n]])
  {
    hide EscapeText;
    var n := |value| - 1;
    EscapeConcat(value[..n], [value[n]]);
    EscapeOne(value[n]);
    assert value == value[..n] + [value[n]];
    assert EscapeText(value) == EscapeText(value[..n]) + EscapedChar(value[n]);
    assert Space(value[n]) ==> EscapedChar(value[n]) == [value[n]];
  }

  lemma LastBlank(s: string, c: char)
    requires Space(c)
    ensures TrimRight(s + [c]) == TrimRight(s)
  {
    assert (s + [c])[..|s|] == s;
  }

  lemma TrimLeftKeeps(s: string)
    requires s != [] && !Space(s[0])
    ensures TrimLeft(s) == s
  {
  }

  // A statement cut off inside its quoted value has no tokens.
  lemma OpenValueFails(words: seq<string>, value: string)
    requires words != [] && forall i :: 0 <= i < |words| ==> Word(words[i])
    ensures Tokenize(Trim(Join(words, ' ') + [' ', '"'] + EscapeText(value))).Err?
  {
    hide Join, Word, TokenText, TrimRight, EscapeText, Reads;
    var j := Join(words, ' ');
    var front := j + [' ', '"'];
    JoinOfWords(words);
    var kept := TrimOpenValue(front, value);
    TrimLeftKeeps(front + EscapeText(value));
    var text := front + EscapeText(kept);
    forall i | 0 <= i < |words| ensures Reads(words[i], words[i]) { WordReads(words[i]); }
    JoinReads([], words, words);
    var last := |words| - 1;
    TokenConcat(NoTokens([]), front, EscapeText(kept));
    TokenConcat(NoTokens([]), j, [' ', '"']);
    var done := [] + words[..last] + [words[last]];
    OpenQuote([] + words[..last], words[last]);
    TokenEscaped(done, "", kept);
  }

  lemma OpenQuote(done: seq<string>, value: string)
    ensures TokenText(Tokens(done, value, false, false, true), [' ', '"']) == Tokens(done + [value], "", true, false, true)
  {
    TokenTwo(Tokens(done, value, false, false, true), ' ', '"');
  }

  // ---- The scanner goes on, but never takes a statement back ----

  lemma {:induction false} StatementsGrow(s: Scan, text: string)
    ensures ScanText(s, text).Ok? ==> s.statements <= ScanText(s, text).value.statements
    decreases |text|
  {
    if text != [] && ScanChar(s, text[0]).Ok? { StatementsGrow(ScanChar(s, text[0]).value, text[1..]); }
  }

  lemma {:induction false} BadStatementFails(s: State, zone: string, statements: seq<Statement>, k: nat)
    requires k < |statements| && Tokenize(statements[k].text).Err?
    ensures ParseStatements(s, zone, statements).Err?
  {
    if k < |statements| - 1 { BadStatementFails(s, zone, statements[..|statements| - 1], k); }
  }

  // Words and an open quoted value.
  lemma CutScans(s: Scan, words: seq<string>, value: string)
    requires !s.quoted && !s.escaped && !s.comment && !s.started
    requires words != [] && NoNewline(value) && forall i :: 0 <= i < |words| ==> Word(words[i])
    ensures var cut := Join(words, ' ') + [' ', '"'] + EscapeText(value);
      cut != [] && !Space(cut[0]) && ScanText(s, cut) == Ok(s.(text := s.text + cut, started := true, quoted := true))
  {
    hide ScanText, EscapeText, Join, Word, NoNewline;
    var front, escaped := Join(words, ' ') + [' '], EscapeText(value);
    JoinOfWords(words);
    var s1 := s.(text := s.text + front, started := true);
    var s2 := s1.(text := s.text + (front + ['"']), quoted := true);
    assert Join(words, ' ') + [' ', '"'] + escaped == front + (['"'] + escaped) == (front + ['"']) + escaped;
    ScanConcat(s, front, ['"'] + escaped);
    ScanFirstBehind(s, front);
    ScanConcat(s1, ['"'], escaped);
    ScanQuoteChar(s1);
    ConcatAssociates(s.text, front, ['"']);
    ScanEscaped(s2, value);
    ConcatAssociates(s.text, front + ['"'], escaped);
  }

  // The statement ends at the line feed, although its quote is still open.
  lemma NewlineStatement(done: seq<Statement>, blank: bool, words: seq<string>, value: string)
    requires words != [] && NoNewline(value) && forall i :: 0 <= i < |words| ==> Word(words[i])
    ensures var cut := Join(words, ' ') + [' ', '"'] + EscapeText(value); var r := ScanText(LineStart(done, blank), cut + ['\n']);
      r.Ok? && r.value.statements == done + [Statement(Trim(cut), blank)]
  {
    hide ScanText, EscapeText, Join, Word, Trim, NoNewline;
    var cut := Join(words, ' ') + [' ', '"'] + EscapeText(value);
    var s := LineStart(done, blank);
    CutScans(s, words, value);
    ScanConcat(s, cut, ['\n']);
    ScanOne(s.(text := s.text + cut, started := true, quoted := true), '\n');
    CutIsNotBlank(cut);
    TrimIgnoresFront(s.text, cut);
  }

  lemma TrimIgnoresFront(blank: string, core: string)
    requires Blank(blank) && core != [] && !Space(core[0])
    ensures Trim(blank + core) == Trim(core)
  {
    TrimsLeft(blank, core);
    TrimLeftKeeps(core);
  }

  lemma CutIsNotBlank(cut: string)
    requires cut != [] && !Space(cut[0])
    ensures Trim(cut) != ""
  {
    TrimLeftKeeps(cut);
    KeepsFirst(cut);
  }

  lemma {:induction false} KeepsFirst(s: string)
    requires s != [] && !Space(s[0])
    ensures TrimRight(s) != []
  {
    if Space(s[|s| - 1]) { KeepsFirst(s[..|s| - 1]); }
  }

  lemma SplitAtNewline(value: string) returns (before: string, after: string)
    requires !NoNewline(value)
    ensures value == before + ['\n'] + after && NoNewline(before)
  {
    var i := 0;
    while value[i] != '\n'
      invariant 0 <= i < |value| && NoNewline(value[..i])
      invariant exists k :: i <= k < |value| && value[k] == '\n'
      decreases |value| - i
    {
      i := i + 1;
    }
    before, after := value[..i], value[i + 1..];
  }

  // A record with a line feed in its text: the first part of its line makes a statement without tokens.
  lemma NewlineRecord(done: seq<Statement>, r: Stored, zone: string) returns (first: string, rest: string, text: string)
    requires Spelled(r.name) && r.rtype == TypeOf(r.fields) && r.fields.TxtOf? && !NoNewline(r.fields.value)
    ensures RecordText(r, zone) == first + rest
    ensures var s := ScanText(ScanStart(done), first);
      s.Ok? && s.value.statements == done + [Statement(text, RelativeName(r.name, zone) == "")]
    ensures Tokenize(text).Err?
  {
    hide ScanText, EscapeText, Join, RelativeName, Word, Trim, Tokenize, FrontWords, NoNewline, TypeOf, Spelled, RecordText;
    var blank := RelativeName(r.name, zone) == "";
    var before, after := SplitAtNewline(r.fields.value);
    var words := FrontWords(r, zone);
    forall i | 0 <= i < |words| ensures Word(words[i]) { FrontIsWords(r, zone, i); }
    FrontNotEmpty(r, zone);
    LineIsCore(r, zone);
    var cut := Join(words, ' ') + [' ', '"'] + EscapeText(before);
    BadLineText(words, before, after, []);
    NewlineStatement(done, blank, words, before);
    OpenValueFails(words, before);
    text := Trim(cut);
    rest := EscapeText(after) + ['"'];
    assert rest + [] == rest;
    var core := CoreText(r, zone);
    assert core + [] == core;
    assert core == (cut + ['\n']) + rest;
    if blank {
      first := [' '] + (cut + ['\n']);
      BlankScans(done);
      ScanConcat(ScanStart(done), [' '], cut + ['\n']);
    } else {
      first := cut + ['\n'];
      assert [] + core == core;
    }
  }

  lemma BadLineText(words: seq<string>, before: string, after: string, rest: string)
    requires words != []
    ensures Join(words + [QuotedText(before + ['\n'] + after)], ' ') + rest ==
      Join(words, ' ') + [' ', '"'] + EscapeText(before) + ['\n'] + (EscapeText(after) + ['"'] + rest)
  {
    hide Join, EscapeText;
    var value := before + ['\n'] + after;
    JoinConcat(words, [QuotedText(value)], ' ');
    JoinOfOne(QuotedText(value));
    assert value == before + (['\n'] + after);
    EscapeConcat(before, ['\n'] + after);
    EscapeConcat(['\n'], after);
    EscapeOne('\n');
    assert QuotedText(value) == ['"'] + EscapeText(before) + ['\n'] + EscapeText(after) + ['"'];
  }

  lemma LinesAround(lines: seq<string>, k: nat)
    requires k < |lines|
    ensures Lines(lines) == Lines(lines[..k]) + (lines[k] + (['\n'] + Lines(lines[k + 1..])))
  {
    hide Lines;
    var before, middle, after := lines[..k], lines[k], lines[k + 1..];
    assert lines == before + ([middle] + after);
    LinesConcat(before, [middle] + after);
    LinesConcat([middle], after);
    OneLine(middle);
    ConcatAssociates(middle, ['\n'], Lines(after));
  }
}

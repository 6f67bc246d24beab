// Scanning and tokenizing printed text: how the two character automata run over words, gaps and quotes.
module ZoneScan {
  import opened Wrappers
  import opened Text
  import opened ZoneFiles

  // ---- Runs over concatenations ----

  lemma {:induction false} ScanConcat(s: Scan, a: string, b: string)
    ensures ScanText(s, a + b) == match ScanText(s, a) case Err(e) => Err(e) case Ok(t) => ScanText(t, b)
    decreases |a|
  {
    hide ScanChar;
    if a == [] {
      assert a + b == b;
    } else {
      assert (a + b)[1..] == a[1..] + b;
      if ScanChar(s, a[0]).Ok? { ScanConcat(ScanChar(s, a[0]).value, a[1..], b); }
    }
  }

  lemma ScanOne(s: Scan, c: char)
    ensures ScanText(s, [c]) == ScanChar(s, c)
  {
    hide ScanChar;
    assert [c][1..] == [];
  }

  lemma ScanPrefix(s: Scan, text: string, i: nat)
    requires i < |text|
    ensures ScanText(s, text[..i + 1]) ==
      match ScanText(s, text[..i]) case Err(e) => Err(e) case Ok(t) => ScanChar(t, text[i])
  {
    hide ScanChar;
    assert text[..i + 1] == text[..i] + [text[i]];
    ScanConcat(s, text[..i], [text[i]]);
    if ScanText(s, text[..i]).Ok? { ScanOne(ScanText(s, text[..i]).value, text[i]); }
  }

  lemma ScanFails(s: Scan, text: string, n: nat)
    requires n <= |text| && ScanText(s, text[..n]).Err?
    ensures ScanText(s, text) == ScanText(s, text[..n])
  {
    assert text == text[..n] + text[n..];
    ScanConcat(s, text[..n], text[n..]);
  }

  lemma {:induction false} TokenConcat(t: Tokens, a: string, b: string)
    ensures TokenText(t, a + b) == TokenText(TokenText(t, a), b)
    decreases |a|
  {
    hide TokenChar;
    if a == [] {
      assert a + b == b;
    } else {
      assert (a + b)[1..] == a[1..] + b;
      TokenConcat(TokenChar(t, a[0]), a[1..], b);
    }
  }

  lemma TokenPrefix(t: Tokens, text: string, i: nat)
    requires i < |text|
    ensures TokenText(t, text[..i + 1]) == TokenChar(TokenText(t, text[..i]), text[i])
  {
    hide TokenChar;
    assert text[..i + 1] == text[..i] + [text[i]];
    TokenConcat(t, text[..i], [text[i]]);
    assert [text[i]][1..] == [];
  }

  // ---- Plain text ----

  // No character the scanner acts upon; blanks allowed.
  predicate PlainChar(c: char) {
    c != '"' && c != ';' && c != '(' && c != ')' && c != '\n'
  }

  predicate Plain(s: string) {
    forall i :: 0 <= i < |s| ==> PlainChar(s[i])
  }

  // One printed word: plain, without blanks, not empty.
  predicate Word(s: string) {
    s != [] && Plain(s) && forall i :: 0 <= i < |s| ==> !Space(s[i])
  }

  predicate Blank(s: string) {
    forall i :: 0 <= i < |s| ==> Space(s[i])
  }

  // Outside quotes, escapes and comments, with the statement under way.
  predicate Open(s: Scan) {
    !s.quoted && !s.escaped && !s.comment && s.started
  }

  lemma {:induction false} ScanPlain(s: Scan, p: string)
    requires Open(s) && Plain(p)
    ensures ScanText(s, p) == Ok(s.(text := s.text + p))
    decreases |p|
  {
    if p == [] {
      assert s.text + p == s.text;
    } else {
      ScanPlain(s.(text := s.text + [p[0]]), p[1..]);
      assert s.text + [p[0]] + p[1..] == s.text + p;
    }
  }

  // The first word of a line opens the statement.
  lemma ScanFirstBehind(s: Scan, p: string)
    requires !s.quoted && !s.escaped && !s.comment && !s.started && p != [] && Plain(p) && !Space(p[0])
    ensures ScanText(s, p) == Ok(s.(text := s.text + p, started := true))
  {
    var t := s.(text := s.text + [p[0]], started := true);
    assert ScanChar(s, p[0]) == Ok(t);
    ScanPlain(t, p[1..]);
    assert s.text + [p[0]] + p[1..] == s.text + p;
  }

  lemma ScanFirst(statements: seq<Statement>, p: string)
    requires p != [] && Plain(p) && !Space(p[0])
    ensures ScanText(ScanStart(statements), p) == Ok(ScanStart(statements).(text := p, started := true))
  {
    ScanFirstBehind(ScanStart(statements), p);
    assert ScanStart(statements).text + p == p;
  }

  predicate NoNewline(s: string) {
    forall i :: 0 <= i < |s| ==> s[i] != '\n'
  }

  lemma {:induction false} ScanEscaped(s: Scan, value: string)
    requires s.quoted && !s.escaped && !s.comment && s.started && NoNewline(value)
    ensures ScanText(s, EscapeText(value)) == Ok(s.(text := s.text + EscapeText(value)))
    decreases |value|
  {
    hide ScanChar, EscapedChar;
    if value == [] {
      assert s.text + [] == s.text;
    } else {
      var head := EscapedChar(value[0]);
      assert EscapeText(value) == head + EscapeText(value[1..]);
      ScanConcat(s, head, EscapeText(value[1..]));
      ScanHead(s, value[0]);
      ScanEscaped(s.(text := s.text + head), value[1..]);
      assert s.text + head + EscapeText(value[1..]) == s.text + EscapeText(value);
    }
  }

  lemma ScanHead(s: Scan, c: char)
    requires s.quoted && !s.escaped && !s.comment && s.started && c != '\n'
    ensures ScanText(s, EscapedChar(c)) == Ok(s.(text := s.text + EscapedChar(c)))
  {
    if c == '\\' || c == '"' {
      var t := s.(text := s.text + ['\\'], escaped := true);
      assert ScanChar(s, '\\') == Ok(t);
      assert ['\\', c][1..] == [c];
      ScanOne(t, c);
      assert s.text + ['\\'] + [c] == s.text + ['\\', c];
    } else {
      ScanOne(s, c);
    }
  }

  lemma ScanQuoteChar(s: Scan)
    requires !s.escaped && !s.comment
    ensures ScanText(s, ['"']) == Ok(s.(text := s.text + ['"'], quoted := !s.quoted, started := true))
  {
    ScanOne(s, '"');
  }

  lemma ScanQuoted(s: Scan, value: string)
    requires Open(s) && NoNewline(value)
    ensures ScanText(s, QuotedText(value)) == Ok(s.(text := s.text + QuotedText(value)))
  {
    hide ScanChar, EscapeText, ScanText;
    var q := s.(text := s.text + ['"'], quoted := true);
    var e := q.(text := q.text + EscapeText(value));
    assert QuotedText(value) == ['"'] + (EscapeText(value) + ['"']);
    ScanConcat(s, ['"'], EscapeText(value) + ['"']);
    ScanQuoteChar(s);
    ScanConcat(q, EscapeText(value), ['"']);
    ScanEscaped(q, value);
    ScanQuoteChar(e);
    assert s.text + ['"'] + EscapeText(value) + ['"'] == s.text + QuotedText(value);
  }

  // ---- Trimming ----

  lemma {:induction false} TrimRightBlank(core: string, tail: string)
    requires core != [] && !Space(core[|core| - 1]) && Blank(tail)
    ensures TrimRight(core + tail) == core
  {
    if tail == [] {
      assert core + tail == core;
    } else {
      var s := core + tail;
      assert s[|s| - 1] == tail[|tail| - 1] && s[..|s| - 1] == core + tail[..|tail| - 1];
      TrimRightBlank(core, tail[..|tail| - 1]);
    }
  }

  // A text that starts and ends with non-blanks, up to trailing blanks.
  lemma TrimCore(core: string, tail: string)
    requires core != [] && !Space(core[0]) && !Space(core[|core| - 1]) && Blank(tail)
    ensures Trim(core + tail) == core
  {
    assert TrimLeft(core + tail) == core + tail;
    TrimRightBlank(core, tail);
  }

  // ---- Tokens of words, gaps and quotes ----

  // A printed piece that reads back as one token of the given value.
  ghost predicate Reads(text: string, value: string) {
    forall done: seq<string> :: TokenText(NoTokens(done), text) == Tokens(done, value, false, false, true)
  }

  lemma {:induction false} TokenWord(done: seq<string>, front: string, active: bool, w: string)
    requires Word(w)
    ensures TokenText(Tokens(done, front, false, false, active), w) == Tokens(done, front + w, false, false, true)
    decreases |w|
  {
    var t := Tokens(done, front + [w[0]], false, false, true);
    assert TokenChar(Tokens(done, front, false, false, active), w[0]) == t;
    if |w| > 1 {
      TokenWord(done, front + [w[0]], true, w[1..]);
      assert front + [w[0]] + w[1..] == front + w;
    } else {
      assert w[1..] == [] && w == [w[0]];
    }
  }

  lemma WordReads(w: string)
    requires Word(w)
    ensures Reads(w, w)
  {
    forall done: seq<string> ensures TokenText(NoTokens(done), w) == Tokens(done, w, false, false, true) {
      TokenWord(done, "", false, w);
      assert "" + w == w;
    }
  }

  lemma TokenTwo(t: Tokens, b: char, c: char)
    ensures TokenText(t, [b, c]) == TokenChar(TokenChar(t, b), c)
  {
    hide TokenChar;
    assert [b, c][1..] == [c] && [c][1..] == [];
    assert TokenText(TokenChar(t, b), [c]) == TokenText(TokenChar(TokenChar(t, b), c), []);
  }

  lemma {:induction false} TokenEscaped(done: seq<string>, front: string, value: string)
    ensures TokenText(Tokens(done, front, true, false, true), EscapeText(value)) == Tokens(done, front + value, true, false, true)
    decreases |value|
  {
    if value == [] {
      assert front + value == front;
    } else {
      var head := EscapedChar(value[0]);
      var t := Tokens(done, front, true, false, true);
      assert EscapeText(value) == head + EscapeText(value[1..]);
      TokenConcat(t, head, EscapeText(value[1..]));
      assert TokenText(t, head) == Tokens(done, front + [value[0]], true, false, true) by {
        if |head| == 2 { TokenTwo(t, '\\', value[0]); } else { assert head[1..] == []; }
      }
      TokenEscaped(done, front + [value[0]], value[1..]);
      assert front + [value[0]] + value[1..] == front + value;
    }
  }

  lemma QuotedReads(value: string)
    ensures Reads(QuotedText(value), value)
  {
    forall done: seq<string>
      ensures TokenText(NoTokens(done), QuotedText(value)) == Tokens(done, value, false, false, true)
    {
      var q := Tokens(done, "", true, false, true);
      assert QuotedText(value)[1..] == EscapeText(value) + ['"'];
      assert TokenChar(NoTokens(done), '"') == q;
      TokenConcat(q, EscapeText(value), ['"']);
      TokenEscaped(done, "", value);
      assert "" + value == value;
      assert ['"'][1..] == [];
    }
  }

  lemma {:induction false} TokenBlank(done: seq<string>, gap: string)
    requires Blank(gap)
    ensures TokenText(NoTokens(done), gap) == NoTokens(done)
  {
    if gap != [] {
      assert Space(gap[0]) && gap[0] != '"';
      assert done + [] == done;
      TokenBlank(done, gap[1..]);
    }
  }

  // A gap ends the pending token.
  lemma TokenGap(done: seq<string>, value: string, gap: string)
    requires Blank(gap) && gap != []
    ensures TokenText(Tokens(done, value, false, false, true), gap) == NoTokens(done + [value])
  {
    assert Space(gap[0]) && gap[0] != '"';
    TokenBlank(done + [value], gap[1..]);
  }

  // A piece and a gap behind finished tokens.
  lemma PieceAndGap(done: seq<string>, text: string, value: string, gap: string, rest: string)
    requires Reads(text, value) && Blank(gap) && gap != []
    ensures TokenText(NoTokens(done), text + (gap + rest)) == TokenText(NoTokens(done + [value]), rest)
  {
    TokenConcat(NoTokens(done), text, gap + rest);
    TokenConcat(Tokens(done, value, false, false, true), gap, rest);
    TokenGap(done, value, gap);
  }

  ghost predicate AllRead(texts: seq<string>, values: seq<string>) {
    |texts| == |values| && forall i :: 0 <= i < |texts| ==> Reads(texts[i], values[i])
  }

  // Pieces joined by single blanks read back as their values.
  lemma {:induction false} JoinReads(done: seq<string>, texts: seq<string>, values: seq<string>)
    requires texts != [] && AllRead(texts, values)
    ensures TokenText(NoTokens(done), Join(texts, ' ')) ==
      Tokens(done + values[..|values| - 1], values[|values| - 1], false, false, true)
    decreases |texts|
  {
    hide Reads;
    if |texts| == 1 {
      ReadsNow(done, texts[0], values[0]);
      assert done + values[..0] == done;
    } else {
      assert Join(texts, ' ') == texts[0] + ([' '] + Join(texts[1..], ' '));
      PieceAndGap(done, texts[0], values[0], [' '], Join(texts[1..], ' '));
      JoinReads(done + [values[0]], texts[1..], values[1..]);
      assert done + [values[0]] + values[1..][..|values| - 2] == done + values[..|values| - 1];
    }
  }

  lemma ReadsNow(done: seq<string>, text: string, value: string)
    requires Reads(text, value)
    ensures TokenText(NoTokens(done), text) == Tokens(done, value, false, false, true)
  {
  }

  lemma JoinTokenizes(texts: seq<string>, values: seq<string>)
    requires texts != [] && AllRead(texts, values)
    ensures Tokenize(Join(texts, ' ')) == Ok(values)
  {
    JoinReads([], texts, values);
    assert [] + values[..|values| - 1] + [values[|values| - 1]] == values;
  }
}

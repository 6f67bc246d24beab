// The character and statement loops of zone-file parsing, proved against the functions that specify them.
module ZoneLoops {
  import opened Wrappers
  import opened Text
  import opened ZoneFiles
  import opened ZoneScan

  method ScanStatements(source: string) returns (r: Result<seq<Statement>, Failure>)
    ensures r == LogicalStatements(source)
  {
    hide ScanChar;
    var s := ScanStart([]);
    var input := source + ['\n'];
    for i := 0 to |input|
      invariant ScanText(ScanStart([]), input[..i]) == Ok(s)
    {
      ScanPrefix(ScanStart([]), input, i);
      var t := ScanChar(s, input[i]);
      if t.Err? {
        ScanFails(ScanStart([]), input, i + 1);
        return Err(t.error);
      }
      s := t.value;
    }
    assert input[..|input|] == input;
    if s.quoted { return Err(UnterminatedQuote); }
    if s.depth != 0 { return Err(UnmatchedOpen); }
    return Ok(s.statements);
  }

  method SplitTokens(text: string) returns (r: Result<seq<string>, Failure>)
    ensures r == Tokenize(text)
  {
    var tokens: seq<string>, value: string := [], "";
    var quoted, escaped, active := false, false, false;
    for i := 0 to |text|
      invariant TokenText(NoTokens([]), text[..i]) == Tokens(tokens, value, quoted, escaped, active)
    {
      TokenPrefix(NoTokens([]), text, i);
      var c := text[i];
      if escaped {
        value, escaped, active := value + [c], false, true;
      } else if quoted && c == '\\' {
        escaped := true;
      } else if c == '"' {
        quoted, active := !quoted, true;
      } else if !quoted && Space(c) {
        if active { tokens := tokens + [value]; }
        value, active := "", false;
      } else {
        value, active := value + [c], true;
      }
    }
    assert text[..|text|] == text;
    if quoted || escaped { return Err(InvalidQuoted); }
    return Ok(tokens + if active then [value] else []);
  }

  method ParseAll(s: State, zone: string, statements: seq<Statement>) returns (r: Result<State, Failure>)
    ensures r == ParseStatements(s, zone, statements)
  {
    hide ParseStatement;
    var state := s;
    for i := 0 to |statements|
      invariant ParseStatements(s, zone, statements[..i]) == Ok(state)
    {
      assert statements[..i + 1][..i] == statements[..i];
      var t := ParseStatement(state, zone, statements[i]);
      if t.Err? {
        StatementsFail(s, zone, statements, i + 1);
        return Err(t.error);
      }
      state := t.value;
    }
    assert statements[..|statements|] == statements;
    return Ok(state);
  }

  lemma {:induction false} StatementsFail(s: State, zone: string, statements: seq<Statement>, n: nat)
    requires n <= |statements| && ParseStatements(s, zone, statements[..n]).Err?
    ensures ParseStatements(s, zone, statements) == ParseStatements(s, zone, statements[..n])
  {
    if n == |statements| {
      assert statements[..n] == statements;
    } else {
      var front := statements[..|statements| - 1];
      assert front[..n] == statements[..n];
      StatementsFail(s, zone, front, n);
    }
  }
}

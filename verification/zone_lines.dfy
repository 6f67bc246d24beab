// Lines as somebody writes them: words, quoted texts, comments and line breaks inside parentheses.
module ZoneLines {
  import opened Wrappers
  import opened Text
  import opened Names
  import opened ZoneFiles
  import opened ZoneScan
  import opened ZoneRoundTrip
  import opened ZoneRecords

  // A word without special characters, or any text in quotes.
  datatype Piece = Bare(word: string) | Quoted(value: string)

  // A line of pieces with single blanks between them; one in front leaves the owner out.
  datatype Line = Line(blank: bool, pieces: seq<Piece>)

  function PieceText(p: Piece): string {
    match p case Bare(word) => word case Quoted(value) => QuotedText(value)
  }

  function PieceValue(p: Piece): string {
    match p case Bare(word) => word case Quoted(value) => value
  }

  function PieceTexts(ps: seq<Piece>): seq<string> {
    seq(|ps|, i requires 0 <= i < |ps| => PieceText(ps[i]))
  }

  function PieceValues(ps: seq<Piece>): seq<string> {
    seq(|ps|, i requires 0 <= i < |ps| => PieceValue(ps[i]))
  }

  predicate PieceOk(p: Piece) {
    match p case Bare(word) => Word(word) case Quoted(value) => NoNewline(value)
  }

  predicate LineOk(l: Line) {
    l.pieces != [] && forall i :: 0 <= i < |l.pieces| ==> PieceOk(l.pieces[i])
  }

  function CoreOf(l: Line): string {
    if l.pieces == [] then [] else Join(PieceTexts(l.pieces), ' ')
  }

  function LineText(l: Line): string {
    (if l.blank then [' '] else []) + CoreOf(l)
  }

  function LineStatement(l: Line): Statement {
    Statement(CoreOf(l), l.blank)
  }

  // ---- Scanning ----

  lemma PieceScans(s: Scan, p: Piece)
    requires !s.quoted && !s.escaped && !s.comment && PieceOk(p)
    ensures ScanText(s, PieceText(p)) == Ok(s.(text := s.text + PieceText(p), started := true))
  {
    hide ScanText, EscapeText;
    match p {
      case Bare(word) => if s.started { ScanPlain(s, word); } else { ScanFirstBehind(s, word); }
      case Quoted(value) =>
        if s.started {
          ScanQuoted(s, value);
        } else {
          var q := s.(text := s.text + ['"'], quoted := true, started := true);
          assert QuotedText(value) == ['"'] + (EscapeText(value) + ['"']);
          ScanConcat(s, ['"'], EscapeText(value) + ['"']);
          ScanQuoteChar(s);
          ScanConcat(q, EscapeText(value), ['"']);
          ScanEscaped(q, value);
          ScanQuoteChar(q.(text := q.text + EscapeText(value)));
          assert s.text + ['"'] + EscapeText(value) + ['"'] == s.text + QuotedText(value);
        }
    }
  }

  lemma {:induction false} PiecesScanned(s: Scan, ps: seq<Piece>)
    requires !s.quoted && !s.escaped && !s.comment && ps != []
    requires forall i :: 0 <= i < |ps| ==> PieceOk(ps[i])
    ensures var core := Join(PieceTexts(ps), ' '); ScanText(s, core) == Ok(s.(text := s.text + core, started := true))
    decreases |ps|
  {
    hide ScanText, PieceText, PieceOk, ScanChar;
    PieceScans(s, ps[0]);
    if |ps| > 1 {
      var first, rest := PieceText(ps[0]), Join(PieceTexts(ps[1..]), ' ');
      assert PieceTexts(ps)[1..] == PieceTexts(ps[1..]);
      var core := Join(PieceTexts(ps), ' ');
      assert core == first + ([' '] + rest);
      var s1 := s.(text := s.text + first, started := true);
      var s2 := s1.(text := s1.text + [' ']);
      ScanConcat(s, first, [' '] + rest);
      ScanConcat(s1, [' '], rest);
      BlankGoesOn(s1);
      PiecesScanned(s2, ps[1..]);
      assert s.text + first + [' '] + rest == s.text + core;
    }
  }

  lemma BlankGoesOn(s: Scan)
    requires Open(s)
    ensures ScanText(s, [' ']) == Ok(s.(text := s.text + [' ']))
  {
    ScanOne(s, ' ');
  }

  lemma PieceEnds(p: Piece)
    requires PieceOk(p)
    ensures var t := PieceText(p); t != [] && !Space(t[0]) && !Space(t[|t| - 1])
  {
    if p.Quoted? { QuotedEnds(p.value); }
  }

  lemma {:induction false} PiecesEnd(ps: seq<Piece>)
    requires ps != [] && forall i :: 0 <= i < |ps| ==> PieceOk(ps[i])
    ensures var core := Join(PieceTexts(ps), ' '); core != [] && !Space(core[0]) && !Space(core[|core| - 1])
    decreases |ps|
  {
    hide PieceText, PieceOk, Space;
    PieceEnds(ps[0]);
    if |ps| > 1 {
      PiecesEnd(ps[1..]);
      assert PieceTexts(ps)[1..] == PieceTexts(ps[1..]);
    }
  }

  lemma LineScanned(done: seq<Statement>, l: Line)
    requires LineOk(l)
    ensures ScanText(ScanStart(done), LineText(l) + ['\n']) == Ok(ScanStart(done + [LineStatement(l)]))
  {
    hide ScanText, Join, PieceOk;
    var core := CoreOf(l);
    var s := LineStart(done, l.blank);
    PiecesEnd(l.pieces);
    PiecesScanned(s, l.pieces);
    LineEnds(done, l.blank, core);
    ScanConcat(s, core, ['\n']);
    if l.blank {
      BlankScans(done);
      ScanConcat(ScanStart(done), [' '], core + ['\n']);
      assert LineText(l) + ['\n'] == [' '] + (core + ['\n']);
    } else {
      assert LineText(l) == core;
    }
  }

  function LineTexts(ls: seq<Line>): seq<string> {
    seq(|ls|, i requires 0 <= i < |ls| => LineText(ls[i]))
  }

  function LineStatements(ls: seq<Line>): seq<Statement> {
    seq(|ls|, i requires 0 <= i < |ls| => LineStatement(ls[i]))
  }

  lemma {:induction false} LinesScanned(done: seq<Statement>, ls: seq<Line>)
    requires forall i :: 0 <= i < |ls| ==> LineOk(ls[i])
    ensures ScanText(ScanStart(done), Lines(LineTexts(ls))) == Ok(ScanStart(done + LineStatements(ls)))
    decreases |ls|
  {
    hide ScanChar, LineText, LineStatement, LineOk;
    if ls == [] {
      assert done + [] == done;
    } else {
      LineScanned(done, ls[0]);
      assert LineTexts(ls)[1..] == LineTexts(ls[1..]);
      ScanConcat(ScanStart(done), LineText(ls[0]) + ['\n'], Lines(LineTexts(ls[1..])));
      LinesScanned(done + [LineStatement(ls[0])], ls[1..]);
      assert done + [LineStatement(ls[0])] + LineStatements(ls[1..]) == done + LineStatements(ls);
    }
  }

  // Every line of such a text is one statement.
  lemma LinesAreStatements(ls: seq<Line>)
    requires forall i :: 0 <= i < |ls| ==> LineOk(ls[i])
    ensures LogicalStatements(Lines(LineTexts(ls))) == Ok(LineStatements(ls))
  {
    hide ScanText, Lines, LineOk;
    var text := Lines(LineTexts(ls));
    LinesScanned([], ls);
    assert [] + LineStatements(ls) == LineStatements(ls);
    ScanConcat(ScanStart([]), text, ['\n']);
    FinalLineFeed(LineStatements(ls));
  }

  // Its tokens are what its pieces stand for.
  lemma LineTokens(l: Line)
    requires LineOk(l)
    ensures Tokenize(LineStatement(l).text) == Ok(PieceValues(l.pieces))
  {
    hide Tokenize, Reads, Word, QuotedText;
    forall i | 0 <= i < |l.pieces| ensures Reads(PieceTexts(l.pieces)[i], PieceValues(l.pieces)[i]) {
      assert PieceOk(l.pieces[i]);
      match l.pieces[i] {
        case Bare(word) => WordReads(word);
        case Quoted(value) => QuotedReads(value);
      }
    }
    JoinTokenizes(PieceTexts(l.pieces), PieceValues(l.pieces));
  }

  // ---- Comments and parentheses ----

  lemma {:induction false} CommentRuns(s: Scan, junk: string)
    requires s.comment && NoNewline(junk)
    ensures ScanText(s, junk) == Ok(s)
    decreases |junk|
  {
    if junk != [] { CommentRuns(s, junk[1..]); }
  }

  lemma CommentScans(s: Scan, junk: string)
    requires !s.quoted && !s.escaped && !s.comment && NoNewline(junk)
    ensures ScanText(s, [';'] + junk + ['\n']) == ScanText(s, ['\n'])
  {
    hide ScanText, ScanChar;
    var c := s.(comment := true);
    Text.ConcatAssociates([';'], junk, ['\n']);
    ScanConcat(s, [';'], junk + ['\n']);
    ScanOne(s, ';');
    SemicolonOpens(s);
    ScanConcat(c, junk, ['\n']);
    CommentRuns(c, junk);
    ScanOne(c, '\n');
    ScanOne(s, '\n');
    LineFeedCloses(s);
  }

  lemma SemicolonOpens(s: Scan)
    requires !s.quoted && !s.escaped && !s.comment
    ensures ScanChar(s, ';') == Ok(s.(comment := true))
  {
  }

  lemma LineFeedCloses(s: Scan)
    requires !s.comment
    ensures ScanChar(s.(comment := true), '\n') == ScanChar(s, '\n')
  {
    assert s.(comment := true).(comment := false) == s.(comment := false);
  }

  // The scan of the text so far is outside quotes and comments.
  predicate Outside(text: string) {
    var s := ScanText(ScanStart([]), text);
    s.Ok? && !s.value.quoted && !s.value.escaped && !s.value.comment
  }

  // An unquoted semicolon hides the rest of its line.
  lemma CommentIsHidden(before: string, junk: string, after: string)
    requires Outside(before) && NoNewline(junk)
    ensures LogicalStatements(before + ([';'] + junk + ['\n']) + after) == LogicalStatements(before + ['\n'] + after)
  {
    hide ScanText;
    CommentScans(ScanText(ScanStart([]), before).value, junk);
    SameScan(before, [';'] + junk + ['\n'], ['\n'], after);
  }

  // Inside parentheses, once the statement is under way, a line feed is a blank.
  lemma LineFeedIsBlank(before: string, after: string)
    requires Outside(before)
    requires var s := ScanText(ScanStart([]), before).value; s.started && s.depth > 0
    ensures LogicalStatements(before + ['\n'] + after) == LogicalStatements(before + [' '] + after)
  {
    hide ScanText;
    var s := ScanText(ScanStart([]), before).value;
    ScanOne(s, '\n');
    ScanOne(s, ' ');
    SameScan(before, ['\n'], [' '], after);
  }

  // Texts that scan alike may stand for each other.
  lemma SameScan(before: string, a: string, b: string, after: string)
    requires ScanText(ScanStart([]), before).Ok?
    requires var s := ScanText(ScanStart([]), before).value; ScanText(s, a) == ScanText(s, b)
    ensures LogicalStatements(before + a + after) == LogicalStatements(before + b + after)
  {
    hide ScanText;
    var s := ScanText(ScanStart([]), before).value;
    forall x | x == a || x == b
      ensures ScanText(ScanStart([]), before + x + after + ['\n']) ==
        match ScanText(s, x) case Err(e) => Err(e) case Ok(t) => ScanText(t, after + ['\n'])
    {
      assert before + x + after + ['\n'] == before + (x + (after + ['\n']));
      ScanConcat(ScanStart([]), before, x + (after + ['\n']));
      ScanConcat(s, x, after + ['\n']);
    }
  }
}

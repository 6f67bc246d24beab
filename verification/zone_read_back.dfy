// Printing the stored records of a zone and parsing the text: which records come back.
module ZoneReadBack {
  import opened Wrappers
  import opened Text
  import opened Names
  import opened ZoneFiles
  import opened ZoneScan
  import opened ZoneRoundTrip
  import opened ZoneRecords
  import opened ZoneNewlines
  import WireNames

  function NormalForms(rs: seq<Stored>): seq<Record> {
    seq(|rs|, i requires 0 <= i < |rs| => NormalForm(rs[i]))
  }

  function RecordStatements(rs: seq<Stored>, zone: string): seq<Statement> {
    seq(|rs|, i requires 0 <= i < |rs| => RecordStatement(rs[i], zone))
  }

  // The owner of the line before the k-th record; the SOA stands before the first.
  function OwnerBefore(rs: seq<Stored>, k: nat, zone: string): string
    requires k <= |rs|
  {
    if k == 0 then zone else NormalizeName(rs[k - 1].name)
  }

  // The k-th record comes back: it is enabled, has a TTL and numbers the parser takes, no line feed, and its owner returns.
  predicate Returns(rs: seq<Stored>, k: nat, zone: string)
    requires k < |rs|
  {
    rs[k].enabled && Prints(rs[k]) && SingleLine(rs[k]) && OwnerReturns(Some(OwnerBefore(rs, k, zone)), rs[k].name, zone)
  }

  ghost predicate AllEntered(isIp: string -> nat, rs: seq<Stored>, zone: string) {
    forall i :: 0 <= i < |rs| ==> Entered(isIp, rs[i], zone)
  }

  predicate AllTyped(rs: seq<Stored>) {
    forall i :: 0 <= i < |rs| ==> rs[i].rtype == TypeOf(rs[i].fields)
  }

  predicate AllSingleLine(rs: seq<Stored>) {
    forall i :: 0 <= i < |rs| ==> SingleLine(rs[i])
  }

  ghost predicate FirstReturn(rs: seq<Stored>, k: nat, zone: string)
    requires k <= |rs|
  {
    forall i :: 0 <= i < k ==> Returns(rs, i, zone)
  }

  // ---- Scanning ----

  lemma {:induction false} RecordsScan(isIp: string -> nat, done: seq<Statement>, rs: seq<Stored>, zone: string)
    requires AllEntered(isIp, rs, zone) && AllTyped(rs) && AllSingleLine(rs)
    ensures ScanText(ScanStart(done), Lines(RecordTexts(rs, zone))) == Ok(ScanStart(done + RecordStatements(rs, zone)))
    decreases |rs|
  {
    hide ScanChar, RecordText, RecordStatement, Accepted, LiesUnder, TypeOf;
    if rs == [] {
      assert done + [] == done;
    } else {
      var lines := RecordTexts(rs, zone);
      var line := RecordText(rs[0], zone);
      assert Entered(isIp, rs[0], zone);
      RecordScans(done, rs[0], zone);
      assert lines[0] == line && lines[1..] == RecordTexts(rs[1..], zone);
      ScanConcat(ScanStart(done), line + ['\n'], Lines(lines[1..]));
      RecordsScan(isIp, done + [RecordStatement(rs[0], zone)], rs[1..], zone);
      assert done + [RecordStatement(rs[0], zone)] + RecordStatements(rs[1..], zone) == done + RecordStatements(rs, zone);
    }
  }

  function Printed(zone: string, ttl: nat, soa: Soa, rs: seq<Stored>): string {
    Lines(Header(zone, ttl) + SoaLines(ttl, soa) + RecordTexts(rs, zone))
  }

  function Statements(zone: string, ttl: nat, soa: Soa, rs: seq<Stored>): seq<Statement> {
    HeadStatements(zone, ttl, soa) + RecordStatements(rs, zone)
  }

  lemma PrintedScans(isIp: string -> nat, zone: string, ttl: nat, soa: Soa, rs: seq<Stored>)
    requires ZoneOk(zone) && zone != "" && ttl <= MAX_TTL && SoaOk(soa)
    requires AllEntered(isIp, rs, zone) && AllTyped(rs) && AllSingleLine(rs)
    ensures ScanText(ScanStart([]), Printed(zone, ttl, soa, rs)) == Ok(ScanStart(Statements(zone, ttl, soa, rs)))
  {
    hide ScanText, SoaLines, RecordTexts, RecordStatements, HeadStatements, SoaOk, ZoneOk, Lines, AllEntered, AllTyped, AllSingleLine, Header;
    RecordsScan(isIp, HeadStatements(zone, ttl, soa), rs, zone);
    HeadScan(zone, ttl, soa, RecordTexts(rs, zone), ScanStart(Statements(zone, ttl, soa, rs)));
  }

  lemma PrintedStatements(isIp: string -> nat, zone: string, ttl: nat, soa: Soa, rs: seq<Stored>)
    requires ZoneOk(zone) && zone != "" && ttl <= MAX_TTL && SoaOk(soa)
    requires AllEntered(isIp, rs, zone) && AllTyped(rs) && AllSingleLine(rs)
    ensures LogicalStatements(Printed(zone, ttl, soa, rs)) == Ok(Statements(zone, ttl, soa, rs))
  {
    hide ScanText, Printed, Statements, SoaOk, ZoneOk, AllEntered, AllTyped, AllSingleLine;
    PrintedScans(isIp, zone, ttl, soa, rs);
    ScanConcat(ScanStart([]), Printed(zone, ttl, soa, rs), ['\n']);
    FinalLineFeed(Statements(zone, ttl, soa, rs));
  }

  // The text up to the k-th record, and the rest.
  lemma PrintedSplits(zone: string, ttl: nat, soa: Soa, rs: seq<Stored>, k: nat)
    requires k < |rs|
    ensures Printed(zone, ttl, soa, rs) ==
      Printed(zone, ttl, soa, rs[..k]) + (RecordText(rs[k], zone) + (['\n'] + Lines(RecordTexts(rs[k + 1..], zone))))
  {
    hide Lines, RecordText, Header, SoaLines;
    var head := Header(zone, ttl) + SoaLines(ttl, soa);
    var lines := head + RecordTexts(rs, zone);
    var at := |head| + k;
    LinesAround(lines, at);
    assert lines[..at] == head + RecordTexts(rs[..k], zone);
    assert lines[at] == RecordText(rs[k], zone);
    assert lines[at + 1..] == RecordTexts(rs[k + 1..], zone);
  }

  // Whatever follows, the statements of the records up to the k-th have been made.
  lemma StatementsUpTo(isIp: string -> nat, zone: string, ttl: nat, soa: Soa, rs: seq<Stored>, k: nat)
    requires ZoneOk(zone) && zone != "" && ttl <= MAX_TTL && SoaOk(soa) && k < |rs|
    requires AllEntered(isIp, rs, zone) && AllTyped(rs) && AllSingleLine(rs[..k + 1])
    ensures var r := LogicalStatements(Printed(zone, ttl, soa, rs)); r.Ok? ==> Statements(zone, ttl, soa, rs[..k + 1]) <= r.value
  {
    hide ScanText, Printed, Statements, SoaOk, ZoneOk, RecordText, Lines, RecordTexts, SingleLine, Entered, TypeOf;
    var front := rs[..k + 1];
    PrintedScans(isIp, zone, ttl, soa, front);
    PrintedSplits(zone, ttl, soa, rs, k);
    PrintedSplits(zone, ttl, soa, front, k);
    assert front[..k] == rs[..k] && front[k + 1..] == [];
    NoLines();
    var done := Printed(zone, ttl, soa, rs[..k]);
    var line := RecordText(rs[k], zone);
    var tail := Lines(RecordTexts(rs[k + 1..], zone));
    NoRecordTexts(zone);
    assert Printed(zone, ttl, soa, front) == done + (line + ['\n']) by { assert ['\n'] + [] == ['\n']; }
    assert Printed(zone, ttl, soa, rs) + ['\n'] == Printed(zone, ttl, soa, front) + (tail + ['\n']);
    ScanConcat(ScanStart([]), Printed(zone, ttl, soa, front), tail + ['\n']);
    StatementsGrow(ScanStart(Statements(zone, ttl, soa, front)), tail + ['\n']);
  }

  lemma NoLines()
    ensures Lines([]) == []
  {
  }

  lemma NoRecordTexts(zone: string)
    ensures RecordTexts([], zone) == []
  {
  }

  // A line feed in the text of the k-th record leaves a statement without tokens.
  lemma NewlineUpTo(isIp: string -> nat, zone: string, ttl: nat, soa: Soa, rs: seq<Stored>, k: nat)
    requires ZoneOk(zone) && zone != "" && ttl <= MAX_TTL && SoaOk(soa) && k < |rs|
    requires AllEntered(isIp, rs, zone) && AllTyped(rs) && AllSingleLine(rs[..k]) && !SingleLine(rs[k])
    ensures var r := LogicalStatements(Printed(zone, ttl, soa, rs));
      r.Ok? ==> ParseStatements(State(zone, 300, None, None, []), zone, r.value).Err?
  {
    hide ScanText, Printed, Statements, SoaOk, ZoneOk, RecordText, Lines, RecordTexts, TypeOf, ParseStatements, Accepted, LiesUnder,
      RelativeName, Tokenize, NoNewline;
    var done := Statements(zone, ttl, soa, rs[..k]);
    PrintedScans(isIp, zone, ttl, soa, rs[..k]);
    PrintedSplits(zone, ttl, soa, rs, k);
    assert Entered(isIp, rs[k], zone);
    var first, rest, text := NewlineRecord(done, rs[k], zone);
    var printed := Printed(zone, ttl, soa, rs[..k]);
    var tail := rest + (['\n'] + Lines(RecordTexts(rs[k + 1..], zone))) + ['\n'];
    assert Printed(zone, ttl, soa, rs) + ['\n'] == printed + (first + tail);
    ScanConcat(ScanStart([]), printed, first + tail);
    ScanConcat(ScanStart(done), first, tail);
    var s := ScanText(ScanStart(done), first).value;
    StatementsGrow(s, tail);
    var r := LogicalStatements(Printed(zone, ttl, soa, rs));
    if r.Ok? {
      assert s.statements <= r.value;
      assert r.value[|done|] == s.statements[|done|];
      BadStatementFails(State(zone, 300, None, None, []), zone, r.value, |done|);
    }
  }

  // ---- Parsing ----

  lemma EnteredOwner(isIp: string -> nat, r: Stored, zone: string)
    requires Entered(isIp, r, zone)
    ensures Spelled(r.name) && LiesUnder(r.name, zone)
  {
  }

  lemma PrintsTtl(r: Stored)
    requires Prints(r)
    ensures r.ttl.Some? && NormalForm(r) == Record(NormalizeName(r.name), r.ttl.value, NormalData(r.fields), r.enabled)
  {
    hide FieldsPrint, NormalizeName, NormalData;
  }

  // What parsing a record adds; it is the record exactly when it prints and its owner returns.
  lemma ReturnedParses(isIp: string -> nat, s: State, r: Stored, zone: string)
    requires Entered(isIp, r, zone) && r.rtype == TypeOf(r.fields) && ZoneOk(zone) && zone != "" && s.origin == zone
    ensures var p := ParseStatement(s, zone, RecordStatement(r, zone)); var n := NormalForm(r);
      && (r.enabled && Prints(r) && OwnerReturns(s.owner, r.name, zone) ==>
            p == Ok(s.(owner := Some(NormalizeName(r.name)), records := s.records + [n])))
      && (p.Ok? ==>
            exists last :: p.value.records == s.records + [last] && (last == n ==> r.enabled && Prints(r) && OwnerReturns(s.owner, r.name, zone)))
  {
    hide ParseStatement, RecordStatement, ZoneOk, Entered, TypeOf, Prints, ReadOwner, NormalizeName, NormalData, NormalForm,
      OwnerReturns;
    StatementReads(s, isIp, r, zone);
    EnteredOwner(isIp, r, zone);
    OwnerReadsExactly(s.owner, r.name, zone);
    if Prints(r) { PrintsTtl(r); }
  }

  lemma {:induction false} ReturnedFold(isIp: string -> nat, zone: string, ttl: nat, soa: Soa, rs: seq<Stored>, k: nat)
    requires k <= |rs| && AllEntered(isIp, rs, zone) && AllTyped(rs) && ZoneOk(zone) && zone != ""
    requires FirstReturn(rs, k, zone)
    ensures ParseStatements(HeadState(zone, ttl, soa), zone, RecordStatements(rs[..k], zone)) ==
      Ok(HeadState(zone, ttl, soa).(owner := Some(OwnerBefore(rs, k, zone)), records := NormalForms(rs[..k])))
  {
    hide ParseStatement, RecordStatement, ZoneOk, Entered, TypeOf, NormalForm, OwnerReturns, Prints, SingleLine;
    if k > 0 {
      var n := k - 1;
      ReturnedFold(isIp, zone, ttl, soa, rs, n);
      var s := HeadState(zone, ttl, soa).(owner := Some(OwnerBefore(rs, n, zone)), records := NormalForms(rs[..n]));
      assert RecordStatements(rs[..k], zone) == RecordStatements(rs[..n], zone) + [RecordStatement(rs[n], zone)];
      OneMoreStatement(HeadState(zone, ttl, soa), zone, RecordStatements(rs[..n], zone), RecordStatement(rs[n], zone));
      assert Entered(isIp, rs[n], zone) && Returns(rs, n, zone);
      ReturnedParses(isIp, s, rs[n], zone);
      assert NormalForms(rs[..n]) + [NormalForm(rs[n])] == NormalForms(rs[..k]);
      assert OwnerBefore(rs, k, zone) == NormalizeName(rs[n].name);
    } else {
      assert RecordStatements(rs[..0], zone) == [] && NormalForms(rs[..0]) == [];
    }
  }

  lemma OneMoreStatement(s: State, zone: string, statements: seq<Statement>, last: Statement)
    requires ParseStatements(s, zone, statements).Ok?
    ensures ParseStatements(s, zone, statements + [last]) == ParseStatement(ParseStatements(s, zone, statements).value, zone, last)
  {
    hide ParseStatement;
    assert (statements + [last])[..|statements|] == statements;
  }

  lemma {:induction false} RecordsOnlyGrow(s: State, zone: string, statements: seq<Statement>, n: nat)
    requires n <= |statements| && ParseStatements(s, zone, statements).Ok?
    ensures var p := ParseStatements(s, zone, statements[..n]);
      p.Ok? && p.value.records <= ParseStatements(s, zone, statements).value.records
    decreases |statements|
  {
    hide ParseStatement;
    if n == |statements| {
      assert statements[..n] == statements;
    } else {
      var m := |statements| - 1;
      var front := statements[..m];
      assert front[..n] == statements[..n];
      OneStatementGrows(ParseStatements(s, zone, front).value, zone, statements[m]);
      RecordsOnlyGrow(s, zone, front, n);
    }
  }

  lemma OneStatementGrows(s: State, zone: string, statement: Statement)
    requires ParseStatement(s, zone, statement).Ok?
    ensures s.records <= ParseStatement(s, zone, statement).value.records
  {
    hide Tokenize, TtlAndClass, SoaData, RecordData, OwnerName, Integer, Upper;
  }

  // ---- The whole zone ----

  lemma FirstSingleLine(rs: seq<Stored>, k: nat, zone: string)
    requires k <= |rs| && FirstReturn(rs, k, zone)
    ensures AllSingleLine(rs[..k]) && (k < |rs| && SingleLine(rs[k]) ==> AllSingleLine(rs[..k + 1]))
  {
    hide Prints, SingleLine, OwnerReturns;
    assert forall i :: 0 <= i < k ==> Returns(rs, i, zone) ==> SingleLine(rs[..k][i]);
  }

  lemma AllReturnReads(isIp: string -> nat, zone: string, ttl: nat, soa: Soa, rs: seq<Stored>)
    requires ZoneOk(zone) && zone != "" && ttl <= MAX_TTL && SoaOk(soa)
    requires AllEntered(isIp, rs, zone) && AllTyped(rs) && FirstReturn(rs, |rs|, zone)
    ensures ReadZoneFile(isIp, Printed(zone, ttl, soa, rs), zone) == Ok(Zone(zone, ttl, Some(soa), NormalForms(rs)))
  {
    hide LogicalStatements, ParseStatements, Printed, HeadStatements, RecordStatements, SoaOk, ZoneOk, TypeOf, Storable, NormalForm,
      OwnerReturns, Prints, SingleLine, NormalizeDomainName;
    ZoneIsGiven(zone);
    FirstSingleLine(rs, |rs|, zone);
    assert rs[..|rs|] == rs;
    PrintedStatements(isIp, zone, ttl, soa, rs);
    HeadParses(zone, ttl, soa);
    ParseConcat(State(zone, 300, None, None, []), zone, HeadStatements(zone, ttl, soa), RecordStatements(rs, zone));
    assert rs[..|rs|] == rs;
    ReturnedFold(isIp, zone, ttl, soa, rs, |rs|);
    forall i | 0 <= i < |rs| ensures Storable(isIp, NormalForms(rs)[i]) { assert Entered(isIp, rs[i], zone); }
  }

  // The state ahead of the first record that does not return, and what its statement makes of it.
  lemma UpToFirst(isIp: string -> nat, zone: string, ttl: nat, soa: Soa, rs: seq<Stored>, k: nat)
    requires ZoneOk(zone) && zone != "" && ttl <= MAX_TTL && SoaOk(soa) && k < |rs|
    requires AllEntered(isIp, rs, zone) && AllTyped(rs) && FirstReturn(rs, k, zone) && SingleLine(rs[k])
    ensures var read := ReadZoneFile(isIp, Printed(zone, ttl, soa, rs), zone);
      var s := HeadState(zone, ttl, soa).(owner := Some(OwnerBefore(rs, k, zone)), records := NormalForms(rs[..k]));
      var p := ParseStatement(s, zone, RecordStatement(rs[k], zone));
      read.Ok? ==> p.Ok? && p.value.records <= read.value.records
  {
    hide LogicalStatements, ParseStatement, Printed, HeadStatements, SoaOk, ZoneOk, TypeOf, Storable, NormalForm, RecordStatement,
      OwnerReturns, Prints, SingleLine, NormalizeDomainName, Entered;
    var start := State(zone, 300, None, None, []);
    ZoneIsGiven(zone);
    FirstSingleLine(rs, k, zone);
    StatementsUpTo(isIp, zone, ttl, soa, rs, k);
    var read := ReadZoneFile(isIp, Printed(zone, ttl, soa, rs), zone);
    if read.Ok? {
      var all := LogicalStatements(Printed(zone, ttl, soa, rs)).value;
      var upTo := Statements(zone, ttl, soa, rs[..k + 1]);
      assert all[..|upTo|] == upTo;
      RecordsOnlyGrow(start, zone, all, |upTo|);
      HeadParses(zone, ttl, soa);
      ParseConcat(start, zone, HeadStatements(zone, ttl, soa), RecordStatements(rs[..k + 1], zone));
      ReturnedFold(isIp, zone, ttl, soa, rs, k);
      var records := RecordStatements(rs[..k + 1], zone);
      assert records[..k] == RecordStatements(rs[..k], zone) && records[k] == RecordStatement(rs[k], zone);
    }
  }

  // If every record comes back, then every record before the k-th and the k-th meet the condition.
  lemma {:induction false} ReadBackReturns(isIp: string -> nat, zone: string, ttl: nat, soa: Soa, rs: seq<Stored>, k: nat)
    requires ZoneOk(zone) && zone != "" && ttl <= MAX_TTL && SoaOk(soa) && k <= |rs|
    requires AllEntered(isIp, rs, zone) && AllTyped(rs)
    requires var read := ReadZoneFile(isIp, Printed(zone, ttl, soa, rs), zone); read.Ok? && read.value.records == NormalForms(rs)
    ensures FirstReturn(rs, k, zone)
  {
    hide ReadZoneFile, Printed, SoaOk, ZoneOk, Entered, TypeOf, NormalForm, OwnerReturns, Prints, SingleLine, ParseStatement, RecordStatement;
    if k > 0 {
      var n := k - 1;
      ReadBackReturns(isIp, zone, ttl, soa, rs, n);
      if !SingleLine(rs[n]) { NewlineIsUnreadable(isIp, zone, ttl, soa, rs, n); }
      UpToFirst(isIp, zone, ttl, soa, rs, n);
      var s := HeadState(zone, ttl, soa).(owner := Some(OwnerBefore(rs, n, zone)), records := NormalForms(rs[..n]));
      assert Entered(isIp, rs[n], zone) && rs[n].rtype == TypeOf(rs[n].fields);
      ReturnedParses(isIp, s, rs[n], zone);
      var p := ParseStatement(s, zone, RecordStatement(rs[n], zone)).value;
      assert p.records[n] == NormalForms(rs)[n];
    }
  }

  lemma NewlineIsUnreadable(isIp: string -> nat, zone: string, ttl: nat, soa: Soa, rs: seq<Stored>, k: nat)
    requires ZoneOk(zone) && zone != "" && ttl <= MAX_TTL && SoaOk(soa) && k < |rs|
    requires AllEntered(isIp, rs, zone) && AllTyped(rs) && FirstReturn(rs, k, zone) && !SingleLine(rs[k])
    ensures ReadZoneFile(isIp, Printed(zone, ttl, soa, rs), zone).Err?
  {
    hide LogicalStatements, ParseStatements, Printed, SoaOk, ZoneOk, TypeOf, Storable, OwnerReturns, Prints, SingleLine, NormalizeDomainName, Entered;
    ZoneIsGiven(zone);
    FirstSingleLine(rs, k, zone);
    NewlineUpTo(isIp, zone, ttl, soa, rs, k);
  }

  // ---- Main results ----

  // Ordering records keeps each of them, as often as it occurs.
  ghost predicate Permutes<T(!new)>(sort: seq<T> -> seq<T>) {
    forall s :: multiset(sort(s)) == multiset(s)
  }

  lemma OrderedMember<T(!new)>(sort: seq<T> -> seq<T>, s: seq<T>, i: nat)
    requires Permutes(sort) && i < |sort(s)|
    ensures sort(s)[i] in s
  {
    assert sort(s)[i] in multiset(sort(s));
  }

  lemma DirectEntered(isIp: string -> nat, order: seq<Stored> -> seq<Stored>, zone: string, direct: seq<Stored>)
    requires Permutes(order) && AllEntered(isIp, direct, zone)
    ensures AllEntered(isIp, order(direct), zone)
  {
    hide Entered, Permutes;
    var rs := order(direct);
    forall i | 0 <= i < |rs| ensures Entered(isIp, rs[i], zone) {
      OrderedMember(order, direct, i);
    }
  }

  lemma ExportIsPrinted(order: seq<Stored> -> seq<Stored>, zone: string, ttl: nat, soa: Soa, records: seq<Stored>)
    ensures var rs := order(InZone(records, zone)); var file := ExportZoneFile(order, zone, ttl, soa, records);
      (file.Ok? <==> AllTyped(rs)) && (file.Ok? ==> file.value == Printed(zone, ttl, soa, rs))
  {
    hide Lines, SoaLines, RecordTexts, AbsoluteName, Dec, TypeOf, InZone;
  }

  // Reading a printed zone gives back what was printed, in the order of the file, exactly when every type is in
  // capitals and every record returns.
  lemma PrintedReadsBackExactly(isIp: string -> nat, order: seq<Stored> -> seq<Stored>, zone: string, ttl: nat, soa: Soa, records: seq<Stored>)
    requires Permutes(order) && ZoneOk(zone) && ttl <= MAX_TTL && SoaOk(soa) && AllEntered(isIp, InZone(records, zone), zone)
    ensures var rs := order(InZone(records, zone)); var file := ExportZoneFile(order, zone, ttl, soa, records);
      (file.Ok? && ReadZoneFile(isIp, file.value, zone) == Ok(Zone(zone, ttl, Some(soa), NormalForms(rs))))
      <==> AllTyped(rs) && FirstReturn(rs, |rs|, zone)
  {
    hide ReadZoneFile, ExportZoneFile, Printed, SoaOk, ZoneOk, AllEntered, AllTyped, NormalForms, FirstReturn, InZone, Permutes;
    var rs := order(InZone(records, zone));
    ZoneIsGiven(zone);
    DirectEntered(isIp, order, zone, InZone(records, zone));
    ExportIsPrinted(order, zone, ttl, soa, records);
    if AllTyped(rs) {
      if FirstReturn(rs, |rs|, zone) { AllReturnReads(isIp, zone, ttl, soa, rs); }
      if ReadZoneFile(isIp, Printed(zone, ttl, soa, rs), zone) == Ok(Zone(zone, ttl, Some(soa), NormalForms(rs))) {
        ReadBackReturns(isIp, zone, ttl, soa, rs, |rs|);
      }
    }
  }

  lemma NormalFormsConcat(a: seq<Stored>, b: seq<Stored>)
    ensures NormalForms(a + b) == NormalForms(a) + NormalForms(b)
  {
    hide NormalForm;
  }

  lemma NormalFormsOfOne(r: Stored)
    ensures NormalForms([r]) == [NormalForm(r)]
  {
    hide NormalForm;
  }

  lemma TakeOut<T>(tail: seq<T>, b: seq<T>, x: T) returns (before: seq<T>, after: seq<T>)
    requires multiset([x] + tail) == multiset(b)
    ensures b == before + ([x] + after) && multiset(tail) == multiset(before + after)
  {
    assert x in multiset([x] + tail);
    var k :| 0 <= k < |b| && b[k] == x;
    before, after := b[..k], b[k + 1..];
    assert b == before + ([x] + after);
    assert multiset(b) == multiset{x} + multiset(before + after);
    CancelOne(multiset(tail), multiset(before + after), x);
  }

  lemma CancelOne<T>(a: multiset<T>, b: multiset<T>, x: T)
    requires multiset{x} + a == multiset{x} + b
    ensures a == b
  {
    assert a == (multiset{x} + a) - multiset{x} && b == (multiset{x} + b) - multiset{x};
  }

  lemma {:induction false} NormalFormsPermute(a: seq<Stored>, b: seq<Stored>)
    requires multiset(a) == multiset(b)
    ensures multiset(NormalForms(a)) == multiset(NormalForms(b))
    decreases |a|
  {
    hide NormalForms;
    if a == [] {
      assert |b| == |multiset(b)| == 0;
    } else {
      var x, tail := a[0], a[1..];
      assert a == [x] + tail;
      var before, after := TakeOut(tail, b, x);
      NormalFormsPermute(tail, before + after);
      NormalFormsOfOne(x);
      NormalFormsConcat([x], tail);
      NormalFormsConcat(before, [x] + after);
      NormalFormsConcat([x], after);
      NormalFormsConcat(before, after);
    }
  }

  // ---- Records the exporter drops ----

  // The zone's records as classifyDomain has them: the name normalized twice.
  function Direct(records: seq<Stored>, zone: string): seq<Stored> {
    if records == [] then []
    else
      var r := records[|records| - 1];
      Direct(records[..|records| - 1], zone) + if LiesUnder(r.name, zone) then [r] else []
  }

  // The exporter finds all of them, since none has two final dots.
  predicate NoneDropped(rs: seq<Stored>, zone: string) {
    forall i :: 0 <= i < |rs| ==> BelongsTo(rs[i].name, zone)
  }

  lemma {:induction false} DroppedExactly(records: seq<Stored>, zone: string)
    requires Normal(zone) && zone != ""
    ensures InZone(records, zone) == Direct(records, zone) <==> NoneDropped(Direct(records, zone), zone)
    ensures |InZone(records, zone)| <= |Direct(records, zone)|
    ensures InZone(records, zone) != Direct(records, zone) ==> |InZone(records, zone)| < |Direct(records, zone)|
    ensures forall r :: r in InZone(records, zone) ==> r in Direct(records, zone)
  {
    hide BelongsTo, LiesUnder;
    if records != [] {
      var front, r := records[..|records| - 1], records[|records| - 1];
      DroppedExactly(front, zone);
      OnceIsTwice(r.name, zone);
      if BelongsTo(r.name, zone) {
        DropsLast(Direct(front, zone), r, zone);
      } else if LiesUnder(r.name, zone) {
        assert Direct(records, zone)[|Direct(front, zone)|] == r;
      }
    }
  }

  lemma DropsLast(rs: seq<Stored>, r: Stored, zone: string)
    requires BelongsTo(r.name, zone)
    ensures NoneDropped(rs + [r], zone) <==> NoneDropped(rs, zone)
  {
    hide BelongsTo;
    forall i | 0 <= i < |rs| ensures (rs + [r])[i] == rs[i] {}
  }

  // A name in the zone when normalized once is in it when normalized twice.
  lemma OnceIsTwice(name: string, zone: string)
    requires Normal(zone) && zone != ""
    ensures BelongsTo(name, zone) ==> LiesUnder(name, zone)
  {
    NormalIsLower(zone);
    NormalizedIsLower(name);
    var n := NormalizeName(name);
    if BelongsTo(name, zone) {
      UnderByIndex(n, zone);
      assert n[|n| - |zone|..][|zone| - 1] == zone[|zone| - 1];
    }
  }

  lemma {:induction false} OneRecordEach(s: State, zone: string, statements: seq<Statement>)
    requires ParseStatements(s, zone, statements).Ok?
    ensures |ParseStatements(s, zone, statements).value.records| <= |s.records| + |statements|
  {
    hide ParseStatement;
    if statements != [] {
      var front := statements[..|statements| - 1];
      OneRecordEach(s, zone, front);
      OneRecordAtMost(ParseStatements(s, zone, front).value, zone, statements[|statements| - 1]);
    }
  }

  lemma OneRecordAtMost(s: State, zone: string, statement: Statement)
    requires ParseStatement(s, zone, statement).Ok?
    ensures |ParseStatement(s, zone, statement).value.records| <= |s.records| + 1
  {
    hide Tokenize, TtlAndClass, SoaData, RecordData, OwnerName, Integer, Upper;
  }

  // A printed zone never gives back more records than were printed.
  lemma ReadsNoMore(isIp: string -> nat, zone: string, ttl: nat, soa: Soa, rs: seq<Stored>)
    requires ZoneOk(zone) && zone != "" && ttl <= MAX_TTL && SoaOk(soa) && AllEntered(isIp, rs, zone) && AllTyped(rs)
    ensures var read := ReadZoneFile(isIp, Printed(zone, ttl, soa, rs), zone); read.Ok? ==> |read.value.records| <= |rs|
  {
    hide LogicalStatements, ParseStatements, Printed, SoaOk, ZoneOk, TypeOf, Storable, SingleLine, NormalizeDomainName, Entered,
      RecordStatement, HeadStatements;
    ZoneIsGiven(zone);
    if AllSingleLine(rs) {
      PrintedStatements(isIp, zone, ttl, soa, rs);
      HeadParses(zone, ttl, soa);
      ParseConcat(State(zone, 300, None, None, []), zone, HeadStatements(zone, ttl, soa), RecordStatements(rs, zone));
      if ParseStatements(HeadState(zone, ttl, soa), zone, RecordStatements(rs, zone)).Ok? {
        OneRecordEach(HeadState(zone, ttl, soa), zone, RecordStatements(rs, zone));
      }
    } else {
      var k := FirstOfSeveralLines(rs, |rs|);
      NewlineUpTo(isIp, zone, ttl, soa, rs, k);
    }
  }

  lemma {:induction false} FirstOfSeveralLines(rs: seq<Stored>, n: nat) returns (k: nat)
    requires n <= |rs| && !AllSingleLine(rs[..n])
    ensures k < n && !SingleLine(rs[k]) && AllSingleLine(rs[..k])
  {
    hide SingleLine;
    if AllSingleLine(rs[..n - 1]) {
      k := n - 1;
      forall i | 0 <= i < n - 1 ensures SingleLine(rs[..n][i]) { assert SingleLine(rs[..n - 1][i]); }
    } else {
      k := FirstOfSeveralLines(rs, n - 1);
    }
  }

  // Main result: reading a printed zone gives back, in the order of the file, the SOA, the default TTL and every record
  // of the zone in normal form, exactly when none has two final dots, every type is in capitals and every record returns.
  lemma ExportReadsBackExactly(isIp: string -> nat, order: seq<Stored> -> seq<Stored>, zone: string, ttl: nat, soa: Soa, records: seq<Stored>)
    requires Permutes(order) && ZoneOk(zone) && ttl <= MAX_TTL && SoaOk(soa) && AllEntered(isIp, Direct(records, zone), zone)
    ensures var rs := order(Direct(records, zone)); var file := ExportZoneFile(order, zone, ttl, soa, records);
      (file.Ok? && ReadZoneFile(isIp, file.value, zone) == Ok(Zone(zone, ttl, Some(soa), NormalForms(rs))))
      <==> NoneDropped(Direct(records, zone), zone) && AllTyped(rs) && FirstReturn(rs, |rs|, zone)
  {
    hide ReadZoneFile, ExportZoneFile, Printed, SoaOk, ZoneOk, Entered, AllTyped, NormalForm, FirstReturn, InZone, Direct, Permutes, NoneDropped;
    ZoneIsGiven(zone);
    ZoneIsNormal(zone);
    DroppedExactly(records, zone);
    var printed := order(InZone(records, zone));
    if InZone(records, zone) == Direct(records, zone) {
      PrintedReadsBackExactly(isIp, order, zone, ttl, soa, records);
    } else {
      SameLength(order, InZone(records, zone));
      SameLength(order, Direct(records, zone));
      ExportIsPrinted(order, zone, ttl, soa, records);
      forall i | 0 <= i < |InZone(records, zone)| ensures Entered(isIp, InZone(records, zone)[i], zone) {
        assert InZone(records, zone)[i] in Direct(records, zone);
      }
      DirectEntered(isIp, order, zone, InZone(records, zone));
      if AllTyped(printed) { ReadsNoMore(isIp, zone, ttl, soa, printed); }
    }
  }

  lemma ZoneIsNormal(zone: string)
    requires ZoneOk(zone)
    ensures Normal(zone)
  {
  }

  lemma SameLength(order: seq<Stored> -> seq<Stored>, rs: seq<Stored>)
    requires Permutes(order)
    ensures |order(rs)| == |rs|
  {
    assert |multiset(order(rs))| == |multiset(rs)|;
  }

  // Then parsing gives the same records, as often as each occurs, whatever quotes, backslashes, semicolons and
  // parentheses their texts hold.
  lemma ExportThenParse(isIp: string -> nat, order: seq<Stored> -> seq<Stored>, sort: seq<Record> -> seq<Record>, zone: string,
                        ttl: nat, soa: Soa, records: seq<Stored>)
    requires Permutes(order) && Permutes(sort) && ZoneOk(zone) && ttl <= MAX_TTL && SoaOk(soa)
    requires AllEntered(isIp, Direct(records, zone), zone) && NoneDropped(Direct(records, zone), zone)
    requires var rs := order(Direct(records, zone)); AllTyped(rs) && FirstReturn(rs, |rs|, zone)
    ensures var file := ExportZoneFile(order, zone, ttl, soa, records);
      && file.Ok?
      && var parsed := ParseZoneFile(isIp, sort, file.value, zone);
      && parsed.Ok? && parsed.value.origin == zone && parsed.value.defaultTtl == ttl && parsed.value.soa == Some(soa)
      && multiset(parsed.value.records) == multiset(NormalForms(Direct(records, zone)))
  {
    hide ReadZoneFile, ExportZoneFile, Printed, SoaOk, ZoneOk, AllEntered, AllTyped, NormalForms, FirstReturn, Direct, NoneDropped;
    ExportReadsBackExactly(isIp, order, zone, ttl, soa, records);
    NormalFormsPermute(order(Direct(records, zone)), Direct(records, zone));
  }

  // ---- Inputs that do not come back ----

  function Text0(name: string, ttl: Option<nat>): Stored {
    Stored(name, "TXT", ttl, TxtOf(""), true)
  }

  const EXAMPLE_SOA := Soa("o", "o", 1, 1, 1, 1, 1)

  lemma ExampleZone()
    ensures ZoneOk("o") && SoaOk(EXAMPLE_SOA)
  {
    assert NormalizeName("o") == "o" && Trim("o") == "o";
    SplitOfPart("o", '.');
    WireNames.EncodesExactly("o");
  }

  lemma ExampleEntered(isIp: string -> nat, name: string, ttl: Option<nat>)
    requires Spelled(name) && LiesUnder(name, "o") && NormalizeName(name) != "" && (ttl.Some? ==> ttl.value <= MAX_TTL)
    ensures Entered(isIp, Text0(name, ttl), "o") && SingleLine(Text0(name, ttl))
  {
    CapitalsAreWord("TXT");
  }

  // The first record already makes the file unreadable.
  lemma FirstIsUnreadable(isIp: string -> nat, r: Stored)
    requires Entered(isIp, r, "o") && SingleLine(r) && r.rtype == TypeOf(r.fields)
    requires !Prints(r) || ReadOwner(Some("o"), r.name, "o").Err?
    ensures ReadZoneFile(isIp, Printed("o", 300, EXAMPLE_SOA, [r]), "o").Err?
  {
    hide ReadZoneFile, Printed, Prints, ReadOwner, Entered, TypeOf, SingleLine, ParseStatement, RecordStatement;
    ExampleZone();
    var rs := [r];
    UpToFirst(isIp, "o", 300, EXAMPLE_SOA, rs, 0);
    var s := HeadState("o", 300, EXAMPLE_SOA).(owner := Some("o"), records := []);
    assert NormalForms(rs[..0]) == [];
    StatementReads(s, isIp, r, "o");
  }

  // "w.o." in the zone "o" is printed as "w.", which lies outside.
  lemma FinalDotIsOutside(isIp: string -> nat)
    ensures ReadZoneFile(isIp, Printed("o", 300, EXAMPLE_SOA, [Text0("w.o.", Some(300))]), "o").Err?
  {
    hide ReadZoneFile, Printed, Entered, ReadOwner;
    DottedNames();
    ExampleEntered(isIp, "w.o.", Some(300));
    FirstIsUnreadable(isIp, Text0("w.o.", Some(300)));
  }

  lemma DottedNames()
    ensures LiesUnder("w.o.", "o") && NormalizeName("w.o.") == "w.o" && ReadOwner(Some("o"), "w.o.", "o").Err?
  {
    var once := "w.o.";
    assert once[..3] == "w.o" && Lower("w.o") == "w.o" && "w.o"[1..] == ['.'] + "o";
    assert RelativeName("w.o.", "o") == "w." && "w."[..1] == "w" && Lower("w") == "w";
    assert NormalizeName("w.") == "w";
    assert !Under("w", "o");
  }

  // "w.o.." in the zone "o" belongs to it, but is not printed.
  lemma TwoFinalDotsAreDropped()
    ensures Direct([Text0("w.o..", Some(300))], "o") == [Text0("w.o..", Some(300))] && InZone([Text0("w.o..", Some(300))], "o") == []
  {
    hide BelongsTo, LiesUnder;
    TwiceDotted();
    var r := Text0("w.o..", Some(300));
    assert [r][..0] == [] && Direct([], "o") == [] && InZone([], "o") == [];
  }

  lemma TwiceDotted()
    ensures LiesUnder("w.o..", "o") && !BelongsTo("w.o..", "o")
  {
    SmallLetters();
    hide Lower, EndsWith;
    DottedOnce("w.o..", "w.o.");
    DottedOnce("w.o.", "w.o");
    UnderByIndex("w.o", "o");
    UnderByIndex("w.o.", "o");
  }

  lemma SmallLetters()
    ensures Lower("w.o.") == "w.o." && Lower("w.o") == "w.o"
  {
  }

  lemma DottedOnce(name: string, rest: string)
    requires name == rest + ['.'] && rest != "" && Lower(rest) == rest
    ensures NormalizeName(name) == rest
  {
    hide Lower;
    assert name[..|name| - 1] == rest;
  }

  // A record stored without a TTL.
  lemma MissingTtlIsUnreadable(isIp: string -> nat)
    ensures ReadZoneFile(isIp, Printed("o", 300, EXAMPLE_SOA, [Text0("o", None)]), "o").Err?
  {
    assert NormalizeName("o") == "o";
    ExampleEntered(isIp, "o", None);
    FirstIsUnreadable(isIp, Text0("o", None));
  }

  // A mail exchange stored without a priority.
  lemma MissingPriorityIsUnreadable(isIp: string -> nat)
    ensures ReadZoneFile(isIp, Printed("o", 300, EXAMPLE_SOA, [Stored("o", "MX", Some(300), MxOf(None, "o"), true)]), "o").Err?
  {
    assert NormalizeName("o") == "o";
    CapitalsAreWord("MX");
    FirstIsUnreadable(isIp, Stored("o", "MX", Some(300), MxOf(None, "o"), true));
  }

  // A text of a line feed.
  lemma LineFeedIsUnreadable(isIp: string -> nat)
    ensures ReadZoneFile(isIp, Printed("o", 300, EXAMPLE_SOA, [Stored("o", "TXT", Some(300), TxtOf("\n"), true)]), "o").Err?
  {
    hide ReadZoneFile, Printed, ZoneOk, SoaOk;
    var r := Stored("o", "TXT", Some(300), TxtOf("\n"), true);
    assert NormalizeName("o") == "o";
    CapitalsAreWord("TXT");
    ExampleZone();
    assert r.fields.value[0] == '\n';
    NewlineIsUnreadable(isIp, "o", 300, EXAMPLE_SOA, [r], 0);
  }

  lemma TextReads(s: State, isIp: string -> nat, name: string, owner: string)
    requires Entered(isIp, Text0(name, Some(300)), "o") && s.origin == "o" && ReadOwner(s.owner, name, "o") == Ok(owner)
    ensures ParseStatement(s, "o", RecordStatement(Text0(name, Some(300)), "o")) ==
      Ok(s.(owner := Some(owner), records := s.records + [Record(owner, 300, Txt(""), true)]))
  {
    hide Entered, ParseStatement, RecordStatement, ReadOwner;
    StatementReads(s, isIp, Text0(name, Some(300)), "o");
  }

  lemma TwoParse(s: State, zone: string, a: Statement, b: Statement, t: State)
    requires ParseStatement(s, zone, a) == Ok(t)
    ensures ParseStatements(s, zone, [a, b]) == ParseStatement(t, zone, b)
  {
    hide ParseStatement;
    assert [a, b][..1] == [a] && [a][..0] == [];
    assert ParseStatements(s, zone, [a]) == Ok(t);
  }

  lemma TwoRead(isIp: string -> nat, a: Stored, b: Stored, ra: Record, rb: Record)
    requires Entered(isIp, a, "o") && Entered(isIp, b, "o") && AllTyped([a, b]) && AllSingleLine([a, b])
    requires var s := HeadState("o", 300, EXAMPLE_SOA); var t := s.(owner := Some(ra.name), records := [ra]);
      && ParseStatement(s, "o", RecordStatement(a, "o")) == Ok(t)
      && ParseStatement(t, "o", RecordStatement(b, "o")) == Ok(t.(owner := Some(rb.name), records := [ra, rb]))
    requires Storable(isIp, ra) && Storable(isIp, rb)
    ensures ReadZoneFile(isIp, Printed("o", 300, EXAMPLE_SOA, [a, b]), "o") == Ok(Zone("o", 300, Some(EXAMPLE_SOA), [ra, rb]))
  {
    hide Entered, ParseStatement, RecordStatement, Storable, LogicalStatements, Printed, HeadStatements, ZoneOk, SoaOk, NormalizeDomainName,
      AllTyped, AllSingleLine;
    ExampleZone();
    ZoneIsGiven("o");
    PrintedStatements(isIp, "o", 300, EXAMPLE_SOA, [a, b]);
    HeadParses("o", 300, EXAMPLE_SOA);
    ParseConcat(State("o", 300, None, None, []), "o", HeadStatements("o", 300, EXAMPLE_SOA), RecordStatements([a, b], "o"));
    assert RecordStatements([a, b], "o") == [RecordStatement(a, "o"), RecordStatement(b, "o")];
    var s := HeadState("o", 300, EXAMPLE_SOA);
    TwoParse(s, "o", RecordStatement(a, "o"), RecordStatement(b, "o"), s.(owner := Some(ra.name), records := [ra]));
  }

  // The apex spelled "O" prints no owner, and its record goes to the record before it.
  lemma ApexMovesAway(isIp: string -> nat)
    ensures ReadZoneFile(isIp, Printed("o", 300, EXAMPLE_SOA, [Text0("x.o", Some(300)), Text0("O", Some(300))]), "o") ==
      Ok(Zone("o", 300, Some(EXAMPLE_SOA), [Record("x.o", 300, Txt(""), true), Record("x.o", 300, Txt(""), true)]))
  {
    hide Entered, ParseStatement, RecordStatement, ReadZoneFile, Printed, ReadOwner, NormalizeName, LiesUnder, Spelled, Storable, AllTyped,
      AllSingleLine;
    var a, b := Text0("x.o", Some(300)), Text0("O", Some(300));
    var first := Record("x.o", 300, Txt(""), true);
    ApexNames();
    ExampleEntered(isIp, "x.o", Some(300));
    ExampleEntered(isIp, "O", Some(300));
    var s := HeadState("o", 300, EXAMPLE_SOA);
    TextReads(s, isIp, "x.o", "x.o");
    TextReads(s.(owner := Some("x.o"), records := [first]), isIp, "O", "x.o");
    assert [] + [first] == [first] && [first] + [first] == [first, first];
    TextsOk(isIp, a, b, first);
    TwoRead(isIp, a, b, first, first);
  }

  lemma TextsOk(isIp: string -> nat, a: Stored, b: Stored, r: Record)
    requires a == Text0(a.name, a.ttl) && b == Text0(b.name, b.ttl) && r == Record(r.name, 300, Txt(""), true) && r.name != ""
    ensures AllTyped([a, b]) && AllSingleLine([a, b]) && Storable(isIp, r)
  {
  }

  lemma ApexNames()
    ensures Spelled("x.o") && Spelled("O") && LiesUnder("x.o", "o") && LiesUnder("O", "o") && NormalizeName("x.o") == "x.o" && NormalizeName("O") == "o"
    ensures ReadOwner(Some("o"), "x.o", "o") == Ok("x.o") && ReadOwner(Some("x.o"), "O", "o") == Ok("x.o")
  {
    assert NormalizeName("x.o") == "x.o" && NormalizeName("O") == "o" && NormalizeName("o") == "o";
    assert "x.o"[1..] == ['.'] + "o";
    assert RelativeName("x.o", "o") == "x" && "x" + ['.'] + "o" == "x.o" && RelativeName("O", "o") == "";
  }
}

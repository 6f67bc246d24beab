// What the statements of a zone file mean: names relative to the origin, inherited TTLs, directives, and what is kept.
module ZoneMeaning {
  import opened Wrappers
  import opened Text
  import opened Names
  import opened ZoneFiles
  import opened ZoneScan
  import opened ZoneRoundTrip
  import opened ZoneLines

  // ---- Names ----

  // What a word of the file names: @ the origin, a word with a final dot itself, any other its own labels followed by
  // those of the origin.
  predicate Means(word: string, origin: string, name: string) {
    && word != ""
    && if word == "@" then name == origin
       else if Dotted(word) then name == NormalizeName(word)
       else Labels(name) == Labels(Lower(word)) + Labels(NormalizeName(origin))
  }

  predicate OriginOk(origin: string) {
    origin != "" && origin != "."
  }

  lemma RelativeForm(word: string, origin: string)
    requires OriginOk(origin)
    ensures NormalizeName(word + ['.'] + origin) == Lower(word) + ['.'] + NormalizeName(origin)
  {
    hide Lower;
    var name := word + ['.'] + origin;
    LowerConcat(word + ['.'], origin);
    LowerConcat(word, ['.']);
    LowerOfDot();
    if origin[|origin| - 1] == '.' {
      var front := origin[..|origin| - 1];
      assert name[..|name| - 1] == word + ['.'] + front;
      LowerConcat(word + ['.'], front);
    }
  }

  // A name is determined by its labels.
  lemma SameLabels(a: string, b: string)
    requires Labels(a) == Labels(b)
    ensures a == b
  {
    JoinOfSplit(a, '.');
    JoinOfSplit(b, '.');
  }

  // The form a word takes is the one name it means.
  lemma FormMeans(word: string, origin: string, name: string)
    requires word != "" && OriginOk(origin)
    ensures AbsoluteForm(word, origin) == name <==> Means(word, origin, name)
  {
    hide Lower, NormalizeName, Labels;
    RelativeForm(word, origin);
    LabelsConcat(Lower(word), NormalizeName(origin));
    if Labels(name) == Labels(AbsoluteForm(word, origin)) { SameLabels(name, AbsoluteForm(word, origin)); }
  }

  // ---- Data ----

  predicate Number(text: string, min: nat, max: nat, n: int) {
    IsNumeral(text, Decimal) && Value(text, Decimal) == n && min <= n <= max
  }

  // What the fields of a record stand for.
  predicate DataMeans(rtype: string, fields: seq<string>, origin: string, d: Data) {
    match d
    case Address(six, address) => rtype == (if six then "AAAA" else "A") && fields == [address]
    case Alias(ns, target) => rtype == (if ns then "NS" else "CNAME") && |fields| == 1 && Means(fields[0], origin, target)
    case Mx(priority, exchange) =>
      rtype == "MX" && |fields| == 2 && Number(fields[0], 0, 65535, priority) && Means(fields[1], origin, exchange)
    case Txt(value) => rtype == "TXT" && fields != [] && value == Join(fields, ' ')
    case Srv(priority, weight, port, target) =>
      && rtype == "SRV" && |fields| == 4 && Number(fields[0], 0, 65535, priority) && Number(fields[1], 0, 65535, weight)
      && Number(fields[2], 1, 65535, port) && Means(fields[3], origin, target)
  }

  lemma TargetMeans(word: string, origin: string, name: string)
    requires OriginOk(origin)
    ensures TargetName(word, origin) == Ok(name) <==> Means(word, origin, name)
  {
    hide AbsoluteForm, Lower, NormalizeName, Labels;
    if word != "" { FormMeans(word, origin, name); }
  }

  // Main result on data: the fields of every record type are read as exactly what they stand for.
  lemma DataReadsExactly(rtype: string, fields: seq<string>, origin: string, d: Data)
    requires OriginOk(origin)
    ensures RecordData(rtype, fields, origin) == Ok(d) <==> DataMeans(rtype, fields, origin, d)
  {
    hide TargetName, Integer, Means, Number, Join;
    match d {
      case Address(_, _) =>
      case Alias(_, target) => if |fields| == 1 { TargetMeans(fields[0], origin, target); }
      case Mx(priority, exchange) =>
        if |fields| == 2 {
          TargetMeans(fields[1], origin, exchange);
          IntegerIs(fields[0], 0, 65535, priority);
        }
      case Txt(_) =>
      case Srv(priority, weight, port, target) =>
        if |fields| == 4 {
          TargetMeans(fields[3], origin, target);
          IntegerIs(fields[0], 0, 65535, priority);
          IntegerIs(fields[1], 0, 65535, weight);
          IntegerIs(fields[2], 1, 65535, port);
        }
    }
  }

  lemma IntegerIs(text: string, min: nat, max: nat, n: int)
    ensures Integer(text, min, max).Ok? && Integer(text, min, max).value == n <==> Number(text, min, max, n)
  {
    hide IsNumeral, Value;
  }

  predicate SoaMeans(fields: seq<string>, origin: string, soa: Soa) {
    && |fields| == 7 && Means(fields[0], origin, soa.mname) && Means(fields[1], origin, soa.rname)
    && Number(fields[2], 0, 0xffff_ffff, soa.serial) && Number(fields[3], 0, 0xffff_ffff, soa.refresh)
    && Number(fields[4], 0, 0xffff_ffff, soa.retry) && Number(fields[5], 0, 0xffff_ffff, soa.expire)
    && Number(fields[6], 0, 0xffff_ffff, soa.minimum)
  }

  lemma SoaReadsExactly(fields: seq<string>, origin: string, soa: Soa)
    requires OriginOk(origin)
    ensures SoaData(fields, origin) == Ok(soa) <==> SoaMeans(fields, origin, soa)
  {
    hide TargetName, Integer, Means, Number;
    if |fields| == 7 {
      TargetMeans(fields[0], origin, soa.mname);
      TargetMeans(fields[1], origin, soa.rname);
      IntegerIs(fields[2], 0, 0xffff_ffff, soa.serial);
      IntegerIs(fields[3], 0, 0xffff_ffff, soa.refresh);
      IntegerIs(fields[4], 0, 0xffff_ffff, soa.retry);
      IntegerIs(fields[5], 0, 0xffff_ffff, soa.expire);
      IntegerIs(fields[6], 0, 0xffff_ffff, soa.minimum);
    }
  }

  // ---- Records ----

  lemma UpperNumeral(word: string)
    ensures IsNumeral(Upper(word), Decimal) <==> IsNumeral(word, Decimal)
  {
    hide Value;
    if word != "" {
      forall i | 0 <= i < |word| ensures DigitOf(Upper(word)[i]) == DigitOf(word[i]) {}
      NumeralByDigits(word);
      NumeralByDigits(Upper(word));
    }
  }

  predicate DigitOf(c: char) {
    '0' <= c <= '9'
  }

  lemma {:induction false} NumeralByDigits(word: string)
    ensures IsNumeral(word, Decimal) <==> word != "" && forall i :: 0 <= i < |word| ==> DigitOf(word[i])
  {
    forall i | 0 <= i < |word|
      ensures DigitOf(word[i]) <==> DigitValue(word[i]).Some? && DigitValue(word[i]).value < 10
    {
    }
  }

  // TTLs and classes, any number in any order.
  predicate Front(tokens: seq<string>) {
    forall i :: 0 <= i < |tokens| ==> Upper(tokens[i]) == "IN" || FrontTtl(tokens[i])
  }

  predicate FrontTtl(token: string) {
    IsNumeral(token, Decimal) && Value(token, Decimal) <= 0x7fff_ffff
  }

  // The last TTL counts; without one, the inherited TTL.
  function LastTtl(tokens: seq<string>, inherited: nat): nat {
    if tokens == [] then inherited
    else if IsNumeral(tokens[|tokens| - 1], Decimal) then Value(tokens[|tokens| - 1], Decimal)
    else LastTtl(tokens[..|tokens| - 1], inherited)
  }

  lemma {:induction false} LastTtlBehind(first: string, rest: seq<string>, inherited: nat)
    ensures LastTtl([first] + rest, inherited) == LastTtl(rest, LastTtl([first], inherited))
    decreases |rest|
  {
    hide IsNumeral, Value;
    var tokens := [first] + rest;
    if rest != [] {
      assert tokens[..|tokens| - 1] == [first] + rest[..|rest| - 1];
      LastTtlBehind(first, rest[..|rest| - 1], inherited);
    } else {
      assert tokens == [first];
    }
  }

  lemma {:induction false} FrontReads(front: seq<string>, rest: seq<string>, inherited: nat)
    requires Front(front) && (rest == [] || (Upper(rest[0]) != "IN" && !IsNumeral(rest[0], Decimal)))
    ensures TtlAndClass(front + rest, inherited) == Ok((rest, LastTtl(front, inherited)))
    decreases |front|
  {
    hide IsNumeral, Value, Upper;
    if front == [] {
      assert front + rest == rest;
      if rest != [] { UpperNumeral(rest[0]); }
    } else {
      var tokens := front + rest;
      assert tokens[1..] == front[1..] + rest && front == [front[0]] + front[1..];
      UpperNumeral(front[0]);
      InIsNoNumeral(front[0]);
      OneTtl(front[0], inherited);
      LastTtlBehind(front[0], front[1..], inherited);
      FrontReads(front[1..], rest, LastTtl([front[0]], inherited));
    }
  }

  lemma InIsNoNumeral(token: string)
    ensures Upper(token) == "IN" ==> !IsNumeral(token, Decimal)
  {
    NotNumeral("IN");
    UpperNumeral(token);
  }

  lemma OneTtl(token: string, inherited: nat)
    ensures LastTtl([token], inherited) == if IsNumeral(token, Decimal) then Value(token, Decimal) else inherited
  {
    hide IsNumeral, Value;
    assert [token][..0] == [];
  }

  // The owner a record line names, or leaves to the line before.
  predicate OwnerMeans(s: State, zone: string, word: Option<string>, owner: string) {
    if word.None? then s.owner == Some(owner) else Means(word.value, s.origin, owner) && Under(owner, zone)
  }

  // The statement has these tokens: perhaps an owner, TTLs and classes, a type and its fields; no directive.
  predicate HasTokens(st: Statement, word: Option<string>, front: seq<string>, rtype: string, fields: seq<string>) {
    && st.ownerOmitted == word.None?
    && var tokens := (if word.Some? then [word.value] else []) + (front + ([rtype] + fields));
       Tokenize(st.text) == Ok(tokens) && (tokens[0] == "" || tokens[0][0] != '$')
  }

  predicate TypeWord(word: string) {
    Upper(word) != "IN" && !IsNumeral(word, Decimal)
  }

  lemma ResourceOf(s: State, zone: string, st: Statement, word: Option<string>, front: seq<string>, rtype: string, fields: seq<string>,
                   owner: string)
    requires OriginOk(s.origin) && zone != "" && HasTokens(st, word, front, rtype, fields) && OwnerMeans(s, zone, word, owner)
    ensures ParseStatement(s, zone, st) == Resource(s, zone, owner, front + ([rtype] + fields))
  {
    hide Tokenize, Resource, Means, Upper, AbsoluteForm;
    var rest := front + ([rtype] + fields);
    if word.Some? {
      OwnerIs(word.value, s.origin, zone, owner);
      assert ([word.value] + rest)[1..] == rest;
      UnderByIndex(owner, zone);
    } else {
      assert [] + rest == rest;
    }
  }

  lemma OwnerIs(word: string, origin: string, zone: string, owner: string)
    requires OriginOk(origin)
    ensures OwnerName(word, origin, zone) == Ok(owner) <==> Means(word, origin, owner) && Under(owner, zone)
  {
    hide AbsoluteForm, Lower, NormalizeName, Labels;
    if word != "" { FormMeans(word, origin, owner); }
  }

  lemma DataTypeWord(rtype: string, fields: seq<string>, origin: string, d: Data)
    requires DataMeans(Upper(rtype), fields, origin, d)
    ensures TypeWord(rtype) && Upper(rtype) != "SOA"
  {
    hide Means, Number, IsNumeral;
    UpperNumeral(rtype);
    NotNumeral(Upper(rtype));
  }

  // Main result on records: a line adds exactly the record its words stand for, with the last TTL it gives or else the
  // inherited one.
  lemma RecordLine(s: State, zone: string, st: Statement, word: Option<string>, front: seq<string>, rtype: string, fields: seq<string>,
                   owner: string, d: Data)
    requires OriginOk(s.origin) && zone != "" && HasTokens(st, word, front, rtype, fields) && Front(front)
    requires OwnerMeans(s, zone, word, owner) && DataMeans(Upper(rtype), fields, s.origin, d)
    ensures ParseStatement(s, zone, st) ==
      Ok(s.(owner := Some(owner), records := s.records + [Record(owner, LastTtl(front, s.defaultTtl), d, true)]))
  {
    hide ParseStatement, TtlAndClass, RecordData, DataMeans, HasTokens, OwnerMeans, Upper, LastTtl, Front;
    ResourceOf(s, zone, st, word, front, rtype, fields, owner);
    DataTypeWord(rtype, fields, s.origin, d);
    FrontReads(front, [rtype] + fields, s.defaultTtl);
    DataReadsExactly(Upper(rtype), fields, s.origin, d);
    assert ([rtype] + fields)[1..] == fields;
  }

  // A line is refused when its fields stand for nothing of its type.
  lemma UnreadableLine(s: State, zone: string, st: Statement, word: Option<string>, front: seq<string>, rtype: string,
                       fields: seq<string>, owner: string)
    requires OriginOk(s.origin) && zone != "" && HasTokens(st, word, front, rtype, fields) && Front(front)
    requires OwnerMeans(s, zone, word, owner) && TypeWord(rtype) && Upper(rtype) != "SOA"
    requires forall d :: !DataMeans(Upper(rtype), fields, s.origin, d)
    ensures ParseStatement(s, zone, st).Err?
  {
    hide ParseStatement, TtlAndClass, RecordData, DataMeans, HasTokens, OwnerMeans, Upper, LastTtl, Front;
    ResourceOf(s, zone, st, word, front, rtype, fields, owner);
    FrontReads(front, [rtype] + fields, s.defaultTtl);
    var data := RecordData(Upper(rtype), fields, s.origin);
    if data.Ok? { DataReadsExactly(Upper(rtype), fields, s.origin, data.value); }
    assert ([rtype] + fields)[1..] == fields;
  }

  // An accepted line has an owner: one it names in the zone, or that of a line before.
  lemma AcceptedHasOwner(s: State, zone: string, st: Statement, word: Option<string>, front: seq<string>, rtype: string,
                         fields: seq<string>)
    requires OriginOk(s.origin) && HasTokens(st, word, front, rtype, fields) && ParseStatement(s, zone, st).Ok?
    ensures exists owner :: OwnerMeans(s, zone, word, owner)
  {
    hide Tokenize, Resource, Means, AbsoluteForm;
    if word.Some? {
      var owner := OwnerName(word.value, s.origin, zone).value;
      OwnerIs(word.value, s.origin, zone, owner);
      assert OwnerMeans(s, zone, word, owner);
    } else {
      assert OwnerMeans(s, zone, word, s.owner.value);
    }
  }

  // An SOA counts at the apex, once.
  lemma SoaLine(s: State, zone: string, st: Statement, word: Option<string>, front: seq<string>, rtype: string, fields: seq<string>,
                owner: string, soa: Soa)
    requires OriginOk(s.origin) && zone != "" && HasTokens(st, word, front, rtype, fields) && Front(front) && Upper(rtype) == "SOA"
    requires OwnerMeans(s, zone, word, owner)
    ensures ParseStatement(s, zone, st) == Ok(s.(owner := Some(owner), soa := Some(soa))) && s.soa != Some(soa)
      ==> owner == zone && s.soa.None? && SoaMeans(fields, s.origin, soa)
    ensures owner == zone && s.soa.None? && SoaMeans(fields, s.origin, soa)
      ==> ParseStatement(s, zone, st) == Ok(s.(owner := Some(owner), soa := Some(soa)))
    ensures owner != zone || s.soa.Some? ==> ParseStatement(s, zone, st).Err?
  {
    hide ParseStatement, TtlAndClass, SoaData, SoaMeans, HasTokens, OwnerMeans, Upper, LastTtl, Front;
    ResourceOf(s, zone, st, word, front, rtype, fields, owner);
    SoaIsTypeWord(rtype);
    FrontReads(front, [rtype] + fields, s.defaultTtl);
    SoaReadsExactly(fields, s.origin, soa);
    assert ([rtype] + fields)[1..] == fields;
    if |fields| != 7 { SoaNeedsSeven(fields, s.origin, soa); }
  }

  lemma SoaIsTypeWord(rtype: string)
    requires Upper(rtype) == "SOA"
    ensures TypeWord(rtype)
  {
    UpperNumeral(rtype);
    NotNumeral("SOA");
  }

  lemma SoaNeedsSeven(fields: seq<string>, origin: string, soa: Soa)
    requires |fields| != 7
    ensures !SoaMeans(fields, origin, soa)
  {
  }

  // ---- Directives ----

  predicate Directs(st: Statement, name: string) {
    var tokens := Tokenize(st.text);
    tokens.Ok? && tokens.value != [] && Upper(tokens.value[0]) == name
  }

  predicate SetsTtl(st: Statement, ttl: nat) {
    var tokens := Tokenize(st.text);
    tokens.Ok? && |tokens.value| == 2 && Upper(tokens.value[0]) == "$TTL" && Number(tokens.value[1], 0, 0x7fff_ffff, ttl)
  }

  // An origin is given relative to the zone, whatever the origin was.
  predicate SetsOrigin(st: Statement, zone: string, origin: string) {
    var tokens := Tokenize(st.text);
    && tokens.Ok? && |tokens.value| == 2 && Upper(tokens.value[0]) == "$ORIGIN"
    && Means(tokens.value[1], zone, origin) && Under(origin, zone)
  }

  lemma UpperDollar(word: string)
    ensures Upper(word) != "" && Upper(word)[0] == '$' <==> word != "" && word[0] == '$'
  {
  }

  // A directive changes exactly what it names; a record changes neither.
  lemma StatementSets(s: State, zone: string, st: Statement)
    requires OriginOk(zone) && ParseStatement(s, zone, st).Ok?
    ensures var t := ParseStatement(s, zone, st).value;
      && (if Directs(st, "$TTL") then SetsTtl(st, t.defaultTtl) else t.defaultTtl == s.defaultTtl)
      && (if Directs(st, "$ORIGIN") then SetsOrigin(st, zone, t.origin) else t.origin == s.origin)
  {
    hide Tokenize, OwnerName, Integer, Means, Number, Resource, Upper, TtlAndClass, RecordData, SoaData;
    var tokens := Tokenize(st.text).value;
    if tokens != [] {
      UpperDollar(tokens[0]);
      if |tokens| == 2 {
        forall origin ensures OwnerName(tokens[1], zone, zone) == Ok(origin) ==> Means(tokens[1], zone, origin) && Under(origin, zone) {
          OwnerIs(tokens[1], zone, zone, origin);
        }
        forall n: nat ensures Integer(tokens[1], 0, 0x7fff_ffff) == Ok(n) ==> Number(tokens[1], 0, 0x7fff_ffff, n) {
          IntegerIs(tokens[1], 0, 0x7fff_ffff, n);
        }
      }
    }
    forall owner, rest ensures Resource(s, zone, owner, rest).Ok? ==>
      Resource(s, zone, owner, rest).value.defaultTtl == s.defaultTtl && Resource(s, zone, owner, rest).value.origin == s.origin
    {
      if Resource(s, zone, owner, rest).Ok? { ResourceKeeps(s, zone, owner, rest); }
    }
  }

  lemma ResourceKeeps(s: State, zone: string, owner: string, rest: seq<string>)
    requires Resource(s, zone, owner, rest).Ok?
    ensures var t := Resource(s, zone, owner, rest).value;
      && t.defaultTtl == s.defaultTtl && t.origin == s.origin && t.owner == Some(owner)
      && (t.records == s.records || (|t.records| == |s.records| + 1 && t.records[..|s.records|] == s.records
                                     && t.records[|s.records|].name == owner))
      && (t.soa == s.soa || owner == zone)
  {
    hide TtlAndClass, RecordData, SoaData, Upper;
  }

  ghost predicate LatestTtl(sts: seq<Statement>, before: nat, ttl: nat) {
    if exists k :: 0 <= k < |sts| && Directs(sts[k], "$TTL") then
      exists k :: 0 <= k < |sts| && SetsTtl(sts[k], ttl) && forall j :: k < j < |sts| ==> !Directs(sts[j], "$TTL")
    else ttl == before
  }

  ghost predicate LatestOrigin(sts: seq<Statement>, zone: string, before: string, origin: string) {
    if exists k :: 0 <= k < |sts| && Directs(sts[k], "$ORIGIN") then
      exists k :: 0 <= k < |sts| && SetsOrigin(sts[k], zone, origin) && forall j :: k < j < |sts| ==> !Directs(sts[j], "$ORIGIN")
    else origin == before
  }

  lemma LatestTtlGoesOn(sts: seq<Statement>, st: Statement, before: nat, held: nat, ttl: nat)
    requires LatestTtl(sts, before, held) && if Directs(st, "$TTL") then SetsTtl(st, ttl) else ttl == held
    ensures LatestTtl(sts + [st], before, ttl)
  {
    hide Directs, SetsTtl;
    var more := sts + [st];
    assert more[|sts|] == st && forall j :: 0 <= j < |sts| ==> more[j] == sts[j];
    if !Directs(st, "$TTL") && exists k :: 0 <= k < |sts| && Directs(sts[k], "$TTL") {
      var k :| 0 <= k < |sts| && SetsTtl(sts[k], ttl) && forall j :: k < j < |sts| ==> !Directs(sts[j], "$TTL");
      assert SetsTtl(more[k], ttl);
      var d :| 0 <= d < |sts| && Directs(sts[d], "$TTL");
      assert Directs(more[d], "$TTL");
    }
  }

  lemma LatestOriginGoesOn(sts: seq<Statement>, st: Statement, zone: string, before: string, held: string, origin: string)
    requires LatestOrigin(sts, zone, before, held) && if Directs(st, "$ORIGIN") then SetsOrigin(st, zone, origin) else origin == held
    ensures LatestOrigin(sts + [st], zone, before, origin)
  {
    hide Directs, SetsOrigin;
    var more := sts + [st];
    assert more[|sts|] == st && forall j :: 0 <= j < |sts| ==> more[j] == sts[j];
    if !Directs(st, "$ORIGIN") && exists k :: 0 <= k < |sts| && Directs(sts[k], "$ORIGIN") {
      var k :| 0 <= k < |sts| && SetsOrigin(sts[k], zone, origin) && forall j :: k < j < |sts| ==> !Directs(sts[j], "$ORIGIN");
      assert SetsOrigin(more[k], zone, origin);
      var d :| 0 <= d < |sts| && Directs(sts[d], "$ORIGIN");
      assert Directs(more[d], "$ORIGIN");
    }
  }

  // Main result on directives: the TTL inherited is that of the latest $TTL, and the origin that of the latest $ORIGIN.
  lemma {:induction false} StateIsLatest(s: State, zone: string, sts: seq<Statement>)
    requires OriginOk(zone) && ParseStatements(s, zone, sts).Ok?
    ensures var t := ParseStatements(s, zone, sts).value;
      LatestTtl(sts, s.defaultTtl, t.defaultTtl) && LatestOrigin(sts, zone, s.origin, t.origin)
  {
    hide ParseStatement, LatestTtl, LatestOrigin, Directs, SetsTtl, SetsOrigin;
    if sts == [] {
      NothingLatest(zone, s.defaultTtl, s.origin);
    } else {
      var front, last := sts[..|sts| - 1], sts[|sts| - 1];
      var u := ParseStatements(s, zone, front).value;
      var t := ParseStatement(u, zone, last).value;
      StateIsLatest(s, zone, front);
      StatementSets(u, zone, last);
      LatestTtlGoesOn(front, last, s.defaultTtl, u.defaultTtl, t.defaultTtl);
      LatestOriginGoesOn(front, last, zone, s.origin, u.origin, t.origin);
      assert front + [last] == sts;
    }
  }

  lemma NothingLatest(zone: string, ttl: nat, origin: string)
    ensures LatestTtl([], ttl, ttl) && LatestOrigin([], zone, origin, origin)
  {
  }

  // ---- Whole files ----

  // Everything read so far lies in the zone.
  predicate StaysInZone(s: State, zone: string) {
    && Under(s.origin, zone) && (s.owner.Some? ==> Under(s.owner.value, zone))
    && forall i :: 0 <= i < |s.records| ==> Under(s.records[i].name, zone)
  }

  lemma StatementStays(s: State, zone: string, st: Statement)
    requires StaysInZone(s, zone) && ParseStatement(s, zone, st).Ok?
    ensures StaysInZone(ParseStatement(s, zone, st).value, zone)
  {
    hide Tokenize, Integer, Resource, Upper, Under, AbsoluteForm;
    forall owner, rest ensures Resource(s, zone, owner, rest).Ok? && Under(owner, zone) ==> StaysInZone(Resource(s, zone, owner, rest).value, zone) {
      if Resource(s, zone, owner, rest).Ok? && Under(owner, zone) { ResourceStays(s, zone, owner, rest); }
    }
  }

  lemma ResourceStays(s: State, zone: string, owner: string, rest: seq<string>)
    requires StaysInZone(s, zone) && Resource(s, zone, owner, rest).Ok? && Under(owner, zone)
    ensures StaysInZone(Resource(s, zone, owner, rest).value, zone)
  {
    hide Resource, Under;
    ResourceKeeps(s, zone, owner, rest);
    var t := Resource(s, zone, owner, rest).value;
    forall i | 0 <= i < |t.records| ensures Under(t.records[i].name, zone) {
      if i < |s.records| { assert t.records[..|s.records|][i] == t.records[i]; }
    }
  }

  lemma {:induction false} StatementsStay(s: State, zone: string, sts: seq<Statement>)
    requires StaysInZone(s, zone) && ParseStatements(s, zone, sts).Ok?
    ensures StaysInZone(ParseStatements(s, zone, sts).value, zone)
  {
    hide ParseStatement, StaysInZone;
    if sts != [] {
      StatementsStay(s, zone, sts[..|sts| - 1]);
      StatementStays(ParseStatements(s, zone, sts[..|sts| - 1]).value, zone, sts[|sts| - 1]);
    }
  }

  // Every record of an accepted file lies in the zone and is one the record store takes.
  lemma AcceptedFileStays(isIp: string -> nat, source: string, origin: string)
    requires ReadZoneFile(isIp, source, origin).Ok?
    ensures var z := ReadZoneFile(isIp, source, origin).value;
      && NormalizeDomainName(origin) == Ok(z.origin)
      && (forall i :: 0 <= i < |z.records| ==> Under(z.records[i].name, z.origin))
      && forall i :: 0 <= i < |z.records| ==> StoreTakes(isIp, z.records[i])
  {
    hide LogicalStatements, ParseStatements, NormalizeDomainName, Under;
    var zone := NormalizeDomainName(origin).value;
    var start := State(zone, 300, None, None, []);
    UnderItself(zone);
    StatementsStay(start, zone, LogicalStatements(source).value);
  }

  // A name, a TTL of 31 bits, an address of the family its type asks for, a port that is not zero.
  predicate StoreTakes(isIp: string -> nat, r: Record) {
    && r.name != "" && r.ttl < 0x8000_0000
    && match r.data
       case Address(six, address) => isIp(address) == (if six then 6 else 4)
       case Srv(_, _, port, _) => 1 <= port < 0x1_0000
       case _ => true
  }

  // Main result on files: behind any accepted lines, a line adds the record it stands for under the latest $ORIGIN and,
  // without a TTL of its own, the latest $TTL, or 300.
  lemma LastLineReads(zone: string, ls: seq<Line>, l: Line, s: State, word: Option<string>, front: seq<string>, rtype: string,
                      fields: seq<string>, owner: string, d: Data)
    requires OriginOk(zone) && (forall i :: 0 <= i < |ls| ==> LineOk(ls[i])) && LineOk(l)
    requires ParseStatements(State(zone, 300, None, None, []), zone, LineStatements(ls)) == Ok(s) && OriginOk(s.origin)
    requires l.blank == word.None?
    requires PieceValues(l.pieces) == (if word.Some? then [word.value] else []) + (front + ([rtype] + fields))
    requires var first := PieceValues(l.pieces)[0]; first == "" || first[0] != '$'
    requires Front(front) && OwnerMeans(s, zone, word, owner) && DataMeans(Upper(rtype), fields, s.origin, d)
    ensures LogicalStatements(Lines(LineTexts(ls + [l]))) == Ok(LineStatements(ls + [l]))
    ensures ParseStatements(State(zone, 300, None, None, []), zone, LineStatements(ls + [l])) ==
      Ok(s.(owner := Some(owner), records := s.records + [Record(owner, LastTtl(front, s.defaultTtl), d, true)]))
    ensures LatestTtl(LineStatements(ls), 300, s.defaultTtl) && LatestOrigin(LineStatements(ls), zone, zone, s.origin)
  {
    hide ParseStatement, LineOk, LogicalStatements, LineStatement, LatestTtl, LatestOrigin, Front, OwnerMeans, DataMeans, LastTtl, Upper,
      Lines, LineTexts, PieceValues, Tokenize;
    LinesAreStatements(ls + [l]);
    assert LineStatements(ls + [l])[..|ls|] == LineStatements(ls);
    StateIsLatest(State(zone, 300, None, None, []), zone, LineStatements(ls));
    LineTokens(l);
    LeavesOwnerOut(l);
    RecordLine(s, zone, LineStatement(l), word, front, rtype, fields, owner, d);
  }

  lemma LeavesOwnerOut(l: Line)
    ensures LineStatement(l).ownerOmitted == l.blank
  {
  }
}

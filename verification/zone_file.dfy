// Zone files in master-file form (RFC 1035 section 5.1): statements, tokens, parsing and printing.
module ZoneFiles {
  import opened Wrappers
  import opened Text
  import opened Names
  import WireNames

  datatype Failure =
    | UnmatchedClose | UnterminatedQuote | UnmatchedOpen | InvalidQuoted | MissingName | OutsideZone
    | NotAnInteger | OutOfRange | WrongArity | BadDirective | NoPreviousOwner | UnknownType
    | SoaNotAtApex | DuplicateSoa | InvalidRecord | InvalidDomain

  // ---- Logical statements ----

  // The characters /\s/ and trim() treat as white space.
  predicate Space(c: char) {
    c == ' ' || '\t' <= c <= '\r' || c == '\U{A0}' || c == '\U{1680}' || '\U{2000}' <= c <= '\U{200A}'
    || c == '\U{2028}' || c == '\U{2029}' || c == '\U{202F}' || c == '\U{205F}' || c == '\U{3000}' || c == '\U{FEFF}'
  }

  function TrimLeft(s: string): string {
    if s != [] && Space(s[0]) then TrimLeft(s[1..]) else s
  }

  function TrimRight(s: string): string {
    if s != [] && Space(s[|s| - 1]) then TrimRight(s[..|s| - 1]) else s
  }

  function Trim(s: string): string {
    TrimRight(TrimLeft(s))
  }

  datatype Statement = Statement(text: string, ownerOmitted: bool)

  datatype Scan = Scan(text: string, depth: nat, quoted: bool, escaped: bool, comment: bool,
                       leading: bool, started: bool, statements: seq<Statement>)

  function ScanStart(statements: seq<Statement>): Scan {
    Scan("", 0, false, false, false, false, false, statements)
  }

  function EndStatement(s: Scan): Scan {
    ScanStart(s.statements + if Trim(s.text) == "" then [] else [Statement(Trim(s.text), s.leading)]).(quoted := s.quoted)
  }

  // One character of the statement scanner.
  function ScanChar(s: Scan, c: char): Result<Scan, Failure> {
    if s.comment && c != '\n' then Ok(s)
    else
      var t := s.(comment := false);
      if t.escaped then Ok(t.(text := t.text + [c], escaped := false))
      else if t.quoted && c == '\\' then Ok(t.(text := t.text + [c], escaped := true))
      else if c == '"' then Ok(t.(text := t.text + [c], quoted := !t.quoted, started := true))
      else if !t.quoted && c == ';' then Ok(t.(comment := true))
      else if !t.quoted && c == '(' then Ok(t.(text := t.text + [' '], depth := t.depth + 1))
      else if !t.quoted && c == ')' then
        if t.depth == 0 then Err(UnmatchedClose) else Ok(t.(text := t.text + [' '], depth := t.depth - 1))
      else if c == '\n' then
        Ok(if t.depth == 0 then EndStatement(t) else t.(text := t.text + [' ']))
      else
        Ok(t.(text := t.text + [c], leading := t.leading || (!t.started && Space(c)), started := t.started || !Space(c)))
  }

  function ScanText(s: Scan, text: string): Result<Scan, Failure>
    decreases |text|
  {
    if text == [] then Ok(s)
    else match ScanChar(s, text[0])
      case Err(e) => Err(e)
      case Ok(t) => ScanText(t, text[1..])
  }

  // The source is scanned with a final line feed behind it.
  function LogicalStatements(source: string): Result<seq<Statement>, Failure> {
    match ScanText(ScanStart([]), source + ['\n'])
    case Err(e) => Err(e)
    case Ok(s) =>
      if s.quoted then Err(UnterminatedQuote)
      else if s.depth != 0 then Err(UnmatchedOpen)
      else Ok(s.statements)
  }

  // ---- Tokens ----

  datatype Tokens = Tokens(done: seq<string>, value: string, quoted: bool, escaped: bool, active: bool)

  function TokenChar(t: Tokens, c: char): Tokens {
    if t.escaped then t.(value := t.value + [c], escaped := false, active := true)
    else if t.quoted && c == '\\' then t.(escaped := true)
    else if c == '"' then t.(quoted := !t.quoted, active := true)
    else if !t.quoted && Space(c) then Tokens(t.done + (if t.active then [t.value] else []), "", false, false, false)
    else t.(value := t.value + [c], active := true)
  }

  function TokenText(t: Tokens, text: string): Tokens
    decreases |text|
  {
    if text == [] then t else TokenText(TokenChar(t, text[0]), text[1..])
  }

  function NoTokens(done: seq<string>): Tokens {
    Tokens(done, "", false, false, false)
  }

  function Tokenize(text: string): Result<seq<string>, Failure> {
    var t := TokenText(NoTokens([]), text);
    if t.quoted || t.escaped then Err(InvalidQuoted)
    else Ok(t.done + if t.active then [t.value] else [])
  }

  // ---- Names and numbers ----

  function AbsoluteForm(value: string, origin: string): string {
    if value == "@" then origin
    else if value != "" && value[|value| - 1] == '.' then NormalizeName(value)
    else NormalizeName(value + ['.'] + origin)
  }

  function TargetName(value: string, origin: string): Result<string, Failure> {
    if value == "" then Err(MissingName) else Ok(AbsoluteForm(value, origin))
  }

  function OwnerName(value: string, origin: string, zone: string): Result<string, Failure> {
    if value == "" then Err(MissingName)
    else if !Under(AbsoluteForm(value, origin), zone) then Err(OutsideZone)
    else Ok(AbsoluteForm(value, origin))
  }

  const MAX_TTL: nat := 0x7fff_ffff
  const MAX_U32: nat := 0xffff_ffff
  const MAX_U16: nat := 0xffff

  function Integer(value: string, min: nat, max: nat): Result<nat, Failure> {
    if !IsNumeral(value, Decimal) then Err(NotAnInteger)
    else if Value(value, Decimal) < min || Value(value, Decimal) > max then Err(OutOfRange)
    else Ok(Value(value, Decimal))
  }

  // ---- Records ----

  datatype Data =
    | Address(six: bool, address: string)
    | Alias(ns: bool, target: string)
    | Mx(priority: int, exchange: string)
    | Txt(value: string)
    | Srv(priority: int, weight: int, port: int, target: string)

  datatype Record = Record(name: string, ttl: nat, data: Data, enabled: bool)

  datatype Soa = Soa(mname: string, rname: string, serial: nat, refresh: nat, retry: nat, expire: nat, minimum: nat)

  datatype Zone = Zone(origin: string, defaultTtl: nat, soa: Option<Soa>, records: seq<Record>)

  function JoinWith(values: seq<string>): string
    requires values != []
  {
    Join(values, ' ')
  }

  function RecordData(rtype: string, values: seq<string>, origin: string): Result<Data, Failure> {
    if rtype == "A" || rtype == "AAAA" then
      if |values| != 1 then Err(WrongArity) else Ok(Address(rtype == "AAAA", values[0]))
    else if rtype == "CNAME" || rtype == "NS" then
      if |values| != 1 then Err(WrongArity)
      else match TargetName(values[0], origin)
        case Err(e) => Err(e)
        case Ok(target) => Ok(Alias(rtype == "NS", target))
    else if rtype == "MX" then
      if |values| != 2 then Err(WrongArity)
      else if Integer(values[0], 0, MAX_U16).Err? then Err(Integer(values[0], 0, MAX_U16).error)
      else match TargetName(values[1], origin)
        case Err(e) => Err(e)
        case Ok(exchange) => Ok(Mx(Integer(values[0], 0, MAX_U16).value, exchange))
    else if rtype == "TXT" then
      if |values| == 0 then Err(WrongArity) else Ok(Txt(JoinWith(values)))
    else if rtype == "SRV" then
      if |values| != 4 then Err(WrongArity)
      else if Integer(values[0], 0, MAX_U16).Err? then Err(Integer(values[0], 0, MAX_U16).error)
      else if Integer(values[1], 0, MAX_U16).Err? then Err(Integer(values[1], 0, MAX_U16).error)
      else if Integer(values[2], 1, MAX_U16).Err? then Err(Integer(values[2], 1, MAX_U16).error)
      else match TargetName(values[3], origin)
        case Err(e) => Err(e)
        case Ok(target) => Ok(Srv(Integer(values[0], 0, MAX_U16).value, Integer(values[1], 0, MAX_U16).value,
                                  Integer(values[2], 1, MAX_U16).value, target))
    else Err(UnknownType)
  }

  function SoaData(values: seq<string>, origin: string): Result<Soa, Failure> {
    if |values| != 7 then Err(WrongArity)
    else match TargetName(values[0], origin)
      case Err(e) => Err(e)
      case Ok(mname) =>
        match TargetName(values[1], origin)
        case Err(e) => Err(e)
        case Ok(rname) =>
          if exists i :: 2 <= i < 7 && Integer(values[i], 0, MAX_U32).Err? then Err(NotAnInteger)
          else Ok(Soa(mname, rname, Integer(values[2], 0, MAX_U32).value, Integer(values[3], 0, MAX_U32).value,
                      Integer(values[4], 0, MAX_U32).value, Integer(values[5], 0, MAX_U32).value,
                      Integer(values[6], 0, MAX_U32).value))
  }

  // ---- Statements of a zone ----

  datatype State = State(origin: string, defaultTtl: nat, owner: Option<string>, soa: Option<Soa>, records: seq<Record>)

  // Any number of TTLs and classes, in any order, ahead of the type.
  function TtlAndClass(tokens: seq<string>, ttl: nat): Result<(seq<string>, nat), Failure> {
    if tokens == [] then Ok((tokens, ttl))
    else
      var token := Upper(tokens[0]);
      if IsNumeral(token, Decimal) then
        match Integer(tokens[0], 0, MAX_TTL)
        case Err(e) => Err(e)
        case Ok(n) => TtlAndClass(tokens[1..], n)
      else if token == "IN" then TtlAndClass(tokens[1..], ttl)
      else Ok((tokens, ttl))
  }

  function Directive(s: State, zone: string, tokens: seq<string>): Result<State, Failure>
    requires tokens != []
  {
    if Upper(tokens[0]) == "$ORIGIN" && |tokens| == 2 then
      match OwnerName(tokens[1], zone, zone)
      case Err(e) => Err(e)
      case Ok(origin) => Ok(s.(origin := origin))
    else if Upper(tokens[0]) == "$TTL" && |tokens| == 2 then
      match Integer(tokens[1], 0, MAX_TTL)
      case Err(e) => Err(e)
      case Ok(ttl) => Ok(s.(defaultTtl := ttl))
    else Err(BadDirective)
  }

  // A resource record behind its owner.
  function Resource(s: State, zone: string, owner: string, tokens: seq<string>): Result<State, Failure> {
    match TtlAndClass(tokens, s.defaultTtl)
    case Err(e) => Err(e)
    case Ok((rest, ttl)) =>
      if rest == [] then Err(UnknownType)
      else if Upper(rest[0]) == "SOA" then
        if |rest| != 8 then Err(WrongArity)
        else if owner != zone then Err(SoaNotAtApex)
        else if s.soa.Some? then Err(DuplicateSoa)
        else match SoaData(rest[1..], s.origin)
          case Err(e) => Err(e)
          case Ok(soa) => Ok(s.(owner := Some(owner), soa := Some(soa)))
      else match RecordData(Upper(rest[0]), rest[1..], s.origin)
        case Err(e) => Err(e)
        case Ok(data) => Ok(s.(owner := Some(owner), records := s.records + [Record(owner, ttl, data, true)]))
  }

  function ParseStatement(s: State, zone: string, statement: Statement): Result<State, Failure> {
    match Tokenize(statement.text)
    case Err(e) => Err(e)
    case Ok(tokens) =>
      if tokens != [] && tokens[0] != "" && tokens[0][0] == '$' then Directive(s, zone, tokens)
      else if statement.ownerOmitted then
        if s.owner.None? then Err(NoPreviousOwner) else Resource(s, zone, s.owner.value, tokens)
      else if tokens == [] then Err(MissingName)
      else match OwnerName(tokens[0], s.origin, zone)
        case Err(e) => Err(e)
        case Ok(owner) => if owner == "" then Err(NoPreviousOwner) else Resource(s, zone, owner, tokens[1..])
  }

  function ParseStatements(s: State, zone: string, statements: seq<Statement>): Result<State, Failure> {
    if statements == [] then Ok(s)
    else match ParseStatements(s, zone, statements[..|statements| - 1])
      case Err(e) => Err(e)
      case Ok(t) => ParseStatement(t, zone, statements[|statements| - 1])
  }

  // What RecordStore demands of a record; `isIp` is net.isIP.
  predicate Storable(isIp: string -> nat, r: Record) {
    r.name != "" && r.ttl <= MAX_TTL
    && (r.data.Address? ==> isIp(r.data.address) == if r.data.six then 6 else 4)
    && (r.data.Srv? ==> 1 <= r.data.port <= MAX_U16)
  }

  function NormalizeDomainName(value: string): Result<string, Failure> {
    var name := NormalizeName(Trim(value));
    if name == "" || '*' in name || WireNames.Encode(name).Err? then Err(InvalidDomain) else Ok(name)
  }

  // parseZoneFile up to the final ordering: the records in the order of the file.
  function ReadZoneFile(isIp: string -> nat, source: string, origin: string): Result<Zone, Failure> {
    match NormalizeDomainName(origin)
    case Err(e) => Err(e)
    case Ok(zone) =>
      match LogicalStatements(source)
      case Err(e) => Err(e)
      case Ok(statements) =>
        match ParseStatements(State(zone, 300, None, None, []), zone, statements)
        case Err(e) => Err(e)
        case Ok(s) =>
          if exists i :: 0 <= i < |s.records| && !Storable(isIp, s.records[i]) then Err(InvalidRecord)
          else Ok(Zone(zone, s.defaultTtl, s.soa, s.records))
  }

  // `sort` is the canonical ordering of records.
  function ParseZoneFile(isIp: string -> nat, sort: seq<Record> -> seq<Record>, source: string, origin: string): Result<Zone, Failure> {
    match ReadZoneFile(isIp, source, origin)
    case Err(e) => Err(e)
    case Ok(zone) => Ok(zone.(records := sort(zone.records)))
  }

  // ---- Records as configurations store them ----

  // The fields that depend on the type, as entered; a priority or weight may be missing.
  datatype Fields =
    | AddressOf(six: bool, address: string)
    | AliasOf(ns: bool, target: string)
    | MxOf(priority: Option<int>, exchange: string)
    | TxtOf(value: string)
    | SrvOf(priority: Option<int>, weight: Option<int>, port: nat, target: string)

  // Name and type in the spelling entered; the TTL may be missing.
  datatype Stored = Stored(name: string, rtype: string, ttl: Option<nat>, fields: Fields, enabled: bool)

  function TypeOf(f: Fields): string {
    match f
    case AddressOf(six, _) => if six then "AAAA" else "A"
    case AliasOf(ns, _) => if ns then "NS" else "CNAME"
    case MxOf(_, _) => "MX"
    case TxtOf(_) => "TXT"
    case SrvOf(_, _, _, _) => "SRV"
  }

  function OrZero(n: Option<int>): int {
    if n.None? then 0 else n.value
  }

  function NormalData(f: Fields): Data {
    match f
    case AddressOf(six, address) => Address(six, address)
    case AliasOf(ns, target) => Alias(ns, NormalizeName(target))
    case MxOf(priority, exchange) => Mx(OrZero(priority), NormalizeName(exchange))
    case TxtOf(value) => Txt(value)
    case SrvOf(priority, weight, port, target) => Srv(OrZero(priority), OrZero(weight), port, NormalizeName(target))
  }

  // What a stored record means: names normalized, and what is missing filled in.
  function NormalForm(r: Stored): Record {
    Record(NormalizeName(r.name), if r.ttl.None? then 300 else r.ttl.value, NormalData(r.fields), r.enabled)
  }

  // normalizeRecord accepts it.
  predicate Accepted(isIp: string -> nat, r: Stored) {
    Upper(r.rtype) == TypeOf(r.fields) && Storable(isIp, NormalForm(r))
  }

  // ---- Printing ----

  function RelativeName(name: string, origin: string): string {
    if name == origin then "@"
    else if |origin| + 1 <= |name| then name[..|name| - (|origin| + 1)]
    else ""
  }

  function AbsoluteName(name: string): string {
    NormalizeName(name) + ['.']
  }

  function EscapedChar(c: char): string {
    if c == '\\' then ['\\', '\\'] else if c == '"' then ['\\', '"'] else [c]
  }

  function EscapeText(value: string): string {
    if value == [] then [] else EscapedChar(value[0]) + EscapeText(value[1..])
  }

  function QuotedText(value: string): string {
    ['"'] + EscapeText(value) + ['"']
  }

  function Dec(n: nat): string {
    Numeral(n, Decimal)
  }

  // A number in a template string.
  function IntText(n: int): string {
    if n < 0 then ['-'] + Dec(-n) else Dec(n)
  }

  function OptionText(n: Option<int>): string {
    if n.None? then "undefined" else IntText(n.value)
  }

  function FieldTexts(f: Fields): seq<string> {
    match f
    case AddressOf(_, address) => [address]
    case AliasOf(_, target) => [AbsoluteName(target)]
    case MxOf(priority, exchange) => [OptionText(priority), AbsoluteName(exchange)]
    case TxtOf(value) => [QuotedText(value)]
    case SrvOf(priority, weight, port, target) =>
      [IntText(OrZero(priority)), IntText(OrZero(weight)), Dec(port), AbsoluteName(target)]
  }

  function RecordText(r: Stored, origin: string): string {
    Join([RelativeName(r.name, origin), OptionText(r.ttl), "IN", r.rtype] + FieldTexts(r.fields), ' ')
  }

  function SoaLines(ttl: nat, soa: Soa): seq<string> {
    [Join(["@", Dec(ttl), "IN", "SOA", AbsoluteName(soa.mname), AbsoluteName(soa.rname)], ' ') + [' ', '('],
     "  " + Dec(soa.serial), "  " + Dec(soa.refresh), "  " + Dec(soa.retry), "  " + Dec(soa.expire), "  " + Dec(soa.minimum), ")"]
  }

  function Lines(lines: seq<string>): string {
    if lines == [] then [] else lines[0] + ['\n'] + Lines(lines[1..])
  }

  function RecordTexts(records: seq<Stored>, origin: string): seq<string> {
    seq(|records|, i requires 0 <= i < |records| => RecordText(records[i], origin))
  }

  // The exporter's own test, on the name normalized once.
  function InZone(records: seq<Stored>, zone: string): seq<Stored> {
    if records == [] then []
    else
      var r := records[|records| - 1];
      InZone(records[..|records| - 1], zone) + if BelongsTo(r.name, zone) then [r] else []
  }

  // Only the types in capitals are known to exportRecord; `order` is the canonical ordering of stored records.
  function ExportZoneFile(order: seq<Stored> -> seq<Stored>, zone: string, defaultTtl: nat, soa: Soa, records: seq<Stored>): Result<string, Failure> {
    var direct := order(InZone(records, zone));
    if exists i :: 0 <= i < |direct| && direct[i].rtype != TypeOf(direct[i].fields) then Err(UnknownType)
    else Ok(Lines(["$ORIGIN " + AbsoluteName(zone), "$TTL " + Dec(defaultTtl)] + SoaLines(defaultTtl, soa) + RecordTexts(direct, zone)))
  }
}

// DNS messages: records, questions, header, and building a response to a query (RFC 1035 section 4.1).
module Messages {
  import opened Wrappers
  import opened Names
  import opened Wire
  import opened Addresses
  import WireNames

  const TYPE_A := 1
  const TYPE_NS := 2
  const TYPE_CNAME := 5
  const TYPE_SOA := 6
  const TYPE_MX := 15
  const TYPE_TXT := 16
  const TYPE_AAAA := 28
  const TYPE_SRV := 33

  datatype Failure = BadName(reason: WireNames.Failure) | BadData | TooLong | Truncated

  // The fields of a record that depend on its type.
  datatype Data =
    | Address(text: string)
    | Target(name: string)
    | Soa(mname: string, rname: string, serial: int, refresh: int, retry: int, expire: int, minimum: int)
    | Exchange(priority: int, exchange: string)
    | Txt(text: string)
    | Service(priority: int, weight: int, port: int, target: string)
    | Raw(data: Buffer)

  datatype Record = Record(name: string, rtype: nat, rclass: nat, ttl: int, data: Data)

  datatype Question = Question(name: string, qtype: nat, qclass: nat)

  datatype Flags = Flags(qr: bool, opcode: nat, aa: bool, tc: bool, rd: bool, ra: bool, ad: bool, cd: bool, rcode: nat)

  datatype Message = Message(id: nat, flags: Flags, questions: seq<Question>,
                             answers: seq<Record>, authorities: seq<Record>, additionals: seq<Record>, trailing: Buffer)

  datatype Options = Options(rcode: nat, authoritative: bool, recursionAvailable: bool, authenticatedData: bool)

  // ---- Record data ----

  function Name(name: string): Result<Buffer, Failure> {
    match WireNames.Encode(name)
    case Ok(b) => Ok(b)
    case Err(e) => Err(BadName(e))
  }

  predicate Fits16(n: int) { 0 <= n < 0x1_0000 }

  predicate Fits32(n: int) { 0 <= n < 0x1_0000_0000 }

  // Text in chunks of up to 255 octets, each behind its length; at least one chunk.
  function Chunks(text: Buffer): Buffer
    decreases |text|
  {
    if |text| <= 255 then [|text|] + text else [255] + text[..255] + Chunks(text[255..])
  }

  function SoaNumbers(d: Data): Buffer
    requires d.Soa? && Fits32(d.serial) && Fits32(d.refresh) && Fits32(d.retry) && Fits32(d.expire) && Fits32(d.minimum)
  {
    U32(d.serial) + (U32(d.refresh) + (U32(d.retry) + (U32(d.expire) + U32(d.minimum))))
  }

  // `isIp` is net.isIP: 4, 6, or 0 for a text that is no address.
  function EncodeData(isIp: string -> nat, d: Data, rtype: nat): Result<Buffer, Failure> {
    if rtype == TYPE_A then
      if !d.Address? || isIp(d.text) != 4 || ParseIpv4(d.text).None? then Err(BadData) else Ok(ParseIpv4(d.text).value)
    else if rtype == TYPE_AAAA then
      if !d.Address? || isIp(d.text) != 6 || EncodeIpv6(d.text).None? then Err(BadData) else Ok(EncodeIpv6(d.text).value)
    else if rtype == TYPE_NS || rtype == TYPE_CNAME then
      if !d.Target? then Err(BadData) else Name(d.name)
    else if rtype == TYPE_SOA then
      if !d.Soa? || !(Fits32(d.serial) && Fits32(d.refresh) && Fits32(d.retry) && Fits32(d.expire) && Fits32(d.minimum))
      then Err(BadData)
      else if Name(d.mname).Err? then Name(d.mname)
      else if Name(d.rname).Err? then Name(d.rname)
      else Ok(Name(d.mname).value + (Name(d.rname).value + SoaNumbers(d)))
    else if rtype == TYPE_TXT then
      if !d.Txt? then Err(BadData) else Ok(Chunks(ToBytes(d.text)))
    else if rtype == TYPE_MX then
      if !d.Exchange? || !Fits16(d.priority) then Err(BadData)
      else if Name(d.exchange).Err? then Name(d.exchange)
      else Ok(U16(d.priority) + Name(d.exchange).value)
    else if rtype == TYPE_SRV then
      if !d.Service? || !Fits16(d.priority) || !Fits16(d.weight) || !Fits16(d.port) then Err(BadData)
      else if Name(d.target).Err? then Name(d.target)
      else Ok(U16(d.priority) + (U16(d.weight) + (U16(d.port) + Name(d.target).value)))
    else if d.Raw? then Ok(d.data)
    else Err(BadData)
  }

  function ReadName(b: Buffer, o: int): Result<WireNames.Name, Failure> {
    match WireNames.Decode(b, o)
    case Ok(n) => Ok(n)
    case Err(e) => Err(BadName(e))
  }

  // The concatenated chunks between o and end.
  function ReadChunks(b: Buffer, o: nat, end: nat): Result<Buffer, Failure>
    requires end <= |b|
    decreases end - o
  {
    if o >= end then Ok([])
    else if o + 1 + b[o] > end then Err(Truncated)
    else match ReadChunks(b, o + 1 + b[o], end)
      case Err(e) => Err(e)
      case Ok(rest) => Ok(b[o + 1..o + 1 + b[o]] + rest)
  }

  function ParseData(b: Buffer, rtype: nat, start: nat, length: nat): Result<Data, Failure> {
    var end := start + length;
    if end > |b| then Err(Truncated)
    else if rtype == TYPE_A && length == 4 then Ok(Address(FormatIpv4(b[start..end])))
    else if rtype == TYPE_AAAA && length == 16 then Ok(Address(FormatIpv6(b[start..end])))
    else if rtype == TYPE_NS || rtype == TYPE_CNAME then
      match ReadName(b, start)
      case Err(e) => Err(e)
      case Ok(n) => Ok(Target(n.text))
    else if rtype == TYPE_SOA then
      match ReadName(b, start)
      case Err(e) => Err(e)
      case Ok(m) =>
        match ReadName(b, m.next)
        case Err(e) => Err(e)
        case Ok(r) =>
          if r.next + 20 > end then Err(Truncated)
          else Ok(Soa(m.text, r.text, ReadU32(b, r.next), ReadU32(b, r.next + 4), ReadU32(b, r.next + 8),
                      ReadU32(b, r.next + 12), ReadU32(b, r.next + 16)))
    else if rtype == TYPE_MX then
      if length < 3 then Err(Truncated)
      else match ReadName(b, start + 2)
        case Err(e) => Err(e)
        case Ok(n) => Ok(Exchange(ReadU16(b, start), n.text))
    else if rtype == TYPE_TXT then
      match ReadChunks(b, start, end)
      case Err(e) => Err(e)
      case Ok(text) => Ok(Txt(FromBytes(text)))
    else if rtype == TYPE_SRV then
      if length < 7 then Err(Truncated)
      else match ReadName(b, start + 6)
        case Err(e) => Err(e)
        case Ok(n) => Ok(Service(ReadU16(b, start), ReadU16(b, start + 2), ReadU16(b, start + 4), n.text))
    else Ok(Raw(b[start..end]))
  }

  // ---- Records and questions ----

  function EncodeRecord(isIp: string -> nat, r: Record): Result<Buffer, Failure> {
    match EncodeData(isIp, r.data, r.rtype)
    case Err(e) => Err(e)
    case Ok(data) =>
      var ttl := if r.ttl < 0 then 0 else r.ttl;
      if r.rtype >= 0x1_0000 || r.rclass >= 0x1_0000 || !Fits32(ttl) || |data| >= 0x1_0000 then Err(TooLong)
      else if Name(r.name).Err? then Name(r.name)
      else Ok(Name(r.name).value + (U16(r.rtype) + (U16(r.rclass) + (U32(ttl) + (U16(|data|) + data)))))
  }

  function EncodeQuestion(q: Question): Result<Buffer, Failure> {
    if q.qtype >= 0x1_0000 || q.qclass >= 0x1_0000 then Err(TooLong)
    else if Name(q.name).Err? then Name(q.name)
    else Ok(Name(q.name).value + (U16(q.qtype) + U16(q.qclass)))
  }

  datatype Parsed<T> = Parsed(value: T, next: nat)

  function ParseQuestion(b: Buffer, o: int): Result<Parsed<Question>, Failure> {
    match ReadName(b, o)
    case Err(e) => Err(e)
    case Ok(n) =>
      if n.next + 4 > |b| then Err(Truncated)
      else Ok(Parsed(Question(n.text, ReadU16(b, n.next), ReadU16(b, n.next + 2)), n.next + 4))
  }

  function ParseRecord(b: Buffer, o: int): Result<Parsed<Record>, Failure> {
    match ReadName(b, o)
    case Err(e) => Err(e)
    case Ok(n) =>
      if n.next + 10 > |b| then Err(Truncated)
      else
        var rtype, length := ReadU16(b, n.next), ReadU16(b, n.next + 8);
        match ParseData(b, rtype, n.next + 10, length)
        case Err(e) => Err(e)
        case Ok(data) =>
          Ok(Parsed(Record(n.text, rtype, ReadU16(b, n.next + 2), ReadU32(b, n.next + 4), data), n.next + 10 + length))
  }

  // ---- Sections, header, message ----

  function ParseQuestions(b: Buffer, o: nat, count: nat): Result<Parsed<seq<Question>>, Failure>
    decreases count
  {
    if count == 0 then Ok(Parsed([], o))
    else match ParseQuestion(b, o)
      case Err(e) => Err(e)
      case Ok(q) =>
        match ParseQuestions(b, q.next, count - 1)
        case Err(e) => Err(e)
        case Ok(rest) => Ok(Parsed([q.value] + rest.value, rest.next))
  }

  function ParseRecords(b: Buffer, o: nat, count: nat): Result<Parsed<seq<Record>>, Failure>
    decreases count
  {
    if count == 0 then Ok(Parsed([], o))
    else match ParseRecord(b, o)
      case Err(e) => Err(e)
      case Ok(r) =>
        match ParseRecords(b, r.next, count - 1)
        case Err(e) => Err(e)
        case Ok(rest) => Ok(Parsed([r.value] + rest.value, rest.next))
  }

  function Bit(n: nat, bit: nat): bool
    requires bit > 0
  {
    n / bit % 2 == 1
  }

  function ParseFlags(n: nat): Flags {
    Flags(Bit(n, 0x8000), n / 0x800 % 16, Bit(n, 0x400), Bit(n, 0x200), Bit(n, 0x100), Bit(n, 0x80), Bit(n, 0x20), Bit(n, 0x10), n % 16)
  }

  function ParseMessage(b: Buffer): Result<Message, Failure> {
    if |b| < 12 then Err(Truncated)
    else
      match ParseQuestions(b, 12, ReadU16(b, 4))
      case Err(e) => Err(e)
      case Ok(qs) =>
        match ParseRecords(b, qs.next, ReadU16(b, 6))
        case Err(e) => Err(e)
        case Ok(an) =>
          match ParseRecords(b, an.next, ReadU16(b, 8))
          case Err(e) => Err(e)
          case Ok(au) =>
            match ParseRecords(b, au.next, ReadU16(b, 10))
            case Err(e) => Err(e)
            case Ok(ad) =>
              Ok(Message(ReadU16(b, 0), ParseFlags(ReadU16(b, 2)), qs.value, an.value, au.value, ad.value,
                         if ad.next <= |b| then b[ad.next..] else []))
  }

  function EncodeQuestions(qs: seq<Question>): Result<Buffer, Failure> {
    if qs == [] then Ok([])
    else if EncodeQuestion(qs[0]).Err? then EncodeQuestion(qs[0])
    else if EncodeQuestions(qs[1..]).Err? then EncodeQuestions(qs[1..])
    else Ok(EncodeQuestion(qs[0]).value + EncodeQuestions(qs[1..]).value)
  }

  function EncodeRecords(isIp: string -> nat, rs: seq<Record>): Result<Buffer, Failure> {
    if rs == [] then Ok([])
    else if EncodeRecord(isIp, rs[0]).Err? then EncodeRecord(isIp, rs[0])
    else if EncodeRecords(isIp, rs[1..]).Err? then EncodeRecords(isIp, rs[1..])
    else Ok(EncodeRecord(isIp, rs[0]).value + EncodeRecords(isIp, rs[1..]).value)
  }

  function On(b: bool, bit: nat): nat { if b then bit else 0 }

  function ResponseFlags(query: Flags, options: Options): nat {
    0x8000 + query.opcode * 0x800 + On(options.authoritative, 0x400) + On(query.rd, 0x100)
      + On(options.recursionAvailable, 0x80) + On(options.authenticatedData, 0x20) + options.rcode % 16
  }

  function Header(id: nat, flags: nat, qd: nat, an: nat, ns: nat, ar: nat): (h: Buffer)
    requires Fits16(id) && Fits16(flags) && Fits16(qd) && Fits16(an) && Fits16(ns) && Fits16(ar)
    ensures |h| == 12
  {
    U16(id) + (U16(flags) + (U16(qd) + (U16(an) + (U16(ns) + U16(ar)))))
  }

  function BuildResponse(isIp: string -> nat, queryWire: Buffer, answers: seq<Record>, authorities: seq<Record>,
                         additionals: seq<Record>, options: Options): Result<Buffer, Failure> {
    match ParseMessage(queryWire)
    case Err(e) => Err(e)
    case Ok(query) =>
      var qs, an := EncodeQuestions(query.questions), EncodeRecords(isIp, answers);
      var au, ad := EncodeRecords(isIp, authorities), EncodeRecords(isIp, additionals);
      var flags := ResponseFlags(query.flags, options);
      if qs.Err? then qs
      else if an.Err? then an
      else if au.Err? then au
      else if ad.Err? then ad
      else if !Fits16(query.id) || !Fits16(flags) || !Fits16(|query.questions|) || !Fits16(|answers|)
           || !Fits16(|authorities|) || !Fits16(|additionals|) then Err(TooLong)
      else Ok(Header(query.id, flags, |query.questions|, |answers|, |authorities|, |additionals|)
                + (qs.value + (an.value + (au.value + ad.value))))
  }

  // ---- Normal forms: what a reader of the encoded record sees ----

  function NormalData(d: Data, rtype: nat): Data {
    match d
    case Address(text) =>
      if rtype == TYPE_A then d
      else if EncodeIpv6(text).Some? && |EncodeIpv6(text).value| == 16 then Address(FormatIpv6(EncodeIpv6(text).value))
      else d
    case Target(name) => Target(NormalizeName(name))
    case Soa(m, r, _, _, _, _, _) => d.(mname := NormalizeName(m), rname := NormalizeName(r))
    case Exchange(_, x) => d.(exchange := NormalizeName(x))
    case Service(_, _, _, t) => d.(target := NormalizeName(t))
    case Txt(_) => d
    case Raw(_) => d
  }

  function NormalRecord(r: Record): Record {
    Record(NormalizeName(r.name), r.rtype, r.rclass, if r.ttl < 0 then 0 else r.ttl, NormalData(r.data, r.rtype))
  }

  // All text in the record is given by octets.
  predicate DataOctets(d: Data) {
    match d
    case Address(_) => true
    case Target(name) => Octets(name)
    case Soa(m, r, _, _, _, _, _) => Octets(m) && Octets(r)
    case Exchange(_, x) => Octets(x)
    case Txt(text) => Octets(text)
    case Service(_, _, _, t) => Octets(t)
    case Raw(_) => true
  }

  predicate RecordOctets(r: Record) {
    Octets(r.name) && DataOctets(r.data)
  }

  // ---- Round trip of one record ----

  lemma NameReads(b: Buffer, o: nat, name: string)
    requires Name(name).Ok? && Octets(name) && At(b, o, Name(name).value)
    ensures ReadName(b, o) == Ok(WireNames.Name(NormalizeName(name), o + |Name(name).value|))
    ensures 1 <= |Name(name).value| <= 255
  {
    WireNames.EncodedNameDecodes(b, o, name);
    WireNames.EncodedNameLength(name);
  }

  lemma {:induction false} ChunksRead(b: Buffer, o: nat, text: Buffer)
    requires At(b, o, Chunks(text))
    ensures ReadChunks(b, o, o + |Chunks(text)|) == Ok(text)
    decreases |text|
  {
    if |text| <= 255 {
      AtByte(b, o, Chunks(text), 0);
      AtSplit(b, o, [|text|], text);
      assert text + [] == text;
    } else {
      var rest := Chunks(text[255..]);
      AtByte(b, o, Chunks(text), 0);
      assert [255] + text[..255] + rest == [255] + (text[..255] + rest);
      AtSplit(b, o, [255], text[..255] + rest);
      AtSplit(b, o + 1, text[..255], rest);
      ChunksRead(b, o + 256, text[255..]);
      assert text == text[..255] + text[255..];
    }
  }

  lemma SoaReads(b: Buffer, start: nat, d: Data)
    requires d.Soa? && DataOctets(d) && Name(d.mname).Ok? && Name(d.rname).Ok?
    requires Fits32(d.serial) && Fits32(d.refresh) && Fits32(d.retry) && Fits32(d.expire) && Fits32(d.minimum)
    requires At(b, start, Name(d.mname).value + (Name(d.rname).value + SoaNumbers(d)))
    ensures ParseData(b, TYPE_SOA, start, |Name(d.mname).value + (Name(d.rname).value + SoaNumbers(d))|) == Ok(NormalData(d, TYPE_SOA))
  {
    hide Name, ReadName, SoaNumbers, ReadU32;
    var m, r := Name(d.mname).value, Name(d.rname).value;
    AtSplit(b, start, m, r + SoaNumbers(d));
    AtSplit(b, start + |m|, r, SoaNumbers(d));
    NameReads(b, start, d.mname);
    NameReads(b, start + |m|, d.rname);
    SoaNumbersRead(b, start + |m| + |r|, d);
  }

  lemma SoaNumbersRead(b: Buffer, o: nat, d: Data)
    requires d.Soa? && Fits32(d.serial) && Fits32(d.refresh) && Fits32(d.retry) && Fits32(d.expire) && Fits32(d.minimum)
    requires At(b, o, SoaNumbers(d))
    ensures o + 20 <= |b| && |SoaNumbers(d)| == 20
    ensures ReadU32(b, o) == d.serial && ReadU32(b, o + 4) == d.refresh && ReadU32(b, o + 8) == d.retry
    ensures ReadU32(b, o + 12) == d.expire && ReadU32(b, o + 16) == d.minimum
  {
    hide U32, ReadU32;
    AtSplit(b, o, U32(d.serial), U32(d.refresh) + (U32(d.retry) + (U32(d.expire) + U32(d.minimum))));
    AtSplit(b, o + 4, U32(d.refresh), U32(d.retry) + (U32(d.expire) + U32(d.minimum)));
    AtSplit(b, o + 8, U32(d.retry), U32(d.expire) + U32(d.minimum));
    AtSplit(b, o + 12, U32(d.expire), U32(d.minimum));
    ReadsU32(b, o, d.serial);
    ReadsU32(b, o + 4, d.refresh);
    ReadsU32(b, o + 8, d.retry);
    ReadsU32(b, o + 12, d.expire);
    ReadsU32(b, o + 16, d.minimum);
  }

  lemma ExchangeReads(b: Buffer, start: nat, d: Data)
    requires d.Exchange? && DataOctets(d) && Fits16(d.priority) && Name(d.exchange).Ok?
    requires At(b, start, U16(d.priority) + Name(d.exchange).value)
    ensures ParseData(b, TYPE_MX, start, 2 + |Name(d.exchange).value|) == Ok(NormalData(d, TYPE_MX))
  {
    AtSplit(b, start, U16(d.priority), Name(d.exchange).value);
    ReadsU16(b, start, d.priority);
    NameReads(b, start + 2, d.exchange);
  }

  lemma ServiceReads(b: Buffer, start: nat, d: Data)
    requires d.Service? && DataOctets(d) && Fits16(d.priority) && Fits16(d.weight) && Fits16(d.port) && Name(d.target).Ok?
    requires At(b, start, U16(d.priority) + (U16(d.weight) + (U16(d.port) + Name(d.target).value)))
    ensures ParseData(b, TYPE_SRV, start, 6 + |Name(d.target).value|) == Ok(NormalData(d, TYPE_SRV))
  {
    var t := Name(d.target).value;
    AtSplit(b, start, U16(d.priority), U16(d.weight) + (U16(d.port) + t));
    AtSplit(b, start + 2, U16(d.weight), U16(d.port) + t);
    AtSplit(b, start + 4, U16(d.port), t);
    ReadsU16(b, start, d.priority);
    ReadsU16(b, start + 2, d.weight);
    ReadsU16(b, start + 4, d.port);
    NameReads(b, start + 6, d.target);
  }

  lemma DataReads(isIp: string -> nat, b: Buffer, start: nat, d: Data, rtype: nat)
    requires EncodeData(isIp, d, rtype).Ok? && At(b, start, EncodeData(isIp, d, rtype).value) && DataOctets(d)
    requires rtype == TYPE_AAAA ==> |EncodeData(isIp, d, rtype).value| == 16
    ensures ParseData(b, rtype, start, |EncodeData(isIp, d, rtype).value|) == Ok(NormalData(d, rtype))
  {
    hide Name, ReadName, Chunks, ReadChunks, ParseIpv4, EncodeIpv6, FormatIpv4, FormatIpv6, NormalizeName;
    var data := EncodeData(isIp, d, rtype).value;
    if rtype == TYPE_A {
      Ipv4TextIsNormal(d.text);
    } else if rtype == TYPE_NS || rtype == TYPE_CNAME {
      NameReads(b, start, d.name);
    } else if rtype == TYPE_SOA {
      SoaReads(b, start, d);
    } else if rtype == TYPE_MX {
      ExchangeReads(b, start, d);
    } else if rtype == TYPE_TXT {
      ChunksRead(b, start, ToBytes(d.text));
      TextRoundTrip(d.text);
    } else if rtype == TYPE_SRV {
      ServiceReads(b, start, d);
    }
  }

  // A record, wherever it stands in a message, parses to its normal form and ends where its octets end.
  lemma RecordReads(isIp: string -> nat, b: Buffer, o: nat, r: Record)
    requires EncodeRecord(isIp, r).Ok? && At(b, o, EncodeRecord(isIp, r).value) && RecordOctets(r)
    ensures ParseRecord(b, o) == Ok(Parsed(NormalRecord(r), o + |EncodeRecord(isIp, r).value|))
  {
    hide Name, ReadName, EncodeData, ParseData, NormalData, U32, ReadU32, U16, ReadU16;
    var data := EncodeData(isIp, r.data, r.rtype).value;
    var ttl := if r.ttl < 0 then 0 else r.ttl;
    var name := Name(r.name).value;
    AtSplit(b, o, name, U16(r.rtype) + (U16(r.rclass) + (U32(ttl) + (U16(|data|) + data))));
    NameReads(b, o, r.name);
    FixedFieldsRead(b, o + |name|, r.rtype, r.rclass, ttl, data);
    if r.rtype == TYPE_AAAA { AddressLength(isIp, r.data, r.rtype); }
    DataReads(isIp, b, o + |name| + 10, r.data, r.rtype);
  }

  // The ten octets between a record's name and its data.
  lemma FixedFieldsRead(b: Buffer, f: nat, rtype: nat, rclass: nat, ttl: nat, data: Buffer)
    requires Fits16(rtype) && Fits16(rclass) && Fits32(ttl) && Fits16(|data|)
    requires At(b, f, U16(rtype) + (U16(rclass) + (U32(ttl) + (U16(|data|) + data))))
    ensures f + 10 <= |b| && At(b, f + 10, data)
    ensures ReadU16(b, f) == rtype && ReadU16(b, f + 2) == rclass && ReadU32(b, f + 4) == ttl && ReadU16(b, f + 8) == |data|
  {
    hide U16, U32, ReadU16, ReadU32;
    AtSplit(b, f, U16(rtype), U16(rclass) + (U32(ttl) + (U16(|data|) + data)));
    AtSplit(b, f + 2, U16(rclass), U32(ttl) + (U16(|data|) + data));
    AtSplit(b, f + 4, U32(ttl), U16(|data|) + data);
    AtSplit(b, f + 8, U16(|data|), data);
    ReadsU16(b, f, rtype);
    ReadsU16(b, f + 2, rclass);
    ReadsU32(b, f + 4, ttl);
    ReadsU16(b, f + 8, |data|);
  }

  lemma AddressLength(isIp: string -> nat, d: Data, rtype: nat)
    requires EncodeData(isIp, d, rtype).Ok? && rtype == TYPE_AAAA
    ensures |EncodeData(isIp, d, rtype).value| == 16
  {
    Ipv6Length(d.text);
  }

  // ---- Round trip of sections and messages ----

  function NormalQuestion(q: Question): Question {
    q.(name := NormalizeName(q.name))
  }

  function NormalRecords(rs: seq<Record>): seq<Record> {
    seq(|rs|, i requires 0 <= i < |rs| => NormalRecord(rs[i]))
  }

  function NormalQuestions(qs: seq<Question>): seq<Question> {
    seq(|qs|, i requires 0 <= i < |qs| => NormalQuestion(qs[i]))
  }

  lemma QuestionReads(b: Buffer, o: nat, q: Question)
    requires EncodeQuestion(q).Ok? && At(b, o, EncodeQuestion(q).value) && Octets(q.name)
    ensures ParseQuestion(b, o) == Ok(Parsed(NormalQuestion(q), o + |EncodeQuestion(q).value|))
  {
    hide Name, ReadName, ReadU16, U16, At;
    var name := Name(q.name).value;
    AtSplit(b, o, name, U16(q.qtype) + U16(q.qclass));
    AtSplit(b, o + |name|, U16(q.qtype), U16(q.qclass));
    NameReads(b, o, q.name);
    ReadsU16(b, o + |name|, q.qtype);
    ReadsU16(b, o + |name| + 2, q.qclass);
  }

  lemma {:induction false} QuestionsRead(b: Buffer, o: nat, qs: seq<Question>)
    requires EncodeQuestions(qs).Ok? && At(b, o, EncodeQuestions(qs).value)
    requires forall i :: 0 <= i < |qs| ==> Octets(qs[i].name)
    decreases |qs|
    ensures ParseQuestions(b, o, |qs|) == Ok(Parsed(NormalQuestions(qs), o + |EncodeQuestions(qs).value|))
  {
    hide EncodeQuestion, ParseQuestion, NormalQuestion, Octets;
    if qs != [] {
      var q, rest := EncodeQuestion(qs[0]).value, EncodeQuestions(qs[1..]).value;
      AtSplit(b, o, q, rest);
      QuestionReads(b, o, qs[0]);
      QuestionsRead(b, o + |q|, qs[1..]);
      assert NormalQuestions(qs) == [NormalQuestion(qs[0])] + NormalQuestions(qs[1..]);
    }
  }

  lemma {:induction false} RecordsRead(isIp: string -> nat, b: Buffer, o: nat, rs: seq<Record>)
    requires EncodeRecords(isIp, rs).Ok? && At(b, o, EncodeRecords(isIp, rs).value)
    requires forall i :: 0 <= i < |rs| ==> RecordOctets(rs[i])
    decreases |rs|
    ensures ParseRecords(b, o, |rs|) == Ok(Parsed(NormalRecords(rs), o + |EncodeRecords(isIp, rs).value|))
  {
    hide EncodeRecord, ParseRecord, NormalRecord;
    if rs != [] {
      var r, rest := EncodeRecord(isIp, rs[0]).value, EncodeRecords(isIp, rs[1..]).value;
      AtSplit(b, o, r, rest);
      RecordReads(isIp, b, o, rs[0]);
      RecordsRead(isIp, b, o + |r|, rs[1..]);
      assert NormalRecords(rs) == [NormalRecord(rs[0])] + NormalRecords(rs[1..]);
    }
  }

  lemma HeaderReads(b: Buffer, id: nat, flags: nat, qd: nat, an: nat, ns: nat, ar: nat)
    requires Fits16(id) && Fits16(flags) && Fits16(qd) && Fits16(an) && Fits16(ns) && Fits16(ar)
    requires At(b, 0, Header(id, flags, qd, an, ns, ar))
    ensures |b| >= 12 && ReadU16(b, 0) == id && ReadU16(b, 2) == flags && ReadU16(b, 4) == qd
    ensures ReadU16(b, 6) == an && ReadU16(b, 8) == ns && ReadU16(b, 10) == ar
  {
    hide U16, ReadU16;
    AtSplit(b, 0, U16(id), U16(flags) + (U16(qd) + (U16(an) + (U16(ns) + U16(ar)))));
    AtSplit(b, 2, U16(flags), U16(qd) + (U16(an) + (U16(ns) + U16(ar))));
    AtSplit(b, 4, U16(qd), U16(an) + (U16(ns) + U16(ar)));
    AtSplit(b, 6, U16(an), U16(ns) + U16(ar));
    AtSplit(b, 8, U16(ns), U16(ar));
    ReadsU16(b, 0, id);
    ReadsU16(b, 2, flags);
    ReadsU16(b, 4, qd);
    ReadsU16(b, 6, an);
    ReadsU16(b, 8, ns);
    ReadsU16(b, 10, ar);
  }

  lemma FlagsRoundTrip(query: Flags, options: Options)
    requires query.opcode < 16
    ensures Fits16(ResponseFlags(query, options))
    ensures ParseFlags(ResponseFlags(query, options)) ==
      Flags(true, query.opcode, options.authoritative, false, query.rd, options.recursionAvailable,
            options.authenticatedData, false, options.rcode % 16)
  {
    var n := ResponseFlags(query, options);
    FlagDigits(n, query.opcode, On(options.authoritative, 1), On(query.rd, 1), On(options.recursionAvailable, 1),
               On(options.authenticatedData, 1), options.rcode % 16);
  }

  // Reading the flag word digit by digit; a, r, v and d are the AA, RD, RA and AD bits.
  lemma FlagDigits(n: nat, opcode: nat, a: nat, r: nat, v: nat, d: nat, low: nat)
    requires opcode < 16 && a < 2 && r < 2 && v < 2 && d < 2 && low < 16
    requires n == 0x8000 + opcode * 0x800 + a * 0x400 + r * 0x100 + v * 0x80 + d * 0x20 + low
    ensures n < 0x1_0000 && n % 16 == low
    ensures n / 0x8000 == 1 && n / 0x800 % 16 == opcode && n / 0x400 % 2 == a && n / 0x200 % 2 == 0
    ensures n / 0x100 % 2 == r && n / 0x80 % 2 == v && n / 0x20 % 2 == d && n / 0x10 % 2 == 0
  {
    HighDigits(n, opcode, a, r * 0x100 + v * 0x80 + d * 0x20 + low);
    var top := (16 + opcode) * 4 + a * 2;
    LowDigits(n, top, r, v, d, low);
  }

  lemma HighDigits(n: nat, opcode: nat, a: nat, rest: nat)
    requires opcode < 16 && a < 2 && rest < 0x200 && n == 0x8000 + opcode * 0x800 + a * 0x400 + rest
    ensures n < 0x1_0000 && n / 0x8000 == 1 && n / 0x800 % 16 == opcode && n / 0x400 % 2 == a && n / 0x200 % 2 == 0
  {
    assert n / 0x800 == 16 + opcode;
    assert n / 0x400 == 32 + opcode * 2 + a;
    assert n / 0x200 == 64 + opcode * 4 + a * 2;
  }

  lemma LowDigits(n: nat, top: nat, r: nat, v: nat, d: nat, low: nat)
    requires r < 2 && v < 2 && d < 2 && low < 16 && n == top * 0x200 + r * 0x100 + v * 0x80 + d * 0x20 + low
    ensures n % 16 == low && n / 0x100 % 2 == r && n / 0x80 % 2 == v && n / 0x20 % 2 == d && n / 0x10 % 2 == 0
  {
    Bit8(n, top, r, v * 0x80 + d * 0x20 + low);
    Bit7(n, top * 2 + r, v, d * 0x20 + low);
    Bit5(n, top * 8 + r * 4 + v * 2, d, low);
    Bit4(n, top * 16 + r * 8 + v * 4 + d, 0, low);
  }

  lemma Bit8(n: nat, q: nat, bit: nat, rest: nat)
    requires bit < 2 && rest < 0x100 && n == q * 0x200 + bit * 0x100 + rest
    ensures n / 0x100 % 2 == bit
  {
    assert n / 0x100 == q * 2 + bit;
  }

  lemma Bit7(n: nat, q: nat, bit: nat, rest: nat)
    requires bit < 2 && rest < 0x80 && n == q * 0x100 + bit * 0x80 + rest
    ensures n / 0x80 % 2 == bit
  {
    assert n / 0x80 == q * 2 + bit;
  }

  lemma Bit5(n: nat, q: nat, bit: nat, rest: nat)
    requires bit < 2 && rest < 0x20 && n == q * 0x40 + bit * 0x20 + rest
    ensures n / 0x20 % 2 == bit
  {
    assert n / 0x20 == q * 2 + bit;
  }

  lemma Bit4(n: nat, q: nat, bit: nat, rest: nat)
    requires bit < 2 && rest < 0x10 && n == q * 0x20 + bit * 0x10 + rest
    ensures n / 0x10 % 2 == bit && n % 0x10 == rest
  {
    assert n / 0x10 == q * 2 + bit;
  }

  lemma {:induction false} ParsedQuestionsAreOctets(b: Buffer, o: nat, count: nat)
    requires ParseQuestions(b, o, count).Ok?
    ensures var qs := ParseQuestions(b, o, count).value.value; |qs| == count && forall i :: 0 <= i < |qs| ==> Octets(qs[i].name)
    decreases count
  {
    if count > 0 {
      var q := ParseQuestion(b, o).value;
      WireNames.DecodedIsOctets(b, o, {});
      ParsedQuestionsAreOctets(b, q.next, count - 1);
    }
  }

  // A message whose sections parse one behind the other up to its end.
  lemma SectionsParse(b: Buffer, qs: Parsed<seq<Question>>, an: Parsed<seq<Record>>, au: Parsed<seq<Record>>, ad: Parsed<seq<Record>>)
    requires |b| >= 12 && ParseQuestions(b, 12, ReadU16(b, 4)) == Ok(qs) && ParseRecords(b, qs.next, ReadU16(b, 6)) == Ok(an)
    requires ParseRecords(b, an.next, ReadU16(b, 8)) == Ok(au) && ParseRecords(b, au.next, ReadU16(b, 10)) == Ok(ad) && ad.next == |b|
    ensures ParseMessage(b) == Ok(Message(ReadU16(b, 0), ParseFlags(ReadU16(b, 2)), qs.value, an.value, au.value, ad.value, []))
  {
    hide ParseQuestions, ParseRecords, ReadU16, ParseFlags;
    assert b[|b|..] == [];
  }

  lemma BuiltParts(isIp: string -> nat, queryWire: Buffer, answers: seq<Record>, authorities: seq<Record>,
                   additionals: seq<Record>, options: Options)
    requires BuildResponse(isIp, queryWire, answers, authorities, additionals, options).Ok?
    ensures ParseMessage(queryWire).Ok?
    ensures var query := ParseMessage(queryWire).value; var qs := EncodeQuestions(query.questions);
      var an, au, ad := EncodeRecords(isIp, answers), EncodeRecords(isIp, authorities), EncodeRecords(isIp, additionals);
      var flags := ResponseFlags(query.flags, options);
      && qs.Ok? && an.Ok? && au.Ok? && ad.Ok? && Fits16(query.id) && Fits16(flags) && Fits16(|query.questions|)
      && Fits16(|answers|) && Fits16(|authorities|) && Fits16(|additionals|)
      && BuildResponse(isIp, queryWire, answers, authorities, additionals, options).value ==
           Header(query.id, flags, |query.questions|, |answers|, |authorities|, |additionals|)
             + (qs.value + (an.value + (au.value + ad.value)))
  {
    hide ParseMessage, EncodeQuestions, EncodeRecords, Header, ResponseFlags;
  }

  lemma WireQuestionsAreOctets(b: Buffer)
    requires ParseMessage(b).Ok?
    ensures var qs := ParseMessage(b).value.questions; forall i :: 0 <= i < |qs| ==> Octets(qs[i].name)
  {
    hide ParseQuestions, ParseRecords, ReadU16, ParseFlags;
    ParsedQuestionsAreOctets(b, 12, ReadU16(b, 4));
  }

  // Main result: whenever a response can be built, parsing it gives back the query's identity, opcode and
  // recursion bit, the chosen flags, and every question and record in order and normal form, with nothing left.
  lemma ResponseRoundTrip(isIp: string -> nat, queryWire: Buffer, answers: seq<Record>, authorities: seq<Record>,
                          additionals: seq<Record>, options: Options)
    requires BuildResponse(isIp, queryWire, answers, authorities, additionals, options).Ok?
    requires forall i :: 0 <= i < |answers| ==> RecordOctets(answers[i])
    requires forall i :: 0 <= i < |authorities| ==> RecordOctets(authorities[i])
    requires forall i :: 0 <= i < |additionals| ==> RecordOctets(additionals[i])
    ensures ParseMessage(queryWire).Ok?
    ensures var query := ParseMessage(queryWire).value;
      ParseMessage(BuildResponse(isIp, queryWire, answers, authorities, additionals, options).value) ==
        Ok(Message(query.id,
                   Flags(true, query.flags.opcode, options.authoritative, false, query.flags.rd, options.recursionAvailable,
                         options.authenticatedData, false, options.rcode % 16),
                   NormalQuestions(query.questions), NormalRecords(answers), NormalRecords(authorities),
                   NormalRecords(additionals), []))
  {
    hide BuildResponse, ParseMessage, EncodeQuestions, EncodeRecords, ParseQuestions, ParseRecords, NormalQuestions, NormalRecords, ReadU16,
      ResponseFlags, ParseFlags, Octets, RecordOctets, Fits16, At, Header;
    BuiltParts(isIp, queryWire, answers, authorities, additionals, options);
    var query := ParseMessage(queryWire).value;
    var w := BuildResponse(isIp, queryWire, answers, authorities, additionals, options).value;
    var qs, an := EncodeQuestions(query.questions).value, EncodeRecords(isIp, answers).value;
    var au, ad := EncodeRecords(isIp, authorities).value, EncodeRecords(isIp, additionals).value;
    var flags := ResponseFlags(query.flags, options);
    var header := Header(query.id, flags, |query.questions|, |answers|, |authorities|, |additionals|);
    AtStart(w);
    HeaderLength(query.id, flags, |query.questions|, |answers|, |authorities|, |additionals|);
    AtSplit(w, 0, header, qs + (an + (au + ad)));
    AtSplit(w, 12, qs, an + (au + ad));
    AtSplit(w, 12 + |qs|, an, au + ad);
    AtSplit(w, 12 + |qs| + |an|, au, ad);
    HeaderReads(w, query.id, flags, |query.questions|, |answers|, |authorities|, |additionals|);
    WireQuestionsAreOctets(queryWire);
    QuestionsRead(w, 12, query.questions);
    RecordsRead(isIp, w, 12 + |qs|, answers);
    RecordsRead(isIp, w, 12 + |qs| + |an|, authorities);
    RecordsRead(isIp, w, 12 + |qs| + |an| + |au|, additionals);
    OpcodeFits(queryWire);
    FlagsRoundTrip(query.flags, options);
    var endQs, endAn, endAu := 12 + |qs|, 12 + |qs| + |an|, 12 + |qs| + |an| + |au|;
    SectionsParse(w, Parsed(NormalQuestions(query.questions), endQs), Parsed(NormalRecords(answers), endAn),
                  Parsed(NormalRecords(authorities), endAu), Parsed(NormalRecords(additionals), endAu + |ad|));
  }

  lemma AtStart(b: Buffer)
    ensures At(b, 0, b)
  {
    assert b[0..|b|] == b;
  }

  lemma HeaderLength(id: nat, flags: nat, qd: nat, an: nat, ns: nat, ar: nat)
    requires Fits16(id) && Fits16(flags) && Fits16(qd) && Fits16(an) && Fits16(ns) && Fits16(ar)
    ensures |Header(id, flags, qd, an, ns, ar)| == 12
  {
  }

  lemma OpcodeFits(b: Buffer)
    requires ParseMessage(b).Ok?
    ensures ParseMessage(b).value.flags.opcode < 16
  {
  }
}

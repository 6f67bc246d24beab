// Where the octets of a message stand (sections 3.2.1, 3.3.9, 3.3.13 and 4.1.1 of RFC 1035, and RFC 2782), for every
// buffer that parses. With the round trips this fixes what is written as well.
module WireLayout {
  import opened Wrappers
  import opened Wire
  import opened Messages
  import WireNames

  // Sixteen and thirty-two bits, the first octet counting most.
  function Short(b: Buffer, o: nat): nat
    requires o + 2 <= |b|
  {
    (b[o] as int) * 256 + b[o + 1]
  }

  function Long(b: Buffer, o: nat): nat
    requires o + 4 <= |b|
  {
    Short(b, o) * 0x1_0000 + Short(b, o + 2)
  }

  lemma ShortIsRead(b: Buffer, o: nat)
    requires o + 2 <= |b|
    ensures ReadU16(b, o) == Short(b, o)
  {
  }

  lemma LongIsRead(b: Buffer, o: nat)
    requires o + 4 <= |b|
    ensures ReadU32(b, o) == Long(b, o)
  {
  }

  // Identity, flag octets and section counts.
  lemma HeaderLayout(b: Buffer)
    requires ParseMessage(b).Ok?
    ensures |b| >= 12
    ensures var m := ParseMessage(b).value;
      && m.id == Short(b, 0)
      && m.flags == Flags(b[2] >= 128, b[2] / 8 % 16, b[2] / 4 % 2 == 1, b[2] / 2 % 2 == 1, b[2] % 2 == 1,
                          b[3] >= 128, b[3] / 32 % 2 == 1, b[3] / 16 % 2 == 1, b[3] % 16)
      && |m.questions| == Short(b, 4) && |m.answers| == Short(b, 6) && |m.authorities| == Short(b, 8)
      && |m.additionals| == Short(b, 10)
  {
    hide ParseFlags, ReadU16, ParseQuestions, ParseRecords, Short;
    ShortIsRead(b, 0);
    ShortIsRead(b, 2);
    ShortIsRead(b, 4);
    ShortIsRead(b, 6);
    ShortIsRead(b, 8);
    ShortIsRead(b, 10);
    FlagOctets(b);
    ParsedQuestionsAreOctets(b, 12, Short(b, 4));
    var q := ParseQuestions(b, 12, Short(b, 4)).value.next;
    RecordsCounted(b, q, Short(b, 6));
    var an := ParseRecords(b, q, Short(b, 6)).value.next;
    RecordsCounted(b, an, Short(b, 8));
    RecordsCounted(b, ParseRecords(b, an, Short(b, 8)).value.next, Short(b, 10));
  }

  lemma {:induction false} RecordsCounted(b: Buffer, o: nat, count: nat)
    requires ParseRecords(b, o, count).Ok?
    ensures |ParseRecords(b, o, count).value.value| == count
    decreases count
  {
    hide ParseRecord;
    if count > 0 { RecordsCounted(b, ParseRecord(b, o).value.next, count - 1); }
  }

  lemma FlagOctets(b: Buffer)
    requires |b| >= 4
    ensures ParseFlags(Short(b, 2)) ==
      Flags(b[2] >= 128, b[2] / 8 % 16, b[2] / 4 % 2 == 1, b[2] / 2 % 2 == 1, b[2] % 2 == 1,
            b[3] >= 128, b[3] / 32 % 2 == 1, b[3] / 16 % 2 == 1, b[3] % 16)
  {
    var h: nat, l: nat := b[2], b[3];
    var n := Short(b, 2);
    HighBits(n, h, l);
    LowBits(n, h, l);
    OctetBits(h, l);
    hide Short;
  }

  lemma OctetBits(h: nat, l: nat)
    requires h < 256 && l < 256
    ensures h / 128 % 2 == h / 128 && (h / 128 == 1 <==> h >= 128)
    ensures (h * 2 + l / 128) % 2 == l / 128 && (l / 128 == 1 <==> l >= 128)
    ensures (h * 8 + l / 32) % 2 == l / 32 % 2 && (h * 16 + l / 16) % 2 == l / 16 % 2
  {
  }

  lemma HighBits(n: nat, h: nat, l: nat)
    requires n == h * 256 + l && h < 256 && l < 256
    ensures n / 0x8000 == h / 128 && n / 0x800 == h / 8 && n / 0x400 == h / 4 && n / 0x200 == h / 2 && n / 0x100 == h
  {
  }

  lemma LowBits(n: nat, h: nat, l: nat)
    requires n == h * 256 + l && h < 256 && l < 256
    ensures n / 0x80 == h * 2 + l / 128 && n / 0x20 == h * 8 + l / 32 && n / 0x10 == h * 16 + l / 16 && n % 16 == l % 16
  {
  }

  // Behind the name of a question stand its type and class.
  lemma QuestionLayout(b: Buffer, o: nat)
    requires ParseQuestion(b, o).Ok?
    ensures var n := WireNames.Decode(b, o); var q := ParseQuestion(b, o).value;
      && n.Ok? && n.value.next + 4 <= |b| && q.next == n.value.next + 4
      && q.value == Question(n.value.text, Short(b, n.value.next), Short(b, n.value.next + 2))
  {
  }

  // Behind the name of a record stand type, class, TTL, the length of the data and the data.
  lemma RecordLayout(b: Buffer, o: nat)
    requires ParseRecord(b, o).Ok?
    ensures var n := WireNames.Decode(b, o); var r := ParseRecord(b, o).value;
      && n.Ok? && n.value.next + 10 <= |b|
      && var at := n.value.next;
      && r.value.name == n.value.text && r.value.rtype == Short(b, at) && r.value.rclass == Short(b, at + 2)
      && r.value.ttl == Long(b, at + 4) && r.next == at + 10 + Short(b, at + 8)
      && ParseData(b, r.value.rtype, at + 10, Short(b, at + 8)) == Ok(r.value.data)
  {
    hide ParseData;
  }

  // The data of each type, between its start and its end.
  lemma TargetLayout(b: Buffer, rtype: nat, start: nat, length: nat)
    requires ParseData(b, rtype, start, length).Ok? && (rtype == 2 || rtype == 5)
    ensures var n := WireNames.Decode(b, start);
      start + length <= |b| && n.Ok? && ParseData(b, rtype, start, length) == Ok(Target(n.value.text))
  {
    hide WireNames.Decode;
  }

  lemma ExchangeLayout(b: Buffer, start: nat, length: nat)
    requires ParseData(b, 15, start, length).Ok?
    ensures var n := WireNames.Decode(b, start + 2);
      && start + length <= |b| && length >= 3 && n.Ok?
      && ParseData(b, 15, start, length) == Ok(Exchange(Short(b, start), n.value.text))
  {
    hide WireNames.Decode;
  }

  lemma ServiceLayout(b: Buffer, start: nat, length: nat)
    requires ParseData(b, 33, start, length).Ok?
    ensures var n := WireNames.Decode(b, start + 6);
      && start + length <= |b| && length >= 7 && n.Ok?
      && ParseData(b, 33, start, length) ==
           Ok(Service(Short(b, start), Short(b, start + 2), Short(b, start + 4), n.value.text))
  {
    hide WireNames.Decode;
  }

  lemma SoaLayout(b: Buffer, start: nat, length: nat)
    requires ParseData(b, 6, start, length).Ok?
    ensures start + length <= |b| && WireNames.Decode(b, start).Ok?
    ensures var m := WireNames.Decode(b, start).value; var r := WireNames.Decode(b, m.next);
      && r.Ok? && r.value.next + 20 <= start + length
      && var at := r.value.next;
      ParseData(b, 6, start, length) ==
        Ok(Soa(m.text, r.value.text, Long(b, at), Long(b, at + 4), Long(b, at + 8), Long(b, at + 12), Long(b, at + 16)))
  {
    hide WireNames.Decode, ReadU32, Long;
    var at := WireNames.Decode(b, WireNames.Decode(b, start).value.next).value.next;
    LongIsRead(b, at);
    LongIsRead(b, at + 4);
    LongIsRead(b, at + 8);
    LongIsRead(b, at + 12);
    LongIsRead(b, at + 16);
  }
}

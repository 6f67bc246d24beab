// Which queries a response can be built for, and whose questions it then repeats unchanged.
module QueryEcho {
  import opened Wrappers
  import opened Text
  import opened Names
  import opened Wire
  import opened Messages
  import WireNames

  // ---- Questions that encode ----

  lemma {:induction false} QuestionsEncodeExactly(qs: seq<Question>)
    ensures EncodeQuestions(qs).Ok? <==> forall i :: 0 <= i < |qs| ==> EncodeQuestion(qs[i]).Ok?
  {
    hide EncodeQuestion;
    if qs != [] {
      assert qs == [qs[0]] + qs[1..];
      QuestionsEncodeExactly(qs[1..]);
    }
  }

  // A question as the parser delivers it.
  predicate Parseable(q: Question) {
    Fits16(q.qtype) && Fits16(q.qclass) && Octets(q.name) && Lower(q.name) == q.name
  }

  lemma QuestionEchoesExactly(q: Question)
    requires Parseable(q)
    ensures EncodeQuestion(q).Ok? && NormalQuestion(q) == q <==> WireNames.Encodable(q.name)
  {
    hide WireNames.Encode, NormalizeName, WireNames.Encodable, Lower;
    WireNames.SurvivesExactly(q.name);
  }

  lemma {:induction false} ParsedQuestions(b: Buffer, o: nat, count: nat)
    requires ParseQuestions(b, o, count).Ok?
    ensures var qs := ParseQuestions(b, o, count).value.value;
      |qs| == count && forall i :: 0 <= i < |qs| ==> Parseable(qs[i])
    decreases count
  {
    hide WireNames.DecodeLabels, WireNames.NameText, Octets;
    if count > 0 {
      var q := ParseQuestion(b, o).value;
      WireNames.DecodedIsOctets(b, o, {});
      WireNames.DecodedIsLower(b, o, {});
      ParsedQuestions(b, q.next, count - 1);
    }
  }

  lemma NormalQuestionsAreEqual(qs: seq<Question>)
    ensures NormalQuestions(qs) == qs <==> forall i :: 0 <= i < |qs| ==> NormalQuestion(qs[i]) == qs[i]
  {
    hide NormalQuestion;
    assert forall i :: 0 <= i < |qs| ==> NormalQuestions(qs)[i] == NormalQuestion(qs[i]);
  }

  // ---- Which queries are echoed ----

  // The records to send encode, and their numbers fit the header.
  predicate SectionsEncode(isIp: string -> nat, answers: seq<Record>, authorities: seq<Record>, additionals: seq<Record>) {
    && EncodeRecords(isIp, answers).Ok? && EncodeRecords(isIp, authorities).Ok? && EncodeRecords(isIp, additionals).Ok?
    && Fits16(|answers|) && Fits16(|authorities|) && Fits16(|additionals|)
  }

  predicate AllEncodable(qs: seq<Question>) {
    forall i :: 0 <= i < |qs| ==> WireNames.Encodable(qs[i].name)
  }

  lemma BuildsExactly(isIp: string -> nat, queryWire: Buffer, answers: seq<Record>, authorities: seq<Record>,
                      additionals: seq<Record>, options: Options)
    requires ParseMessage(queryWire).Ok? && SectionsEncode(isIp, answers, authorities, additionals)
    ensures BuildResponse(isIp, queryWire, answers, authorities, additionals, options).Ok?
      <==> EncodeQuestions(ParseMessage(queryWire).value.questions).Ok?
  {
    hide EncodeQuestions, EncodeRecords, ParseQuestions, ParseRecords, ResponseFlags, ParseFlags, Header;
    OpcodeFits(queryWire);
    FlagsRoundTrip(ParseMessage(queryWire).value.flags, options);
    ParsedQuestions(queryWire, 12, ReadU16(queryWire, 4));
  }

  // Main result: the response can be built and repeats the query's questions exactly when every question name
  // keeps the limits of an encoded name; then parsing it gives back the query's identity, opcode, recursion bit
  // and questions, the chosen flags, and every record in order and normal form, with nothing left.
  lemma EchoesExactly(isIp: string -> nat, queryWire: Buffer, answers: seq<Record>, authorities: seq<Record>,
                      additionals: seq<Record>, options: Options)
    requires ParseMessage(queryWire).Ok? && SectionsEncode(isIp, answers, authorities, additionals)
    requires forall i :: 0 <= i < |answers| ==> RecordOctets(answers[i])
    requires forall i :: 0 <= i < |authorities| ==> RecordOctets(authorities[i])
    requires forall i :: 0 <= i < |additionals| ==> RecordOctets(additionals[i])
    ensures var query := ParseMessage(queryWire).value;
      var built := BuildResponse(isIp, queryWire, answers, authorities, additionals, options);
      && (built.Ok? && ParseMessage(built.value).Ok? && ParseMessage(built.value).value.questions == query.questions
          <==> AllEncodable(query.questions))
      && (AllEncodable(query.questions) ==>
            ParseMessage(built.value) ==
            Ok(Message(query.id,
                       Flags(true, query.flags.opcode, options.authoritative, false, query.flags.rd,
                             options.recursionAvailable, options.authenticatedData, false, options.rcode % 16),
                       query.questions, NormalRecords(answers), NormalRecords(authorities),
                       NormalRecords(additionals), [])))
  {
    hide EncodeQuestions, EncodeQuestion, BuildResponse, NormalQuestions, NormalRecords, SectionsEncode, RecordOctets,
      WireNames.Encodable, NormalQuestion;
    var qs := ParseMessage(queryWire).value.questions;
    QuestionsOf(queryWire);
    hide ParseMessage, Parseable;
    BuildsExactly(isIp, queryWire, answers, authorities, additionals, options);
    QuestionsEncodeExactly(qs);
    NormalQuestionsAreEqual(qs);
    forall i | 0 <= i < |qs|
      ensures EncodeQuestion(qs[i]).Ok? && NormalQuestion(qs[i]) == qs[i] <==> WireNames.Encodable(qs[i].name)
    {
      QuestionEchoesExactly(qs[i]);
    }
    if EncodeQuestions(qs).Ok? {
      ResponseRoundTrip(isIp, queryWire, answers, authorities, additionals, options);
    }
  }

  lemma QuestionsOf(queryWire: Buffer)
    requires ParseMessage(queryWire).Ok?
    ensures var qs := ParseMessage(queryWire).value.questions; forall i :: 0 <= i < |qs| ==> Parseable(qs[i])
  {
    hide ParseQuestions, ParseRecords, ParseFlags, Parseable;
    ParsedQuestions(queryWire, 12, ReadU16(queryWire, 4));
  }

  // ---- Ordinary queries ----

  // Octets the labels take on the wire, with the final zero.
  function WireLength(labels: seq<string>): nat {
    if labels == [] then 1 else |labels[0]| + 1 + WireLength(labels[1..])
  }

  predicate PlainLabels(labels: seq<string>) {
    WireLength(labels) <= 255 && forall i :: 0 <= i < |labels| ==> Lacks(labels[i], '.')
  }

  lemma {:induction false} JoinLength(labels: seq<string>)
    requires labels != []
    ensures |Join(labels, '.')| + 2 == WireLength(labels)
  {
    if |labels| > 1 { JoinLength(labels[1..]); }
    else { assert WireLength(labels[1..]) == 1; }
  }

  function LowerAll(labels: seq<string>): seq<string> {
    seq(|labels|, i requires 0 <= i < |labels| => Lower(labels[i]))
  }

  lemma {:induction false} LowerOfJoin(labels: seq<string>)
    requires labels != []
    ensures Lower(Join(labels, '.')) == Join(LowerAll(labels), '.')
  {
    hide Lower;
    if |labels| > 1 {
      LowerOfJoin(labels[1..]);
      assert LowerAll(labels)[1..] == LowerAll(labels[1..]);
      LowerConcat(labels[0] + ['.'], Join(labels[1..], '.'));
      LowerConcat(labels[0], ['.']);
      LowerOfDot();
    }
  }

  lemma LowerKeepsLack(s: string)
    requires Lacks(s, '.')
    ensures Lacks(Lower(s), '.')
  {
  }

  lemma {:induction false} ExpandedLabelSizes(b: Buffer, o: nat, jumps: nat)
    requires WireNames.Expand(b, o, jumps).Some?
    ensures var labels := WireNames.Expand(b, o, jumps).value; forall i :: 0 <= i < |labels| ==> 1 <= |labels[i]| <= 63
    decreases jumps, |b| - o
  {
    if b[o] >= 192 { ExpandedLabelSizes(b, WireNames.Pointer(b[o], b[o + 1]), jumps - 1); }
    else if b[o] > 0 { ExpandedLabelSizes(b, o + 1 + b[o], jumps); }
  }

  lemma PlainTextEncodes(labels: seq<string>)
    requires PlainLabels(labels) && forall i :: 0 <= i < |labels| ==> 1 <= |labels[i]| <= 63
    ensures WireNames.Encodable(WireNames.NameText(labels))
  {
    hide Lower, Join, Split, WireLength;
    if labels != [] {
      JoinLength(labels);
      LowerOfJoin(labels);
      forall i | 0 <= i < |labels| ensures Lacks(LowerAll(labels)[i], '.') { LowerKeepsLack(labels[i]); }
      SplitOfJoin(LowerAll(labels), '.');
    }
  }

  // The name at an offset, pointers followed, has no dot inside a label and fits 255 octets.
  ghost predicate PlainName(b: Buffer, o: nat) {
    exists jumps: nat :: PlainWithin(b, o, jumps)
  }

  predicate PlainWithin(b: Buffer, o: nat, jumps: nat) {
    WireNames.Expand(b, o, jumps).Some? && PlainLabels(WireNames.Expand(b, o, jumps).value)
  }

  // Where the i-th question from an offset starts.
  function QuestionStart(b: Buffer, o: nat, i: nat): nat
    decreases i
  {
    if i == 0 then o else QuestionStart(b, WireNames.EndOfName(b, o) + 4, i - 1)
  }

  lemma PlainNameEncodes(b: Buffer, o: nat)
    requires PlainName(b, o)
    ensures WireNames.Decode(b, o).Ok? && WireNames.Encodable(WireNames.Decode(b, o).value.text)
    ensures WireNames.Decode(b, o).value.next == WireNames.EndOfName(b, o)
  {
    hide PlainLabels, WireNames.NameText, WireNames.Encodable, WireNames.Decode;
    var jumps: nat :| PlainWithin(b, o, jumps);
    WireNames.DecodeIsExpansion(b, o);
    ExpandedLabelSizes(b, o, jumps);
    PlainTextEncodes(WireNames.Expand(b, o, jumps).value);
  }

  lemma {:induction false} PlainQuestionsEncode(b: Buffer, o: nat, count: nat)
    requires ParseQuestions(b, o, count).Ok?
    requires forall i :: 0 <= i < count ==> PlainName(b, QuestionStart(b, o, i))
    ensures AllEncodable(ParseQuestions(b, o, count).value.value)
    decreases count
  {
    hide WireNames.Decode, WireNames.Encodable, PlainName, WireNames.EndOfName;
    if count > 0 {
      assert QuestionStart(b, o, 0) == o;
      PlainNameEncodes(b, o);
      var next := ParseQuestion(b, o).value.next;
      forall i | 0 <= i < count - 1 ensures PlainName(b, QuestionStart(b, next, i)) {
        assert QuestionStart(b, o, i + 1) == QuestionStart(b, next, i);
      }
      PlainQuestionsEncode(b, next, count - 1);
    }
  }

  // Every query whose question names are plain, compressed or not, is among those echoed.
  lemma PlainQueryIsEchoed(queryWire: Buffer)
    requires ParseMessage(queryWire).Ok?
    requires forall i :: 0 <= i < ReadU16(queryWire, 4) ==> PlainName(queryWire, QuestionStart(queryWire, 12, i))
    ensures AllEncodable(ParseMessage(queryWire).value.questions)
  {
    hide ParseQuestions, ParseRecords, AllEncodable, PlainName, QuestionStart;
    PlainQuestionsEncode(queryWire, 12, ReadU16(queryWire, 4));
  }

  // ---- Queries that are not ----

  // A query with one question, for the one label given.
  function OneLabelQuery(first: Byte, second: Byte): Buffer {
    [0, 7, 1, 0, 0, 1, 0, 0, 0, 0, 0, 0, 2, first, second, 0, 0, 1, 0, 1]
  }

  lemma OneLabelQueryParses(first: Byte, second: Byte)
    ensures ParseMessage(OneLabelQuery(first, second)).Ok?
    ensures ParseMessage(OneLabelQuery(first, second)).value.questions ==
      [Question(Lower([first as char, second as char]), 1, 1)]
  {
    var b := OneLabelQuery(first, second);
    WireNames.DecodePlain(b, 12, {});
    WireNames.DecodeStops(b, 15, {});
    assert b[13..15] == [first, second];
    assert FromBytes(b[13..15]) == [first as char, second as char];
    assert [FromBytes(b[13..15])] + [] == [FromBytes(b[13..15])];
    assert WireNames.Decode(b, 12) == Ok(WireNames.Name(Lower([first as char, second as char]), 16));
    assert ParseQuestion(b, 12) == Ok(Parsed(Question(Lower([first as char, second as char]), 1, 1), 20));
    assert ParseQuestions(b, 20, 0) == Ok(Parsed([], 20));
    assert ParseQuestions(b, 12, 1).Ok?;
  }

  // A label that starts with a dot: the query is accepted and no response to it can be built.
  lemma DottedLabelHasNoResponse(isIp: string -> nat, options: Options)
    ensures ParseMessage(OneLabelQuery(46, 97)).Ok?
    ensures BuildResponse(isIp, OneLabelQuery(46, 97), [], [], [], options).Err?
  {
    hide ParseMessage;
    var b := OneLabelQuery(46, 97);
    OneLabelQueryParses(46, 97);
    assert Lower(".a") == ".a";
    var q := Question(".a", 1, 1);
    assert Labels(".a")[0] == "" by { FirstLabel(".a"); }
    WireNames.EncodesExactly(".a");
    assert NormalizeName(".a") == ".a";
    assert EncodeQuestion(q).Err?;
    QuestionsEncodeExactly([q]);
    BuildsExactly(isIp, b, [], [], [], options);
  }

  // A label that ends with a dot: the response is built, for a different question.
  lemma TrailingDotIsLost(isIp: string -> nat, options: Options)
    ensures var b := OneLabelQuery(97, 46); var built := BuildResponse(isIp, b, [], [], [], options);
      && ParseMessage(b).Ok? && built.Ok? && ParseMessage(built.value).Ok?
      && ParseMessage(b).value.questions == [Question("a.", 1, 1)]
      && ParseMessage(built.value).value.questions == [Question("a", 1, 1)]
  {
    hide ParseMessage;
    var b := OneLabelQuery(97, 46);
    OneLabelQueryParses(97, 46);
    var q := Question("a.", 1, 1);
    assert Lower("a.") == "a." && NormalizeName("a.") == "a";
    SplitOfPart("a", '.');
    WireNames.EncodesExactly("a.");
    assert EncodeQuestion(q).Ok?;
    QuestionsEncodeExactly([q]);
    BuildsExactly(isIp, b, [], [], [], options);
    ResponseRoundTrip(isIp, b, [], [], [], options);
  }
}

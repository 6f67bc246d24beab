// The loops of message coding, each proved against the function that specifies it.
module MessageLoops {
  import opened Wrappers
  import opened Wire
  import Text
  import opened Messages

  // encodeTxt: 255 octets at a time.
  method EncodeTxt(text: string) returns (r: Buffer)
    ensures r == Chunks(ToBytes(text))
  {
    hide *;
    var bytes := ToBytes(text);
    if |bytes| == 0 {
      NoChunk(bytes);
      return [0];
    }
    r := [];
    assert bytes[0..] == bytes && [] + Chunks(bytes) == Chunks(bytes);
    var o := 0;
    while o < |bytes|
      invariant o <= |bytes|
      invariant if o == |bytes| then r == Chunks(bytes) else Chunks(bytes) == r + Chunks(bytes[o..])
      decreases |bytes| - o
    {
      var end := if o + 255 < |bytes| then o + 255 else |bytes|;
      var part := bytes[o..end];
      ChunkStep(bytes, o, end);
      var chunk := [|part|] + part;
      Text.ConcatAssociates(r, chunk, Chunks(bytes[end..]));
      r := r + chunk;
      o := end;
    }
  }

  lemma NoChunk(bytes: Buffer)
    requires |bytes| == 0
    ensures Chunks(bytes) == [0]
  {
    assert bytes == [];
  }

  lemma ChunkStep(bytes: Buffer, o: nat, end: nat)
    requires o < |bytes| && end == if o + 255 < |bytes| then o + 255 else |bytes|
    ensures end < |bytes| ==> Chunks(bytes[o..]) == [end - o] + bytes[o..end] + Chunks(bytes[end..])
    ensures end == |bytes| ==> Chunks(bytes[o..]) == [end - o] + bytes[o..end]
  {
    var s := bytes[o..];
    assert s[..end - o] == bytes[o..end];
    if end < |bytes| { assert s[255..] == bytes[end..]; }
  }

  method ParseTxt(b: Buffer, start: nat, end: nat) returns (r: Result<Buffer, Failure>)
    requires start <= end <= |b|
    ensures r == ReadChunks(b, start, end)
  {
    var text: Buffer := [];
    var o := start;
    assert forall rest: Buffer :: [] + rest == rest;
    while o < end
      invariant start <= o <= end
      invariant match ReadChunks(b, o, end)
                case Ok(rest) => ReadChunks(b, start, end) == Ok(text + rest)
                case Err(e) => ReadChunks(b, start, end) == Err(e)
      decreases end - o
    {
      var length := b[o];
      if o + 1 + length > end { return Err(Truncated); }
      var part := b[o + 1..o + 1 + length];
      ghost var before := text;
      assert forall rest: Buffer :: before + (part + rest) == before + part + rest;
      text := text + part;
      o := o + 1 + length;
    }
    assert text + [] == text;
    return Ok(text);
  }

  method ParseQuestionSection(b: Buffer, offset: nat, count: nat) returns (r: Result<Parsed<seq<Question>>, Failure>)
    ensures r == ParseQuestions(b, offset, count)
  {
    hide ParseQuestion;
    var values: seq<Question> := [];
    var o := offset;
    assert forall rest: seq<Question> :: [] + rest == rest;
    for i := 0 to count
      invariant match ParseQuestions(b, o, count - i)
                case Ok(rest) => ParseQuestions(b, offset, count) == Ok(Parsed(values + rest.value, rest.next))
                case Err(e) => ParseQuestions(b, offset, count) == Err(e)
    {
      var q := ParseQuestion(b, o);
      if q.Err? { return Err(q.error); }
      ghost var before := values;
      assert forall rest: seq<Question> :: before + ([q.value.value] + rest) == before + [q.value.value] + rest;
      values := values + [q.value.value];
      o := q.value.next;
    }
    assert values + [] == values;
    return Ok(Parsed(values, o));
  }

  method ParseRecordSection(b: Buffer, offset: nat, count: nat) returns (r: Result<Parsed<seq<Record>>, Failure>)
    ensures r == ParseRecords(b, offset, count)
  {
    hide ParseRecord;
    var values: seq<Record> := [];
    var o := offset;
    assert forall rest: seq<Record> :: [] + rest == rest;
    for i := 0 to count
      invariant match ParseRecords(b, o, count - i)
                case Ok(rest) => ParseRecords(b, offset, count) == Ok(Parsed(values + rest.value, rest.next))
                case Err(e) => ParseRecords(b, offset, count) == Err(e)
    {
      var q := ParseRecord(b, o);
      if q.Err? { return Err(q.error); }
      ghost var before := values;
      assert forall rest: seq<Record> :: before + ([q.value.value] + rest) == before + [q.value.value] + rest;
      values := values + [q.value.value];
      o := q.value.next;
    }
    assert values + [] == values;
    return Ok(Parsed(values, o));
  }
}

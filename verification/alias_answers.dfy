// What a resolution answers: the aliases on the way, then everything the last name has.
module AliasAnswers {
  import opened Wrappers
  import opened Names
  import opened AliasData
  import opened AliasFollowing
  import AliasClosest
  import WireNames
  import Text

  // The name asked next, the aliases passed on the way, and whether they are dropped when the target fails.
  function NextName(env: Env, name: string, t: RecordType): string {
    match Step(env, name, t) case Some(next) => next case None => ""
  }

  function Links(env: Env, name: string, t: RecordType): seq<Record> {
    match LookUp(env, name, t) case Follow(aliases, _, _) => aliases case _ => []
  }

  predicate Strict(env: Env, name: string, t: RecordType) {
    match LookUp(env, name, t) case Follow(_, _, strict) => strict case _ => false
  }

  // Where k alias steps lead, and the look there.
  function NameAt(env: Env, name: string, t: RecordType, k: nat): string {
    match Steps(env, name, t, k) case Some(last) => last case None => ""
  }

  function LookAt(env: Env, name: string, t: RecordType, k: nat): Look {
    LookUp(env, NameAt(env, name, t, k), t)
  }

  // The aliases met in n steps, outermost first.
  function Aliases(env: Env, name: string, t: RecordType, n: nat): seq<Record>
    decreases n
  {
    if n == 0 then [] else Links(env, name, t) + Aliases(env, NextName(env, name, t), t, n - 1)
  }

  // The first of the n looks that passes no answers on when its target fails; n without one.
  function FirstStrict(env: Env, name: string, t: RecordType, n: nat): (r: nat)
    ensures r <= n
    decreases n
  {
    if n == 0 || Strict(env, name, t) then 0 else 1 + FirstStrict(env, NextName(env, name, t), t, n - 1)
  }

  // What the last look has to say, if it is no alias and no exception.
  predicate Answers(look: Look) {
    look.Final? || (look.Passed? && look.response.Response?)
  }

  function RcodeOf(look: Look): Rcode {
    match look
    case Final(rcode, _) => rcode
    case Passed(Response(rcode, _)) => rcode
    case _ => ServFail
  }

  function RecordsOf(look: Look): seq<Record> {
    match look
    case Final(_, answers) => answers
    case Passed(Response(_, answers)) => answers
    case _ => []
  }

  function AllSent(records: seq<Record>): seq<Record> {
    seq(|records|, i requires 0 <= i < |records| => Sent(records[i]))
  }

  predicate AllEncode(records: seq<Record>) {
    forall i :: 0 <= i < |records| ==> RecordEncodes(records[i])
  }

  lemma SentTwice(records: seq<Record>)
    requires AllEncode(records)
    ensures AllEncode(AllSent(records)) && AllSent(AllSent(records)) == AllSent(records)
  {
    hide NormalizeName;
    forall i | 0 <= i < |records|
      ensures RecordEncodes(Sent(records[i])) && Sent(Sent(records[i])) == Sent(records[i])
    {
      assert RecordEncodes(records[i]);
      EncodedIsNormal(records[i].owner);
      if records[i].rtype == CNAME { EncodedIsNormal(records[i].target); }
    }
  }

  lemma SentConcat(a: seq<Record>, b: seq<Record>)
    ensures AllSent(a + b) == AllSent(a) + AllSent(b)
  {
    hide Sent;
  }

  lemma EncodeConcat(a: seq<Record>, b: seq<Record>)
    ensures AllEncode(a + b) <==> AllEncode(a) && AllEncode(b)
  {
    hide RecordEncodes;
    if AllEncode(a + b) {
      forall i | 0 <= i < |a| ensures RecordEncodes(a[i]) { assert RecordEncodes((a + b)[i]); }
      forall i | 0 <= i < |b| ensures RecordEncodes(b[i]) { assert RecordEncodes((a + b)[|a| + i]); }
    }
  }

  // Records in front of records that were sent already.
  lemma BuiltInFront(name: string, rcode: Rcode, front: seq<Record>, rest: seq<Record>, tail: seq<Record>)
    requires WireNames.Encode(name).Ok? && AllEncode(front) && AllEncode(tail)
    requires rest == AllSent(tail) || rest == tail
    ensures Built(name, rcode, front + rest) == Response(rcode, AllSent(front + tail))
  {
    hide AllSent, AllEncode, Built;
    SentTwice(tail);
    EncodeConcat(front, rest);
    BuiltSends(name, rcode, front + rest);
    SentConcat(front, rest);
    SentConcat(front, tail);
  }

  lemma BuiltSends(name: string, rcode: Rcode, records: seq<Record>)
    requires WireNames.Encode(name).Ok? && AllEncode(records)
    ensures Built(name, rcode, records) == Response(rcode, AllSent(records))
  {
    hide Sent, RecordEncodes;
  }

  // Behind the first of n steps, n - 1 are left.
  lemma StepsBehind(env: Env, name: string, t: RecordType, n: nat)
    requires Steps(env, name, t, n).Some? && n > 0
    ensures var look := LookUp(env, name, t); var next := NextName(env, name, t);
      && look.Follow? && look.target != "" && WireNames.Encode(look.target).Ok?
      && next == NormalizeName(look.target) && WireNames.Encode(next).Ok?
      && look.aliases == Links(env, name, t) && look.strict == Strict(env, name, t)
    ensures var next := NextName(env, name, t);
      Steps(env, next, t, n - 1).Some? && LookAt(env, next, t, n - 1) == LookAt(env, name, t, n)
  {
    hide LookUp, NormalizeName;
    EncodedIsNormal(LookUp(env, name, t).target);
  }

  lemma LookAtStart(env: Env, name: string, t: RecordType)
    ensures Steps(env, name, t, 0).Some? && LookAt(env, name, t, 0) == LookUp(env, name, t)
  {
    hide LookUp;
  }

  // FirstStrict is the first look that drops its answers.
  lemma {:induction false} FirstStrictIsFirst(env: Env, name: string, t: RecordType, n: nat, k: nat)
    requires Steps(env, name, t, n).Some? && k < n
    ensures Steps(env, name, t, k).Some? && LookAt(env, name, t, k).Follow?
    ensures k < FirstStrict(env, name, t, n) ==> !LookAt(env, name, t, k).strict
    ensures k == FirstStrict(env, name, t, n) ==> LookAt(env, name, t, k).strict
    decreases n
  {
    hide LookUp, LookAt, NextName, Links, Strict;
    StepsBehind(env, name, t, n);
    if k > 0 {
      FirstStrictIsFirst(env, NextName(env, name, t), t, n - 1, k - 1);
      LookAtLater(env, name, t, k);
    } else {
      LookAtStart(env, name, t);
    }
  }

  lemma LookAtLater(env: Env, name: string, t: RecordType, k: nat)
    requires k > 0 && Step(env, name, t).Some?
    ensures Steps(env, name, t, k) == Steps(env, NextName(env, name, t), t, k - 1)
    ensures LookAt(env, name, t, k) == LookAt(env, NextName(env, name, t), t, k - 1)
  {
    hide LookUp, Step;
  }

  // What n alias steps and the look behind them make of the answer.
  function Answered(env: Env, name: string, t: RecordType, n: nat): Response {
    var look, first := LookAt(env, name, t, n), FirstStrict(env, name, t, n);
    var rcode := RcodeOf(look);
    if n == 0 && look.Passed? then look.response
    else if n > 0 && rcode == ServFail then Response(ServFail, [])
    else if rcode == NoError || first == n then Response(rcode, AllSent(Aliases(env, name, t, n) + RecordsOf(look)))
    else Response(rcode, AllSent(Aliases(env, name, t, first)))
  }

  // Everything it may carry can be encoded.
  predicate Encodable(env: Env, name: string, t: RecordType, n: nat) {
    WireNames.Encode(name).Ok? && AllEncode(Aliases(env, name, t, n)) && AllEncode(RecordsOf(LookAt(env, name, t, n)))
  }

  lemma NoneSent()
    ensures AllEncode([]) && AllSent([]) == []
  {
  }

  lemma {:induction false} AliasesPrefix(env: Env, name: string, t: RecordType, n: nat, k: nat)
    requires k <= n && AllEncode(Aliases(env, name, t, n))
    ensures AllEncode(Aliases(env, name, t, k))
    decreases n
  {
    hide Links, NextName, AllEncode;
    NoneSent();
    if k > 0 {
      var next := NextName(env, name, t);
      EncodeConcat(Links(env, name, t), Aliases(env, next, t, n - 1));
      AliasesPrefix(env, next, t, n - 1, k - 1);
      EncodeConcat(Links(env, name, t), Aliases(env, next, t, k - 1));
    }
  }

  // With its records, the answer of the target is what the aliases ahead of it are followed by.
  lemma WholeBehind(env: Env, name: string, t: RecordType, n: nat, links: seq<Record>)
    requires Answers(LookAt(env, name, t, n)) && Encodable(env, name, t, n) && AllEncode(links)
    requires var rcode := RcodeOf(LookAt(env, name, t, n)); rcode != ServFail && (rcode == NoError || FirstStrict(env, name, t, n) == n)
    requires WireNames.Encode(name).Ok?
    ensures var end := LookAt(env, name, t, n); var rcode := RcodeOf(end); var r := Answered(env, name, t, n);
      && r.Response? && r.rcode == rcode
      && forall asked :: WireNames.Encode(asked).Ok? ==>
        Built(asked, rcode, links + r.answers) == Response(rcode, AllSent(links + Aliases(env, name, t, n) + RecordsOf(end)))
  {
    hide LookUp, Links, NextName, LookAt, Built, AllSent, AllEncode, FirstStrict;
    var end := LookAt(env, name, t, n);
    var rcode, r := RcodeOf(end), Answered(env, name, t, n);
    var tail := Aliases(env, name, t, n) + RecordsOf(end);
    EncodeConcat(Aliases(env, name, t, n), RecordsOf(end));
    Text.ConcatAssociates(links, Aliases(env, name, t, n), RecordsOf(end));
    if n == 0 { assert tail == RecordsOf(end); }
    forall asked | WireNames.Encode(asked).Ok?
      ensures Built(asked, rcode, links + r.answers) == Response(rcode, AllSent(links + tail))
    {
      BuiltInFront(asked, rcode, links, r.answers, tail);
    }
  }

  lemma CutBehind(env: Env, name: string, t: RecordType, n: nat, links: seq<Record>)
    requires Answers(LookAt(env, name, t, n)) && Encodable(env, name, t, n) && AllEncode(links)
    requires var rcode := RcodeOf(LookAt(env, name, t, n)); rcode != ServFail && rcode != NoError && FirstStrict(env, name, t, n) < n
    ensures var rcode := RcodeOf(LookAt(env, name, t, n)); var r := Answered(env, name, t, n);
      && r.Response? && r.rcode == rcode
      && forall asked :: WireNames.Encode(asked).Ok? ==>
        Built(asked, rcode, links + r.answers) == Response(rcode, AllSent(links + Aliases(env, name, t, FirstStrict(env, name, t, n))))
  {
    hide LookUp, Links, NextName, LookAt, Built, AllSent, AllEncode, FirstStrict;
    var rcode, r, first := RcodeOf(LookAt(env, name, t, n)), Answered(env, name, t, n), FirstStrict(env, name, t, n);
    AliasesPrefix(env, name, t, n, first);
    forall asked | WireNames.Encode(asked).Ok?
      ensures Built(asked, rcode, links + r.answers) == Response(rcode, AllSent(links + Aliases(env, name, t, first)))
    {
      BuiltInFront(asked, rcode, links, r.answers, Aliases(env, name, t, first));
    }
  }

  // One alias in front of what its target is answered.
  lemma OneMoreAlias(env: Env, name: string, t: RecordType, n: nat)
    requires Steps(env, name, t, n).Some? && n > 0 && Answers(LookAt(env, name, t, n)) && Encodable(env, name, t, n)
    requires LookUp(env, name, t).Follow?
    ensures var next := NextName(env, name, t);
      && Encodable(env, next, t, n - 1)
      && Combined(name, LookUp(env, name, t), Answered(env, next, t, n - 1)) == Answered(env, name, t, n)
  {
    hide LookUp, NextName, Links, Strict, LookAt, Built, AllSent, AllEncode;
    StepsBehind(env, name, t, n);
    var next := NextName(env, name, t);
    var links, rcode := Links(env, name, t), RcodeOf(LookAt(env, name, t, n));
    EncodeConcat(links, Aliases(env, next, t, n - 1));
    NoneSent();
    BuiltSends(name, rcode, []);
    assert Encodable(env, next, t, n - 1);
    if rcode != ServFail {
      hide Answered, Encodable;
      AnsweredOf(env, name, t, n);
      if rcode == NoError || FirstStrict(env, next, t, n - 1) == n - 1 {
        WholeBehind(env, next, t, n - 1, links);
      } else {
        CutBehind(env, next, t, n - 1, links);
      }
    }
  }

  lemma AnsweredOf(env: Env, name: string, t: RecordType, n: nat)
    requires n > 0 && Answers(LookAt(env, name, t, n)) && RcodeOf(LookAt(env, name, t, n)) != ServFail
    ensures var look := LookAt(env, name, t, n); var first := FirstStrict(env, name, t, n); var rcode := RcodeOf(look);
      Answered(env, name, t, n) == Response(rcode,
        AllSent(if rcode == NoError || first == n then Aliases(env, name, t, n) + RecordsOf(look) else Aliases(env, name, t, first)))
  {
    hide LookUp, LookAt, AllSent, Aliases, FirstStrict;
  }

  lemma {:induction false} WalkAnswers(env: Env, name: string, t: RecordType, n: nat, budget: nat)
    requires Steps(env, name, t, n).Some? && n <= budget && Answers(LookAt(env, name, t, n)) && Encodable(env, name, t, n)
    ensures Walk(env, name, t, budget) == Answered(env, name, t, n)
    decreases n
  {
    hide LookUp, NextName, Links, Built, AllSent, AllEncode, Combined, Answered, Encodable, LookAt;
    LookAtStart(env, name, t);
    if n == 0 {
      AnswersItself(env, name, t);
    } else {
      StepsBehind(env, name, t, n);
      OneMoreAlias(env, name, t, n);
      WalkAnswers(env, NextName(env, name, t), t, n - 1, budget - 1);
    }
  }

  lemma AnswersItself(env: Env, name: string, t: RecordType)
    requires Answers(LookUp(env, name, t)) && LookAt(env, name, t, 0) == LookUp(env, name, t) && Encodable(env, name, t, 0)
    ensures Ended(name, LookUp(env, name, t)) == Answered(env, name, t, 0)
  {
    hide LookUp, Built, AllSent, AllEncode, LookAt;
    var look := LookUp(env, name, t);
    assert [] + RecordsOf(look) == RecordsOf(look);
    if look.Final? { BuiltSends(name, look.rcode, look.answers); }
  }

  // Main result: when at most sixteen alias steps lead to a name that answers, the response carries its rcode and the
  // aliases in order, followed by all its records; nothing with SERVFAIL, and with any other failure only the aliases
  // ahead of the first that passes no answers on.
  lemma ResolutionAnswers(env: Env, name: string, t: RecordType, n: nat)
    requires Steps(env, name, t, n).Some? && n <= 16
    requires Answers(LookAt(env, name, t, n)) && Encodable(env, name, t, n)
    ensures Resolve(env, name, t, 0, {}) == Answered(env, name, t, n)
  {
    hide LookUp, Resolve, Answered, Encodable;
    TopLevelIsWalk(env, name, t);
    WalkAnswers(env, name, t, n, MAX_CNAME_DEPTH);
  }

  // More than sixteen steps, or an alias to the root, are answered SERVFAIL.
  lemma {:induction false} WalkFails(env: Env, name: string, t: RecordType, n: nat, budget: nat)
    requires Steps(env, name, t, n).Some? && n <= budget && WireNames.Encode(name).Ok?
    requires var look := LookAt(env, name, t, n); look.Follow? && (n == budget || look.target == "")
    ensures Walk(env, name, t, budget) == Response(ServFail, [])
    decreases n
  {
    hide LookUp, Built, NextName, LookAt;
    BuiltFailure(name, ServFail);
    LookAtStart(env, name, t);
    if n > 0 {
      StepsBehind(env, name, t, n);
      WalkFails(env, NextName(env, name, t), t, n - 1, budget - 1);
    }
  }

  lemma LongOrRootAliasFails(env: Env, name: string, t: RecordType, n: nat)
    requires Steps(env, name, t, n).Some? && n <= 16 && WireNames.Encode(name).Ok?
    requires var look := LookAt(env, name, t, n); look.Follow? && (n == 16 || look.target == "")
    ensures Resolve(env, name, t, 0, {}) == Response(ServFail, [])
  {
    hide LookUp, Resolve;
    TopLevelIsWalk(env, name, t);
    WalkFails(env, name, t, n, MAX_CNAME_DEPTH);
  }

  // A target that does not encode, or an upstream that throws, makes the whole resolution throw.
  lemma {:induction false} WalkThrows(env: Env, name: string, t: RecordType, n: nat, budget: nat)
    requires Steps(env, name, t, n).Some? && n <= budget
    requires var look := LookAt(env, name, t, n);
      || (look.Follow? && look.target != "" && n < budget && WireNames.Encode(look.target).Err?)
      || (look.Passed? && look.response.Thrown?)
    ensures Walk(env, name, t, budget) == Thrown
    decreases n
  {
    hide LookUp, Built, NextName, LookAt;
    LookAtStart(env, name, t);
    if n > 0 {
      StepsBehind(env, name, t, n);
      WalkThrows(env, NextName(env, name, t), t, n - 1, budget - 1);
    }
  }

  lemma BadTargetThrows(env: Env, name: string, t: RecordType, n: nat)
    requires Steps(env, name, t, n).Some? && n <= 16
    requires var look := LookAt(env, name, t, n);
      || (look.Follow? && look.target != "" && n < 16 && WireNames.Encode(look.target).Err?)
      || (look.Passed? && look.response.Thrown?)
    ensures Resolve(env, name, t, 0, {}) == Thrown
  {
    hide LookUp, Resolve;
    TopLevelIsWalk(env, name, t);
    WalkThrows(env, name, t, n, MAX_CNAME_DEPTH);
  }

  // ---- Where an answer comes from ----

  // The first alias, if the question is for an address; or else the answers as they are.
  predicate LooksIn(look: Look, answers: seq<Record>, rcode: Rcode, t: RecordType) {
    if Address(t) && exists i :: 0 <= i < |answers| && answers[i].rtype == CNAME then
      exists i :: 0 <= i < |answers| && answers[i].rtype == CNAME
        && (forall j :: 0 <= j < i ==> answers[j].rtype != CNAME)
        && look == Follow(OfType(answers, CNAME), NormalizeName(answers[i].target), false)
    else look == Final(rcode, answers)
  }

  // The first record of a type, or as many as there are without one.
  lemma {:induction false} FirstOfType(records: seq<Record>, t: RecordType) returns (i: nat)
    requires t != ANY
    ensures i <= |records| && forall j :: 0 <= j < i ==> records[j].rtype != t
    ensures i == |records| <==> OfType(records, t) == []
    ensures i < |records| ==> records[i].rtype == t && OfType(records, t)[0] == records[i]
  {
    i := 0;
    if records != [] && records[0].rtype != t {
      i := FirstOfType(records[1..], t);
      forall j | 0 < j < i + 1 ensures records[j].rtype != t { assert records[1..][j - 1] == records[j]; }
      i := i + 1;
    }
  }

  lemma LookInIs(answers: seq<Record>, rcode: Rcode, t: RecordType)
    ensures LooksIn(LookIn(answers, rcode, t), answers, rcode, t)
  {
    hide OfType, NormalizeName;
    var i := FirstOfType(answers, CNAME);
  }

  // Policies come first, then the zone that encloses the name, then the records, and only then the cache and upstreams.
  lemma ConsultedInOrder(env: Env, name: string, t: RecordType)
    ensures var asked := NormalizeName(name); var look := LookUp(env, name, t); var policy := env.policy(asked, t);
      if policy.Some? then
        match policy.value
        case Deny(rcode) => look == Final(rcode, [])
        case Answer(rtype, value) =>
          if rtype == CNAME && Address(t) then look == Follow([Record(name, rtype, value, value)], NormalizeName(value), true)
          else look == Final(NoError, [Record(name, rtype, value, value)])
      else if asked == "" then look == Passed(Thrown)
      else if exists z :: z in env.zones && Under(asked, z) then
        var zone := ZoneResolve(env.zones, env.zoneStore, asked, t);
        zone.Some? && LooksIn(look, zone.value.answers, zone.value.rcode, t)
      else if Find(env.records, asked, t) != [] then LooksIn(look, Find(env.records, asked, t), NoError, t)
      else look == Passed(env.remote(name, t))
  {
    hide ZoneResolve, Find, LookIn, LooksIn, NormalizeName, Under;
    var asked := NormalizeName(name);
    AliasClosest.ZoneResolvesExactly(env.zones, env.zoneStore, asked, t);
    var zone := ZoneResolve(env.zones, env.zoneStore, asked, t);
    if zone.Some? { LookInIs(zone.value.answers, zone.value.rcode, t); }
    LookInIs(Find(env.records, asked, t), NoError, t);
  }
}

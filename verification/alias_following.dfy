// Following aliases across policies, zones, records and upstreams.
module AliasFollowing {
  import opened Wrappers
  import opened Names
  import opened AliasData
  import WireNames
  import Text

  const MAX_CNAME_DEPTH: nat := 16

  // What a matching policy rule does: refuse, or answer with a record of its own type and value.
  datatype Action = Deny(rcode: Rcode) | Answer(rtype: RecordType, value: string)

  // A message, or the exception that building one throws.
  datatype Response = Response(rcode: Rcode, answers: seq<Record>) | Thrown

  // Everything a resolution consults; `remote` is the cache and the upstreams, which are not followed.
  datatype Env = Env(policy: (string, RecordType) -> Option<Action>, zones: seq<string>, zoneStore: Store, records: Store,
                     remote: (string, RecordType) -> Response)

  // One look at a name: an alias to follow to a target normalized once, or a final answer. A policy alias passes
  // no answers on when its target fails.
  datatype Look =
    | Follow(aliases: seq<Record>, target: string, strict: bool)
    | Final(rcode: Rcode, answers: seq<Record>)
    | Passed(response: Response)

  predicate RecordEncodes(r: Record) {
    WireNames.Encode(r.owner).Ok? && (r.rtype == CNAME ==> WireNames.Encode(r.target).Ok?)
  }

  // The record as its encoding carries it.
  function Sent(r: Record): Record {
    r.(owner := NormalizeName(r.owner), target := if r.rtype == CNAME then NormalizeName(r.target) else r.target)
  }

  // buildResponse for a question, and the parse of what it built.
  function Built(name: string, rcode: Rcode, answers: seq<Record>): Response {
    if WireNames.Encode(name).Err? || exists i :: 0 <= i < |answers| && !RecordEncodes(answers[i]) then Thrown
    else Response(rcode, seq(|answers|, i requires 0 <= i < |answers| => Sent(answers[i])))
  }

  function LookIn(answers: seq<Record>, rcode: Rcode, t: RecordType): Look {
    var aliases := OfType(answers, CNAME);
    if Address(t) && aliases != [] then Follow(aliases, NormalizeName(aliases[0].target), false)
    else Final(rcode, answers)
  }

  // The stores and policies look at the normal form of the question's name.
  function LookUp(env: Env, name: string, t: RecordType): Look {
    var asked := NormalizeName(name);
    match env.policy(asked, t)
    case Some(Deny(rcode)) => Final(rcode, [])
    case Some(Answer(rtype, value)) =>
      var record := Record(name, rtype, value, value);
      if rtype == CNAME && Address(t) then Follow([record], NormalizeName(value), true) else Final(NoError, [record])
    case None =>
      if asked == "" then Passed(Thrown)
      else match ZoneResolve(env.zones, env.zoneStore, asked, t)
        case Some(result) => LookIn(result.answers, result.rcode, t)
        case None =>
          var found := Find(env.records, asked, t);
          if found != [] then LookIn(found, NoError, t) else Passed(env.remote(name, t))
  }

  function Ended(name: string, look: Look): Response
    requires !look.Follow?
  {
    match look
    case Final(rcode, answers) => Built(name, rcode, answers)
    case Passed(response) => response
  }

  function Combined(name: string, look: Look, rest: Response): Response
    requires look.Follow?
  {
    if rest.Thrown? then Thrown
    else if look.strict && rest.rcode != NoError then Built(name, rest.rcode, [])
    else if rest.rcode == ServFail then Built(name, ServFail, [])
    else Built(name, rest.rcode, look.aliases + rest.answers)
  }

  // resolveInternal, with the depth and the names already asked on the way. The target is compared with those names
  // as it is; the follow-up question encodes it, which normalizes it once more, or throws.
  function Resolve(env: Env, name: string, t: RecordType, depth: nat, visited: set<string>): Response
    requires depth <= MAX_CNAME_DEPTH
    decreases MAX_CNAME_DEPTH - depth
  {
    var look := LookUp(env, name, t);
    var seen := visited + {NormalizeName(name)};
    if !look.Follow? then Ended(name, look)
    else if look.target == "" || depth >= MAX_CNAME_DEPTH || look.target in seen then Built(name, ServFail, [])
    else if WireNames.Encode(look.target).Err? then Thrown
    else Combined(name, look, Resolve(env, NormalizeName(look.target), t, depth + 1, seen))
  }

  // Whether a resolution goes on to the target it met.
  predicate GoesOn(look: Look, depth: nat, seen: set<string>) {
    look.Follow? && look.target != "" && depth < MAX_CNAME_DEPTH && look.target !in seen && WireNames.Encode(look.target).Ok?
  }

  // The names one resolution asks about, outermost first.
  function Path(env: Env, name: string, t: RecordType, depth: nat, visited: set<string>): seq<string>
    requires depth <= MAX_CNAME_DEPTH
    decreases MAX_CNAME_DEPTH - depth
  {
    var look := LookUp(env, name, t);
    var seen := visited + {NormalizeName(name)};
    if !GoesOn(look, depth, seen) then [NormalizeName(name)]
    else [NormalizeName(name)] + Path(env, NormalizeName(look.target), t, depth + 1, seen)
  }

  // The alias values it goes on to, normalized once: the i-th leads from the i-th name to the next one.
  function Targets(env: Env, name: string, t: RecordType, depth: nat, visited: set<string>): seq<string>
    requires depth <= MAX_CNAME_DEPTH
    decreases MAX_CNAME_DEPTH - depth
  {
    var look := LookUp(env, name, t);
    var seen := visited + {NormalizeName(name)};
    if !GoesOn(look, depth, seen) then []
    else [look.target] + Targets(env, NormalizeName(look.target), t, depth + 1, seen)
  }

  // A name that encodes is in normal form once normalized.
  lemma EncodedIsNormal(name: string)
    requires WireNames.Encode(name).Ok?
    ensures var n := NormalizeName(name); NormalizeName(n) == n && WireNames.Encode(n).Ok?
  {
    var n := NormalizeName(name);
    NormalizedIsLower(name);
    WireNames.EncodesExactly(name);
    WireNames.SurvivesExactly(n);
  }

  // Normalizing a normalized value again takes off a final dot, if there is one.
  lemma SecondLook(target: string)
    requires Lower(target) == target
    ensures NormalizeName(target) != target <==> Dotted(target)
  {
    NormalIsLower(target);
  }

  lemma FollowedIsLower(env: Env, name: string, t: RecordType)
    ensures var look := LookUp(env, name, t); look.Follow? ==> Lower(look.target) == look.target
  {
    hide Find, ZoneResolve, OfType, NormalizeName, Lower;
    var asked := NormalizeName(name);
    forall value: string ensures Lower(NormalizeName(value)) == NormalizeName(value) { NormalizedIsLower(value); }
  }

  lemma {:induction false} PathAndTargets(env: Env, name: string, t: RecordType, depth: nat, visited: set<string>)
    requires depth <= MAX_CNAME_DEPTH
    ensures var path := Path(env, name, t, depth, visited); var targets := Targets(env, name, t, depth, visited);
      && |path| == |targets| + 1 <= MAX_CNAME_DEPTH + 1 - depth
      && path[0] == NormalizeName(name)
      && forall i :: 0 <= i < |targets| ==> Lower(targets[i]) == targets[i] && path[i + 1] == NormalizeName(targets[i])
    decreases MAX_CNAME_DEPTH - depth
  {
    hide LookUp, Lower, NormalizeName;
    var look := LookUp(env, name, t);
    var seen := visited + {NormalizeName(name)};
    if GoesOn(look, depth, seen) {
      FollowedIsLower(env, name, t);
      EncodedIsNormal(look.target);
      PathAndTargets(env, NormalizeName(look.target), t, depth + 1, seen);
    }
  }

  // No target goes back, as it stands, to a name asked before it.
  lemma {:induction false} TargetsAreNew(env: Env, name: string, t: RecordType, depth: nat, visited: set<string>)
    requires depth <= MAX_CNAME_DEPTH
    ensures var path := Path(env, name, t, depth, visited); var targets := Targets(env, name, t, depth, visited);
      && |path| == |targets| + 1
      && (forall i :: 0 <= i < |targets| ==> targets[i] !in visited)
      && forall i, j :: 0 <= j <= i < |targets| ==> targets[i] != path[j]
    decreases MAX_CNAME_DEPTH - depth
  {
    hide LookUp, NormalizeName;
    var look := LookUp(env, name, t);
    var seen := visited + {NormalizeName(name)};
    if GoesOn(look, depth, seen) {
      TargetsAreNew(env, NormalizeName(look.target), t, depth + 1, seen);
      var path, targets := Path(env, name, t, depth, visited), Targets(env, name, t, depth, visited);
      forall i, j | 0 <= j <= i < |targets| ensures targets[i] != path[j] {
        if i > 0 { assert targets[i] == targets[1..][i - 1] && (j > 0 ==> path[j] == path[1..][j - 1]); }
      }
    }
  }

  // The i-th target keeps a final dot, and without it is a name already asked.
  predicate StrayDot(path: seq<string>, targets: seq<string>, i: nat)
    requires i < |targets| < |path|
  {
    Dotted(targets[i]) && NormalizeName(targets[i]) in path[..i + 1]
  }

  // Main result on paths: a resolution asks about at most seventeen names, and no name twice exactly when no target
  // it follows keeps a final dot after which it would be a name already asked.
  lemma PathIsDistinctExactly(env: Env, name: string, t: RecordType)
    ensures var path := Path(env, name, t, 0, {}); var targets := Targets(env, name, t, 0, {});
      && |path| == |targets| + 1 <= MAX_CNAME_DEPTH + 1
      && (Text.Distinct(path) <==> forall i :: 0 <= i < |targets| ==> !StrayDot(path, targets, i))
  {
    hide NormalizeName, Lower, Dotted;
    var path, targets := Path(env, name, t, 0, {}), Targets(env, name, t, 0, {});
    PathAndTargets(env, name, t, 0, {});
    TargetsAreNew(env, name, t, 0, {});
    forall i | 0 <= i < |targets| ensures StrayDot(path, targets, i) <==> path[i + 1] in path[..i + 1] {
      SecondLook(targets[i]);
      if path[i + 1] in path[..i + 1] {
        var j :| 0 <= j < i + 1 && path[..i + 1][j] == path[i + 1];
        assert targets[i] != path[j];
      }
    }
    if Text.Distinct(path) {
      forall i | 0 <= i < |targets| ensures !StrayDot(path, targets, i) { NotBefore(path, i + 1); }
    } else {
      var i, j :| 0 <= i < j < |path| && path[i] == path[j];
      assert path[..j][i] == path[j];
      assert StrayDot(path, targets, j - 1);
    }
  }

  lemma NotBefore(names: seq<string>, i: nat)
    requires Text.Distinct(names) && i < |names|
    ensures names[i] !in names[..i]
  {
    forall j | 0 <= j < |names[..i]| ensures names[..i][j] != names[i] {}
  }

  // ---- A value that asks again ----

  // The record a CNAME "a..".
  function DottedEnv(remote: (string, RecordType) -> Response): Env {
    Env((name, t) => None, [], map[], map["a" := [Record("a", CNAME, "a..", "")]], remote)
  }

  lemma DottedLook(remote: (string, RecordType) -> Response)
    ensures LookUp(DottedEnv(remote), "a", A) == Follow([Record("a", CNAME, "a..", "")], "a.", false)
    ensures NormalizeName("a") == "a" && NormalizeName("a.") == "a" && WireNames.Encode("a.").Ok? && WireNames.Encode("a").Ok?
  {
    var records := [Record("a", CNAME, "a..", "")];
    assert records[1..] == [];
    assert OfType(records, A) == [] && OfType(records, CNAME) == records;
    assert NormalizeName("a") == "a" && NormalizeName("a.") == "a" && NormalizeName("a..") == "a.";
    Text.SplitOfPart("a", '.');
    WireNames.EncodesExactly("a.");
    WireNames.EncodesExactly("a");
  }

  // Seventeen times the same question; only the depth ends it.
  lemma {:induction false} DottedAliasAsksAgain(remote: (string, RecordType) -> Response, depth: nat)
    requires depth <= MAX_CNAME_DEPTH
    ensures Path(DottedEnv(remote), "a", A, depth, if depth == 0 then {} else {"a"}) == seq(MAX_CNAME_DEPTH + 1 - depth, i => "a")
    ensures Resolve(DottedEnv(remote), "a", A, depth, if depth == 0 then {} else {"a"}) == Response(ServFail, [])
    decreases MAX_CNAME_DEPTH - depth
  {
    hide LookUp, NormalizeName, WireNames.Encode, DottedEnv;
    DottedLook(remote);
    var visited: set<string> := if depth == 0 then {} else {"a"};
    assert visited + {"a"} == {"a"};
    if depth < MAX_CNAME_DEPTH { DottedAliasAsksAgain(remote, depth + 1); }
  }

  // ---- The walk without a visited set ----

  // Following aliases with nothing but a budget of steps.
  function Walk(env: Env, name: string, t: RecordType, budget: nat): Response
    decreases budget
  {
    var look := LookUp(env, name, t);
    if !look.Follow? then Ended(name, look)
    else if look.target == "" || budget == 0 then Built(name, ServFail, [])
    else if WireNames.Encode(look.target).Err? then Thrown
    else Combined(name, look, Walk(env, NormalizeName(look.target), t, budget - 1))
  }

  // The name asked next.
  function Step(env: Env, name: string, t: RecordType): Option<string> {
    var look := LookUp(env, name, t);
    if look.Follow? && look.target != "" && WireNames.Encode(look.target).Ok? then Some(NormalizeName(look.target)) else None
  }

  // Where k alias steps lead.
  function Steps(env: Env, name: string, t: RecordType, k: nat): Option<string>
    decreases k
  {
    if k == 0 then Some(name)
    else match Step(env, name, t) case None => None case Some(next) => Steps(env, next, t, k - 1)
  }

  lemma {:induction false} StepsExtend(env: Env, name: string, t: RecordType, k: nat)
    requires Steps(env, name, t, k).Some?
    ensures Steps(env, name, t, k + 1) == Step(env, Steps(env, name, t, k).value, t)
    decreases k
  {
    hide Step;
    if k > 0 { StepsExtend(env, Step(env, name, t).value, t, k - 1); }
    else { assert forall x :: Steps(env, x, t, 0) == Some(x); }
  }

  // A name reached by a step encodes and is in normal form.
  lemma {:induction false} ReachedIsNormal(env: Env, name: string, t: RecordType, k: nat)
    requires k > 0 && Steps(env, name, t, k).Some?
    ensures var n := Steps(env, name, t, k).value; WireNames.Encode(n).Ok? && NormalizeName(n) == n
    decreases k
  {
    hide LookUp, NormalizeName;
    var next := Step(env, name, t).value;
    EncodedIsNormal(LookUp(env, name, t).target);
    if k > 1 { ReachedIsNormal(env, next, t, k - 1); }
  }

  lemma BuiltFailure(name: string, rcode: Rcode)
    ensures Built(name, rcode, []) == if WireNames.Encode(name).Ok? then Response(rcode, []) else Thrown
  {
  }

  // A name that leads back to itself fails under every budget.
  lemma {:induction false} CyclesFail(env: Env, name: string, t: RecordType, length: nat, budget: nat)
    requires length > 0 && Steps(env, name, t, length) == Some(name)
    ensures Walk(env, name, t, budget) == Response(ServFail, [])
    decreases budget
  {
    hide LookUp, Built;
    var next := Step(env, name, t).value;
    ReachedIsNormal(env, name, t, length);
    BuiltFailure(name, ServFail);
    if budget > 0 {
      assert Steps(env, next, t, length - 1) == Some(name);
      StepsExtend(env, next, t, length - 1);
      CyclesFail(env, next, t, length, budget - 1);
    }
  }

  // Every visited name encodes, is in normal form and leads here.
  ghost predicate LeadsHere(env: Env, visited: set<string>, name: string, t: RecordType) {
    forall v :: v in visited ==>
      WireNames.Encode(v).Ok? && NormalizeName(v) == v && exists k: nat :: Steps(env, v, t, k) == Some(name)
  }

  lemma {:induction false} SameAnswersAsked(env: Env, name: string, t: RecordType)
    requires WireNames.Encode(name).Ok?
    ensures var look := LookUp(env, name, t); var again := LookUp(env, NormalizeName(name), t);
      look.Follow? ==> again.Follow? && again.target == look.target
  {
    hide ZoneResolve, Find, LookIn;
    EncodedIsNormal(name);
  }

  // Main result: the visited set never changes the outcome; a resolution answers exactly when its alias walk over the
  // names asked ends within sixteen steps.
  lemma {:induction false} ResolveIsWalk(env: Env, name: string, t: RecordType, depth: nat, visited: set<string>)
    requires depth <= MAX_CNAME_DEPTH && LeadsHere(env, visited, NormalizeName(name), t)
    ensures Resolve(env, name, t, depth, visited) == Walk(env, name, t, MAX_CNAME_DEPTH - depth)
    decreases MAX_CNAME_DEPTH - depth
  {
    hide LookUp, NormalizeName, Built;
    var look := LookUp(env, name, t);
    var asked := NormalizeName(name);
    var seen := visited + {asked};
    BuiltFailure(name, ServFail);
    if look.Follow? && look.target != "" && depth < MAX_CNAME_DEPTH {
      if WireNames.Encode(name).Err? {
        UnaskableIsThrown(env, name, t, depth, visited);
      } else {
        EncodedIsNormal(name);
        SameAnswersAsked(env, name, t);
        if look.target in seen {
          VisitedCycles(env, visited, asked, t, look.target);
          StepAndCycle(env, asked, t, look.target, MAX_CNAME_DEPTH - depth - 1);
        } else if WireNames.Encode(look.target).Ok? {
          EncodedIsNormal(look.target);
          SeenLeadOn(env, visited, asked, t);
          ResolveIsWalk(env, NormalizeName(look.target), t, depth + 1, seen);
        }
      }
    }
  }

  // A question whose name does not encode has no response that would have to be built.
  lemma UnaskableIsThrown(env: Env, name: string, t: RecordType, depth: nat, visited: set<string>)
    requires WireNames.Encode(name).Err? && LookUp(env, name, t).Follow? && depth <= MAX_CNAME_DEPTH
    ensures Resolve(env, name, t, depth, visited) == Thrown
    ensures forall budget: nat :: Walk(env, name, t, budget) == Thrown
  {
    hide LookUp, NormalizeName;
    forall rcode, answers ensures Built(name, rcode, answers) == Thrown {}
  }

  lemma SeenLeadOn(env: Env, visited: set<string>, asked: string, t: RecordType)
    requires LeadsHere(env, visited, asked, t) && WireNames.Encode(asked).Ok? && NormalizeName(asked) == asked
    requires Step(env, asked, t).Some?
    ensures LeadsHere(env, visited + {asked}, Step(env, asked, t).value, t)
    ensures forall v :: v in visited + {asked} ==> Reaches(env, v, t, Step(env, asked, t).value)
  {
    hide Step, NormalizeName;
    var next := Step(env, asked, t).value;
    assert Steps(env, asked, t, 0) == Some(asked);
    forall v | v in visited + {asked} ensures Reaches(env, v, t, next) {
      var k: nat :| Steps(env, v, t, k) == Some(asked);
      StepsExtend(env, v, t, k);
      assert Steps(env, v, t, k + 1) == Some(next);
    }
  }

  ghost predicate Reaches(env: Env, name: string, t: RecordType, target: string) {
    exists k: nat :: k > 0 && Steps(env, name, t, k) == Some(target)
  }

  lemma VisitedCycles(env: Env, visited: set<string>, asked: string, t: RecordType, target: string)
    requires LeadsHere(env, visited, asked, t) && WireNames.Encode(asked).Ok? && NormalizeName(asked) == asked
    requires LookUp(env, asked, t).Follow? && LookUp(env, asked, t).target == target && target != ""
    requires target in visited + {asked}
    ensures WireNames.Encode(target).Ok? && NormalizeName(target) == target
    ensures Reaches(env, target, t, target)
  {
    hide LookUp, NormalizeName;
    assert Step(env, asked, t) == Some(target);
    SeenLeadOn(env, visited, asked, t);
  }

  lemma StepAndCycle(env: Env, asked: string, t: RecordType, target: string, budget: nat)
    requires WireNames.Encode(target).Ok? && NormalizeName(target) == target
    requires Reaches(env, target, t, target)
    ensures Walk(env, NormalizeName(target), t, budget) == Response(ServFail, [])
  {
    hide LookUp, NormalizeName;
    var k: nat :| k > 0 && Steps(env, target, t, k) == Some(target);
    CyclesFail(env, target, t, k, budget);
  }

  lemma TopLevelIsWalk(env: Env, name: string, t: RecordType)
    ensures Resolve(env, name, t, 0, {}) == Walk(env, name, t, MAX_CNAME_DEPTH)
  {
    ResolveIsWalk(env, name, t, 0, {});
  }

  // A path of aliases that runs into a cycle of names asked is answered SERVFAIL, if the question can be answered.
  lemma CycleGivesServFail(env: Env, name: string, t: RecordType, lead: nat, length: nat)
    requires length > 0 && Steps(env, name, t, lead).Some?
    requires var entry := Steps(env, name, t, lead).value; Steps(env, entry, t, length) == Some(entry)
    ensures Resolve(env, name, t, 0, {}) == if WireNames.Encode(name).Ok? then Response(ServFail, []) else Thrown
  {
    TopLevelIsWalk(env, name, t);
    LeadToCycleFails(env, name, t, lead, length, MAX_CNAME_DEPTH);
  }

  lemma {:induction false} LeadToCycleFails(env: Env, name: string, t: RecordType, lead: nat, length: nat, budget: nat)
    requires length > 0 && Steps(env, name, t, lead).Some?
    requires var entry := Steps(env, name, t, lead).value; Steps(env, entry, t, length) == Some(entry)
    ensures Walk(env, name, t, budget) == if WireNames.Encode(name).Ok? then Response(ServFail, []) else Thrown
    decreases lead
  {
    hide LookUp, Built, NormalizeName;
    BuiltFailure(name, ServFail);
    if lead == 0 {
      CyclesFail(env, name, t, length, budget);
      ReachedIsNormal(env, name, t, length);
    } else if budget > 0 {
      var next := Step(env, name, t).value;
      ReachedIsNormal(env, name, t, 1) by { assert Steps(env, next, t, 0) == Some(next); }
      LeadToCycleFails(env, next, t, lead - 1, length, budget - 1);
    }
  }

  // ---- The answer is a chain ----

  // Aliases lead from the name to the records, each owned by the target before it.
  predicate Contiguous(answers: seq<Record>, name: string)
    decreases |answers|
  {
    || (forall i :: 0 <= i < |answers| ==> answers[i].owner == name && answers[i].rtype != CNAME)
    || (answers[0].rtype == CNAME && answers[0].owner == name && Contiguous(answers[1..], NormalizeName(answers[0].target)))
  }

  // No part of the resolution came from the cache or an upstream.
  predicate Local(env: Env, name: string, t: RecordType, budget: nat)
    decreases budget
  {
    var look := LookUp(env, name, t);
    if look.Follow? then look.target != "" && budget > 0 && Local(env, NormalizeName(look.target), t, budget - 1)
    else look.Final?
  }

  // An alias followed from this name is its single record.
  predicate SingleAlias(look: Look, name: string)
    requires look.Follow?
  {
    && |look.aliases| == 1 && look.aliases[0].rtype == CNAME && NormalizeName(look.aliases[0].owner) == name
    && look.target == NormalizeName(look.aliases[0].target)
  }

  // Either a single alias, or no alias at all; all under the name once normalized.
  predicate UniformSent(answers: seq<Record>, name: string) {
    && (forall i :: 0 <= i < |answers| ==> NormalizeName(answers[i].owner) == name)
    && ((|answers| == 1 && answers[0].rtype == CNAME) || forall i :: 0 <= i < |answers| ==> answers[i].rtype != CNAME)
  }

  lemma UniformIsSent(answers: seq<Record>, name: string)
    requires Uniform(answers, name) && NormalizeName(name) == name
    ensures UniformSent(answers, name)
  {
  }

  lemma UniformLook(answers: seq<Record>, rcode: Rcode, name: string, t: RecordType)
    requires Uniform(answers, name) && Address(t) && NormalizeName(name) == name
    ensures var look := LookIn(answers, rcode, t);
      (look.Follow? ==> SingleAlias(look, name)) && (look.Final? ==> UniformSent(look.answers, name))
  {
    UniformAliases(answers, name);
    UniformIsSent(answers, name);
  }

  lemma LooksAreUniform(env: Env, name: string, t: RecordType)
    requires WellFormed(env.zoneStore) && WellFormed(env.records) && Address(t) && WireNames.Encode(name).Ok?
    ensures var look := LookUp(env, name, t); var asked := NormalizeName(name);
      (look.Follow? ==> SingleAlias(look, asked)) && (look.Final? ==> UniformSent(look.answers, asked))
  {
    hide ZoneResolve, Find, Uniform, LookIn, UniformSent, WellFormed, NormalizeName, SingleAlias;
    var asked := NormalizeName(name);
    EncodedIsNormal(name);
    LocalAnswersAreUniform(env.zones, env.zoneStore, env.records, asked, t);
    if env.policy(asked, t).Some? { PolicyAnswers(env, name, t); }
    var zone := ZoneResolve(env.zones, env.zoneStore, asked, t);
    if zone.Some? { UniformLook(zone.value.answers, zone.value.rcode, asked, t); }
    UniformLook(Find(env.records, asked, t), NoError, asked, t);
  }

  lemma PolicyAnswers(env: Env, name: string, t: RecordType)
    requires Address(t) && env.policy(NormalizeName(name), t).Some?
    ensures var look := LookUp(env, name, t); var asked := NormalizeName(name);
      (look.Follow? ==> SingleAlias(look, asked)) && (look.Final? ==> UniformSent(look.answers, asked))
  {
  }

  lemma UniformAliases(answers: seq<Record>, name: string)
    requires Uniform(answers, name)
    ensures var aliases := OfType(answers, CNAME);
      && (aliases == [] ==> forall i :: 0 <= i < |answers| ==> answers[i].rtype != CNAME)
      && (aliases != [] ==> aliases == answers && |answers| == 1 && answers[0].rtype == CNAME)
  {
    var aliases := OfType(answers, CNAME);
    if aliases != [] {
      assert aliases[0] in answers;
      assert answers[1..] == [] && answers == [answers[0]];
      assert OfType(answers, CNAME) == [answers[0]] + OfType([], CNAME);
    } else {
      forall i | 0 <= i < |answers| ensures answers[i].rtype != CNAME { assert answers[i] in answers; }
    }
  }

  // What is sent for uniform answers is a chain of one link or of none.
  lemma BuiltIsChain(name: string, rcode: Rcode, answers: seq<Record>)
    requires UniformSent(answers, NormalizeName(name)) && Built(name, rcode, answers).Response?
    ensures Contiguous(Built(name, rcode, answers).answers, NormalizeName(name))
  {
    var sent := Built(name, rcode, answers).answers;
    if !(forall i :: 0 <= i < |answers| ==> answers[i].rtype != CNAME) {
      assert sent[1..] == [];
    }
  }

  lemma BuiltBehind(name: string, rcode: Rcode, first: Record, rest: seq<Record>)
    requires Built(name, rcode, [first] + rest).Response? && forall i :: 0 <= i < |rest| ==> Sent(rest[i]) == rest[i]
    ensures Built(name, rcode, [first] + rest).answers == [Sent(first)] + rest
  {
    hide Sent, RecordEncodes;
  }

  lemma LinkInFront(link: Record, rest: seq<Record>)
    requires link.rtype == CNAME && Contiguous(rest, NormalizeName(link.target))
    ensures Contiguous([link] + rest, link.owner)
  {
    hide NormalizeName;
    assert ([link] + rest)[1..] == rest;
  }

  // An alias in front of a chain from its target.
  lemma LinkedIsChain(name: string, rcode: Rcode, look: Look, rest: seq<Record>)
    requires look.Follow? && SingleAlias(look, NormalizeName(name)) && WireNames.Encode(look.target).Ok?
    requires Contiguous(rest, NormalizeName(look.target)) && Built(name, rcode, look.aliases + rest).Response?
    requires forall i :: 0 <= i < |rest| ==> Sent(rest[i]) == rest[i]
    ensures Contiguous(Built(name, rcode, look.aliases + rest).answers, NormalizeName(name))
  {
    hide NormalizeName, Built, Contiguous;
    var first := look.aliases[0];
    assert look.aliases == [first];
    BuiltBehind(name, rcode, first, rest);
    LinkInFront(Sent(first), rest);
  }

  // What has been sent is sent again unchanged.
  lemma BuiltIsSent(name: string, rcode: Rcode, answers: seq<Record>)
    requires Built(name, rcode, answers).Response?
    ensures var sent := Built(name, rcode, answers).answers; forall i :: 0 <= i < |sent| ==> Sent(sent[i]) == sent[i]
  {
    hide NormalizeName;
    var sent := Built(name, rcode, answers).answers;
    forall i | 0 <= i < |sent| ensures Sent(sent[i]) == sent[i] {
      assert RecordEncodes(answers[i]);
      EncodedIsNormal(answers[i].owner);
      if answers[i].rtype == CNAME { EncodedIsNormal(answers[i].target); }
    }
  }

  lemma EmptyIsChain(name: string, rcode: Rcode)
    ensures Built(name, rcode, []).Response? ==> Contiguous(Built(name, rcode, []).answers, NormalizeName(name))
  {
  }

  // Main result on answers: an address resolved without the cache or an upstream, through policies, wildcards or
  // neither, answers with a contiguous chain from the name that was asked for, if it answers at all.
  lemma {:induction false} LocalAnswersAreChains(env: Env, name: string, t: RecordType, budget: nat)
    requires WellFormed(env.zoneStore) && WellFormed(env.records) && Address(t) && Local(env, name, t, budget)
    ensures var r := Walk(env, name, t, budget); r.Response? ==> (
      Contiguous(r.answers, NormalizeName(name)) && forall i :: 0 <= i < |r.answers| ==> Sent(r.answers[i]) == r.answers[i])
    decreases budget
  {
    hide LookUp, NormalizeName, Built, Sent, SingleAlias, Contiguous, WellFormed;
    var look := LookUp(env, name, t);
    if WireNames.Encode(name).Err? {
      NothingBuilt(name);
    } else {
      LooksAreUniform(env, name, t);
      EmptyIsChain(name, ServFail);
      forall rcode, answers | Built(name, rcode, answers).Response?
        ensures forall i :: 0 <= i < |Built(name, rcode, answers).answers| ==>
          Sent(Built(name, rcode, answers).answers[i]) == Built(name, rcode, answers).answers[i]
      {
        BuiltIsSent(name, rcode, answers);
      }
      if look.Final? {
        if Built(name, look.rcode, look.answers).Response? { BuiltIsChain(name, look.rcode, look.answers); }
      } else if WireNames.Encode(look.target).Ok? {
        LocalAnswersAreChains(env, NormalizeName(look.target), t, budget - 1);
        LinkAnswers(env, name, t, budget, look);
      }
    }
  }

  lemma NothingBuilt(name: string)
    requires WireNames.Encode(name).Err?
    ensures forall rcode, answers :: Built(name, rcode, answers) == Thrown
  {
  }

  lemma LinkAnswers(env: Env, name: string, t: RecordType, budget: nat, look: Look)
    requires look.Follow? && look == LookUp(env, name, t) && SingleAlias(look, NormalizeName(name)) && budget > 0
    requires WireNames.Encode(look.target).Ok? && look.target != ""
    requires var rest := Walk(env, NormalizeName(look.target), t, budget - 1); rest.Response? ==> (
      && Contiguous(rest.answers, NormalizeName(NormalizeName(look.target)))
      && forall i :: 0 <= i < |rest.answers| ==> Sent(rest.answers[i]) == rest.answers[i])
    ensures var r := Walk(env, name, t, budget); r.Response? ==> Contiguous(r.answers, NormalizeName(name))
  {
    hide LookUp, NormalizeName, Built, Sent, SingleAlias, Contiguous;
    EncodedIsNormal(look.target);
    var rest := Walk(env, NormalizeName(look.target), t, budget - 1);
    if rest.Response? {
      EmptyIsChain(name, rest.rcode);
      EmptyIsChain(name, ServFail);
      if Built(name, rest.rcode, look.aliases + rest.answers).Response? {
        LinkedIsChain(name, rest.rcode, look, rest.answers);
      }
    }
  }

  lemma ResolvedFromLocalDataIsChain(env: Env, name: string, t: RecordType)
    requires WellFormed(env.zoneStore) && WellFormed(env.records) && Address(t) && Local(env, name, t, MAX_CNAME_DEPTH)
    ensures var r := Resolve(env, name, t, 0, {}); r.Response? ==> Contiguous(r.answers, NormalizeName(name))
  {
    hide LookUp, NormalizeName, Sent;
    TopLevelIsWalk(env, name, t);
    LocalAnswersAreChains(env, name, t, MAX_CNAME_DEPTH);
  }
}

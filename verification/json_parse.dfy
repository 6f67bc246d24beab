// JSON.parse (sections 2 to 7 of RFC 8259) on text without white space, and what it makes of canonical text.
module JsonParsing {
  import opened Wrappers
  import opened CanonicalJson
  import Text

  datatype Parsed<T> = Parsed(value: T, rest: string)

  // ---- Strings, behind the opening quote ----

  function HexValue(s: string): Option<nat>
    requires |s| == 4
  {
    var a, b, c, d := Text.DigitValue(s[0]), Text.DigitValue(s[1]), Text.DigitValue(s[2]), Text.DigitValue(s[3]);
    if a.None? || b.None? || c.None? || d.None? then None
    else Some(a.value * 0x1000 + b.value * 0x100 + c.value * 0x10 + d.value)
  }

  // One escaped character behind its backslash; surrogates are no characters here.
  function ParseEscape(s: string): (r: Option<Parsed<char>>)
    ensures r.Some? ==> |r.value.rest| < |s|
  {
    if s == [] then None
    else if s[0] == '"' || s[0] == '\\' || s[0] == '/' then Some(Parsed(s[0], s[1..]))
    else if s[0] == 'b' then Some(Parsed('\U{08}', s[1..]))
    else if s[0] == 'f' then Some(Parsed('\U{0C}', s[1..]))
    else if s[0] == 'n' then Some(Parsed('\n', s[1..]))
    else if s[0] == 'r' then Some(Parsed('\r', s[1..]))
    else if s[0] == 't' then Some(Parsed('\t', s[1..]))
    else if s[0] == 'u' && |s| >= 5 && HexValue(s[1..5]).Some? then
      var code := HexValue(s[1..5]).value;
      if code < 0xD800 || 0xDFFF < code < 0x1_0000 then Some(Parsed(code as char, s[5..])) else None
    else None
  }

  function ParseText(s: string): (r: Option<Parsed<string>>)
    ensures r.Some? ==> |r.value.rest| < |s|
    decreases |s|
  {
    if s == [] then None
    else if s[0] == '"' then Some(Parsed([], s[1..]))
    else if s[0] < ' ' then None
    else if s[0] == '\\' then
      match ParseEscape(s[1..])
      case None => None
      case Some(c) =>
        match ParseText(c.rest)
        case None => None
        case Some(t) => Some(Parsed([c.value] + t.value, t.rest))
    else
      match ParseText(s[1..])
      case None => None
      case Some(t) => Some(Parsed([s[0]] + t.value, t.rest))
  }

  // ---- Values ----

  // The length of the longest number text in front.
  function NumLength(s: string): (n: nat)
    ensures n <= |s|
  {
    if s == [] || !NumChar(s[0]) then 0 else 1 + NumLength(s[1..])
  }

  function ParseValue(s: string): (r: Option<Parsed<Json>>)
    ensures r.Some? ==> |r.value.rest| < |s|
    decreases |s|, 0
  {
    if s == [] then None
    else if "null" <= s then Some(Parsed(Null, s[4..]))
    else if "true" <= s then Some(Parsed(Bool(true), s[4..]))
    else if "false" <= s then Some(Parsed(Bool(false), s[5..]))
    else if s[0] == '"' then
      match ParseText(s[1..])
      case None => None
      case Some(t) => Some(Parsed(Str(t.value), t.rest))
    else if s[0] == '[' then
      if |s| > 1 && s[1] == ']' then Some(Parsed(Arr([]), s[2..]))
      else
        match ParseItems(s[1..])
        case None => None
        case Some(items) => Some(Parsed(Arr(items.value), items.rest))
    else if s[0] == '{' then
      if |s| > 1 && s[1] == '}' then Some(Parsed(Obj([]), s[2..]))
      else
        match ParseProps(s[1..])
        case None => None
        case Some(props) => Some(Parsed(Obj(props.value), props.rest))
    else
      var n := NumLength(s);
      if NumLiteral(s[..n]) then Some(Parsed(Num(s[..n]), s[n..])) else None
  }

  // Items up to the closing bracket.
  function ParseItems(s: string): (r: Option<Parsed<seq<Json>>>)
    ensures r.Some? ==> |r.value.rest| < |s|
    decreases |s|, 1
  {
    match ParseValue(s)
    case None => None
    case Some(v) =>
      if v.rest == [] then None
      else if v.rest[0] == ']' then Some(Parsed([v.value], v.rest[1..]))
      else if v.rest[0] == ',' then
        match ParseItems(v.rest[1..])
        case None => None
        case Some(items) => Some(Parsed([v.value] + items.value, items.rest))
      else None
  }

  // A key, a colon and a value.
  function ParseProp(s: string): (r: Option<Parsed<Prop>>)
    ensures r.Some? ==> |r.value.rest| < |s|
    decreases |s|, 1
  {
    if s == [] || s[0] != '"' then None
    else
      match ParseText(s[1..])
      case None => None
      case Some(key) =>
        if key.rest == [] || key.rest[0] != ':' then None
        else
          match ParseValue(key.rest[1..])
          case None => None
          case Some(v) => Some(Parsed(Prop(key.value, v.value), v.rest))
  }

  // Properties up to the closing brace.
  function ParseProps(s: string): (r: Option<Parsed<seq<Prop>>>)
    ensures r.Some? ==> |r.value.rest| < |s|
    decreases |s|, 2
  {
    match ParseProp(s)
    case None => None
    case Some(p) =>
      if p.rest == [] then None
      else if p.rest[0] == '}' then Some(Parsed([p.value], p.rest[1..]))
      else if p.rest[0] == ',' then
        match ParseProps(p.rest[1..])
        case None => None
        case Some(props) => Some(Parsed([p.value] + props.value, props.rest))
      else None
  }

  function Parse(s: string): Option<Json> {
    match ParseValue(s)
    case None => None
    case Some(v) => if v.rest == [] then Some(v.value) else None
  }

  // ---- Reading strings back ----

  lemma EscapeCharReads(c: char, rest: string)
    requires |EscapeChar(c)| > 1
    ensures EscapeChar(c)[0] == '\\' && ParseEscape(EscapeChar(c)[1..] + rest) == Some(Parsed(c, rest))
  {
    var s := EscapeChar(c)[1..] + rest;
    if |EscapeChar(c)| == 6 {
      var n := c as int;
      assert s[1..5] == ['0', '0', Text.Digit(n / 16), Text.Digit(n % 16)];
      assert s[5..] == rest;
      HexDigitsRead(n);
    } else {
      assert s[1..] == rest;
    }
  }

  lemma HexDigitsRead(n: nat)
    requires n < 32
    ensures HexValue(['0', '0', Text.Digit(n / 16), Text.Digit(n % 16)]) == Some(n)
  {
  }

  lemma UnescapedChar(c: char)
    requires |EscapeChar(c)| <= 1
    ensures EscapeChar(c) == [c] && c != '"' && c != '\\' && c >= ' '
  {
  }

  lemma {:induction false} TextReads(t: string, rest: string)
    ensures ParseText(Escape(t) + ['"'] + rest) == Some(Parsed(t, rest))
  {
    hide EscapeChar, ParseEscape;
    var s := Escape(t) + ['"'] + rest;
    if t == [] {
      assert s == ['"'] + rest;
      assert s[1..] == rest;
    } else {
      var tail := Escape(t[1..]) + ['"'] + rest;
      TextReads(t[1..], rest);
      assert s == EscapeChar(t[0]) + tail;
      assert t == [t[0]] + t[1..];
      if |EscapeChar(t[0])| > 1 {
        EscapeCharReads(t[0], tail);
        assert s[1..] == EscapeChar(t[0])[1..] + tail;
      } else {
        UnescapedChar(t[0]);
        assert s[1..] == tail;
      }
    }
  }

  lemma QuoteReads(t: string, rest: string)
    ensures Quote(t) + rest != [] && (Quote(t) + rest)[0] == '"' && ParseText((Quote(t) + rest)[1..]) == Some(Parsed(t, rest))
  {
    hide Escape, ParseText;
    TextReads(t, rest);
    assert (Quote(t) + rest)[1..] == Escape(t) + ['"'] + rest;
  }

  // ---- Reading values back ----

  // What may stand behind a value.
  predicate After(rest: string) {
    rest == [] || Delimiter(rest[0])
  }

  // The text reads as this value wherever it stands.
  ghost predicate ReadsAs(text: string, v: Json) {
    forall rest :: After(rest) ==> ParseValue(text + rest) == Some(Parsed(v, rest))
  }

  lemma {:induction false} LiteralLength(l: string, rest: string)
    requires (forall i :: 0 <= i < |l| ==> NumChar(l[i])) && After(rest)
    ensures NumLength(l + rest) == |l|
  {
    if l == [] {
      assert l + rest == rest;
    } else {
      assert (l + rest)[1..] == l[1..] + rest;
      LiteralLength(l[1..], rest);
    }
  }

  lemma NumReads(l: string)
    requires NumLiteral(l)
    ensures ReadsAs(l, Num(l))
  {
    forall rest | After(rest) ensures ParseValue(l + rest) == Some(Parsed(Num(l), rest)) {
      LiteralLength(l, rest);
      assert (l + rest)[..|l|] == l && (l + rest)[|l|..] == rest;
      assert (l + rest)[0] == l[0];
    }
  }

  lemma WordReads(v: Json)
    requires v.Null? || v.Bool?
    ensures ReadsAs(Canonical(v), v)
  {
    var t := Canonical(v);
    forall rest ensures ParseValue(t + rest) == Some(Parsed(v, rest)) {
      assert t <= t + rest && (t + rest)[|t|..] == rest && (t + rest)[0] == t[0];
    }
  }

  lemma StrReads(t: string)
    ensures ReadsAs(Quote(t), Str(t))
  {
    hide ParseText, Quote;
    forall rest ensures ParseValue(Quote(t) + rest) == Some(Parsed(Str(t), rest)) {
      QuoteReads(t, rest);
    }
  }

  lemma {:induction false} ItemsRead(texts: seq<string>, vs: seq<Json>, rest: string)
    requires |texts| == |vs| > 0 && forall i :: 0 <= i < |vs| ==> ReadsAs(texts[i], vs[i])
    ensures ParseItems(Join(texts) + ([']'] + rest)) == Some(Parsed(vs, rest))
    decreases |vs|
  {
    hide ParseValue, Join;
    var tail := [']'] + rest;
    JoinSplits(texts, tail);
    var after := AfterHead(texts, tail);
    assert After(after);
    assert ReadsAs(texts[0], vs[0]);
    if |vs| > 1 {
      ItemsRead(texts[1..], vs[1..], rest);
      assert after[1..] == Join(texts[1..]) + tail;
      assert vs == [vs[0]] + vs[1..];
    } else {
      assert after[1..] == rest && vs == [vs[0]];
    }
  }

  lemma PropReads(e: Entry, v: Json, rest: string)
    requires ReadsAs(e.text, v) && After(rest)
    ensures ParseProp(EntryText(e) + rest) == Some(Parsed(Prop(e.key, v), rest))
  {
    hide ParseValue, ParseText, Quote;
    var behind := [':'] + (e.text + rest);
    QuoteReads(e.key, behind);
    assert EntryText(e) + rest == Quote(e.key) + behind;
    assert behind[1..] == e.text + rest;
  }

  lemma {:induction false} PropsRead(es: seq<Entry>, vs: seq<Json>, rest: string)
    requires |es| == |vs| > 0 && forall i :: 0 <= i < |vs| ==> ReadsAs(es[i].text, vs[i])
    ensures ParseProps(Join(EntryTexts(es)) + (['}'] + rest)) == Some(Parsed(PropsOf(es, vs), rest))
    decreases |vs|
  {
    hide ParseProp, Join, EntryText, ReadsAs;
    var texts := EntryTexts(es);
    var tail := ['}'] + rest;
    JoinSplits(texts, tail);
    var after := AfterHead(texts, tail);
    assert After(after);
    PropReads(es[0], vs[0], after);
    var front := [Prop(es[0].key, vs[0])];
    if |vs| > 1 {
      PropsRead(es[1..], vs[1..], rest);
      assert texts[1..] == EntryTexts(es[1..]);
      assert after[1..] == Join(texts[1..]) + tail;
      assert PropsOf(es, vs) == front + PropsOf(es[1..], vs[1..]);
    } else {
      assert after[1..] == rest && PropsOf(es, vs) == front;
    }
  }

  function PropsOf(es: seq<Entry>, vs: seq<Json>): seq<Prop>
    requires |es| == |vs|
  {
    seq(|es|, i requires 0 <= i < |es| => Prop(es[i].key, vs[i]))
  }

  lemma OpensArray(s: string)
    requires s != [] && s[0] == '['
    ensures ParseValue(s) ==
      if |s| > 1 && s[1] == ']' then Some(Parsed(Arr([]), s[2..]))
      else match ParseItems(s[1..]) case None => None case Some(items) => Some(Parsed(Arr(items.value), items.rest))
  {
    hide ParseItems;
  }

  lemma OpensObject(s: string)
    requires s != [] && s[0] == '{'
    ensures ParseValue(s) ==
      if |s| > 1 && s[1] == '}' then Some(Parsed(Obj([]), s[2..]))
      else match ParseProps(s[1..]) case None => None case Some(props) => Some(Parsed(Obj(props.value), props.rest))
  {
    hide ParseProps;
  }

  lemma ArrReads(texts: seq<string>, vs: seq<Json>)
    requires |texts| == |vs| && forall i :: 0 <= i < |vs| ==> Starts(texts[i]) && ReadsAs(texts[i], vs[i])
    ensures ReadsAs(['['] + Join(texts) + [']'], Arr(vs))
  {
    hide ParseItems, ParseValue, Join, ReadsAs;
    forall rest | After(rest) ensures ParseValue(['['] + Join(texts) + [']'] + rest) == Some(Parsed(Arr(vs), rest)) {
      var s := ['['] + Join(texts) + [']'] + rest;
      assert s[1..] == Join(texts) + ([']'] + rest);
      OpensArray(s);
      JoinStarts(texts, [']'] + rest);
      if vs == [] {
        assert texts == [];
        JoinOfNone();
        assert s[1..] == [']'] + rest;
        assert s[2..] == rest;
      } else {
        ItemsRead(texts, vs, rest);
        assert s[1] == s[1..][0];
      }
    }
    ReadsByAll(['['] + Join(texts) + [']'], Arr(vs));
  }

  lemma ReadsByAll(text: string, v: Json)
    requires forall rest :: After(rest) ==> ParseValue(text + rest) == Some(Parsed(v, rest))
    ensures ReadsAs(text, v)
  {
  }

  lemma ObjReads(es: seq<Entry>, vs: seq<Json>)
    requires |es| == |vs| && forall i :: 0 <= i < |vs| ==> ReadsAs(es[i].text, vs[i])
    ensures ReadsAs(['{'] + Join(EntryTexts(es)) + ['}'], Obj(PropsOf(es, vs)))
  {
    hide ParseProps, ParseValue, Join, ReadsAs, EntryText;
    var texts := EntryTexts(es);
    var whole := ['{'] + Join(texts) + ['}'];
    forall i | 0 <= i < |texts| ensures Starts(texts[i]) { EntryStarts(es[i]); }
    forall rest | After(rest) ensures ParseValue(whole + rest) == Some(Parsed(Obj(PropsOf(es, vs)), rest)) {
      var s := whole + rest;
      assert s[1..] == Join(texts) + (['}'] + rest);
      OpensObject(s);
      JoinStarts(texts, ['}'] + rest);
      if vs == [] {
        assert texts == [] && PropsOf(es, vs) == [];
        JoinOfNone();
        assert s[1..] == ['}'] + rest;
        assert s[2..] == rest;
      } else {
        PropsRead(es, vs, rest);
        assert s[1] == s[1..][0];
      }
    }
    ReadsByAll(whole, Obj(PropsOf(es, vs)));
  }

  lemma EntryStarts(e: Entry)
    ensures Starts(EntryText(e))
  {
  }

  // ---- The round trip ----

  // The same value with keys in sorted order throughout.
  lemma {:induction false} CanonicalReads(v: Json) returns (w: Json)
    requires Valid(v)
    ensures Valid(w) && MeaningOf(w) == MeaningOf(v) && ReadsAs(Canonical(v), w)
    decreases v
  {
    match v {
      case Arr(items) =>
        var ws := ItemsReread(items);
        forall i | 0 <= i < |items| ensures Starts(ItemTexts(items)[i]) { TextStarts(items[i]); }
        ArrReads(ItemTexts(items), ws);
        w := Arr(ws);
      case Obj(props) =>
        w := PropsReread(props);
      case Str(t) =>
        StrReads(t);
        w := v;
      case Num(l) =>
        NumReads(l);
        w := v;
      case _ =>
        WordReads(v);
        w := v;
    }
  }

  lemma {:induction false} ItemsReread(items: seq<Json>) returns (ws: seq<Json>)
    requires forall i :: 0 <= i < |items| ==> Valid(items[i])
    ensures |ws| == |items| && forall i :: 0 <= i < |ws| ==>
      Valid(ws[i]) && MeaningOf(ws[i]) == MeaningOf(items[i]) && ReadsAs(Canonical(items[i]), ws[i])
    decreases items
  {
    hide ReadsAs, Canonical, MeaningOf, Valid;
    ws := [];
    if items != [] {
      var front := items[..|items| - 1];
      ws := ItemsReread(front);
      var last := CanonicalReads(items[|items| - 1]);
      ws := ws + [last];
      forall i | 0 <= i < |items| - 1 ensures items[i] == front[i] {}
    }
  }

  // An entry's text reads as a value that means what the property of its key means.
  ghost predicate MeansField(props: seq<Prop>, e: Entry, v: Json) {
    && e.key in FieldsOf(props) && FieldsOf(props)[e.key] == MeaningOf(v) && Valid(v) && ReadsAs(e.text, v)
  }

  lemma {:induction false} PropsReread(props: seq<Prop>) returns (w: Json)
    requires Valid(Obj(props))
    ensures Valid(w) && MeaningOf(w) == MeaningOf(Obj(props)) && ReadsAs(Canonical(Obj(props)), w)
    decreases props
  {
    hide ReadsAs, FieldsOf, SortByKey;
    var es := SortByKey(EntriesOf(props));
    EntriesDistinct(props);
    SortSorts(EntriesOf(props));
    FieldsAreProps(props);
    var vs: seq<Json> := [];
    while |vs| < |es|
      invariant |vs| <= |es| && forall i :: 0 <= i < |vs| ==> MeansField(props, es[i], vs[i])
    {
      var e := es[|vs|];
      assert e in es;
      var m :| 0 <= m < |props| && EntriesOf(props)[m] == e;
      var v := CanonicalReads(props[m].value);
      assert MeansField(props, e, v);
      vs := vs + [v];
    }
    ObjReads(es, vs);
    SortedFields(props, es, vs);
    w := Obj(PropsOf(es, vs));
  }

  // Sorting the properties by key changes no field.
  lemma SortedFields(props: seq<Prop>, es: seq<Entry>, vs: seq<Json>)
    requires DistinctKeys(props) && SortedByKey(es) && |es| == |vs|
    requires forall e :: e in es <==> e in EntriesOf(props)
    requires forall i :: 0 <= i < |vs| ==> MeansField(props, es[i], vs[i])
    ensures DistinctKeys(PropsOf(es, vs)) && FieldsOf(PropsOf(es, vs)) == FieldsOf(props)
  {
    hide FieldsOf, ReadsAs, Before, Valid, MeaningOf, Canonical;
    var qs := PropsOf(es, vs);
    forall i, j | 0 <= i < j < |qs| ensures qs[i].key != qs[j].key { BeforeIsOrder(es[i].key, es[j].key, es[j].key); }
    FieldsAreProps(props);
    FieldsAreProps(qs);
    forall k ensures k in FieldsOf(qs) <==> k in FieldsOf(props) {
      if k in FieldsOf(qs) {
        var i :| 0 <= i < |qs| && qs[i].key == k;
        assert MeansField(props, es[i], vs[i]);
      }
      if k in FieldsOf(props) {
        var m :| 0 <= m < |props| && props[m].key == k;
        assert EntriesOf(props)[m] in es;
        var i :| 0 <= i < |es| && es[i] == EntriesOf(props)[m];
        assert qs[i].key == k;
      }
    }
    forall k | k in FieldsOf(qs) ensures FieldsOf(qs)[k] == FieldsOf(props)[k] {
      var i :| 0 <= i < |qs| && qs[i].key == k;
      assert MeansField(props, es[i], vs[i]);
    }
  }

  // Main result: parsing the canonical text of a value gives a value of the same meaning, which prints the same.
  lemma ParsesBack(v: Json)
    requires Valid(v)
    ensures var w := Parse(Canonical(v));
      w.Some? && Valid(w.value) && MeaningOf(w.value) == MeaningOf(v) && Canonical(w.value) == Canonical(v)
  {
    hide ParseValue;
    var w := CanonicalReads(v);
    assert Canonical(v) + [] == Canonical(v);
    assert After([]);
    MeaningDeterminesText(w, v);
  }
}

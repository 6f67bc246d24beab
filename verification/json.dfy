// canonicalJson: JSON text with object keys in sorted order, and why it is unambiguous.
module CanonicalJson {
  import Text

  // A JavaScript value JSON can hold. A number is represented by the text JSON.stringify gives it,
  // an object by its properties in insertion order.
  datatype Json =
    | Null
    | Bool(value: bool)
    | Num(literal: string)
    | Str(text: string)
    | Arr(items: seq<Json>)
    | Obj(props: seq<Prop>)

  datatype Prop = Prop(key: string, value: Json)

  // What a value means once property order is forgotten.
  datatype Meaning =
    | MNull
    | MBool(value: bool)
    | MNum(literal: string)
    | MStr(text: string)
    | MArr(items: seq<Meaning>)
    | MObj(fields: map<string, Meaning>)

  predicate NumChar(c: char) {
    '0' <= c <= '9' || c == '-' || c == '+' || c == '.' || c == 'e'
  }

  predicate NumLiteral(s: string) {
    s != [] && ('0' <= s[0] <= '9' || s[0] == '-') && forall i :: 0 <= i < |s| ==> NumChar(s[i])
  }

  ghost predicate DistinctKeys(props: seq<Prop>) {
    forall i, j :: 0 <= i < j < |props| ==> props[i].key != props[j].key
  }

  // Every number is a number text and no object repeats a key: true of every JavaScript value.
  ghost predicate Valid(v: Json) {
    match v
    case Num(l) => NumLiteral(l)
    case Arr(items) => forall i :: 0 <= i < |items| ==> Valid(items[i])
    case Obj(props) => DistinctKeys(props) && forall i :: 0 <= i < |props| ==> Valid(props[i].value)
    case _ => true
  }

  function MeaningOf(v: Json): Meaning {
    match v
    case Null => MNull
    case Bool(b) => MBool(b)
    case Num(l) => MNum(l)
    case Str(s) => MStr(s)
    case Arr(items) => MArr(seq(|items|, i requires 0 <= i < |items| => MeaningOf(items[i])))
    case Obj(props) => MObj(FieldsOf(props))
  }

  function FieldsOf(props: seq<Prop>): map<string, Meaning> {
    if props == [] then map[]
    else FieldsOf(props[..|props| - 1])[props[|props| - 1].key := MeaningOf(props[|props| - 1].value)]
  }

  // ---- The printer ----

  function EscapeChar(c: char): string {
    if c == '"' then ['\\', '"']
    else if c == '\\' then ['\\', '\\']
    else if c == '\U{08}' then ['\\', 'b']
    else if c == '\U{0C}' then ['\\', 'f']
    else if c == '\n' then ['\\', 'n']
    else if c == '\r' then ['\\', 'r']
    else if c == '\t' then ['\\', 't']
    else if c < ' ' then ['\\', 'u', '0', '0', Text.Digit(c as int / 16), Text.Digit(c as int % 16)]
    else [c]
  }

  function Escape(s: string): string {
    if s == [] then [] else EscapeChar(s[0]) + Escape(s[1..])
  }

  function Quote(s: string): string {
    ['"'] + Escape(s) + ['"']
  }

  // The order of Array.prototype.sort on keys.
  predicate Before(a: string, b: string) {
    b != [] && (a == [] || a[0] < b[0] || (a[0] == b[0] && Before(a[1..], b[1..])))
  }

  datatype Entry = Entry(key: string, text: string)

  function InsertByKey(e: Entry, es: seq<Entry>): seq<Entry> {
    if es == [] then [e]
    else if Before(es[0].key, e.key) then [es[0]] + InsertByKey(e, es[1..])
    else [e] + es
  }

  function SortByKey(es: seq<Entry>): seq<Entry> {
    if es == [] then [] else InsertByKey(es[0], SortByKey(es[1..]))
  }

  function Join(texts: seq<string>): string {
    if texts == [] then []
    else if |texts| == 1 then texts[0]
    else texts[0] + [','] + Join(texts[1..])
  }

  function EntryText(e: Entry): string {
    Quote(e.key) + [':'] + e.text
  }

  function EntryTexts(es: seq<Entry>): seq<string> {
    seq(|es|, i requires 0 <= i < |es| => EntryText(es[i]))
  }

  function EntriesOf(props: seq<Prop>): seq<Entry> {
    seq(|props|, i requires 0 <= i < |props| => Entry(props[i].key, Canonical(props[i].value)))
  }

  function ItemTexts(items: seq<Json>): seq<string> {
    seq(|items|, i requires 0 <= i < |items| => Canonical(items[i]))
  }

  function Canonical(v: Json): string {
    match v
    case Null => "null"
    case Bool(b) => if b then "true" else "false"
    case Num(l) => l
    case Str(s) => Quote(s)
    case Arr(items) => ['['] + Join(ItemTexts(items)) + [']']
    case Obj(props) => ['{'] + Join(EntryTexts(SortByKey(EntriesOf(props)))) + ['}']
  }

  // ---- Quoted strings delimit themselves ----

  lemma HexPairIsCode(m: nat, n: nat)
    requires m < 256 && n < 256 && Text.Digit(m / 16) == Text.Digit(n / 16) && Text.Digit(m % 16) == Text.Digit(n % 16)
    ensures m == n
  {
    assert m == m / 16 * 16 + m % 16;
    assert n == n / 16 * 16 + n % 16;
  }

  // No escape is the beginning of another one.
  lemma EscapesDiffer(c: char, d: char)
    requires var e, f := EscapeChar(c), EscapeChar(d); var n := if |e| < |f| then |e| else |f|; e[..n] == f[..n]
    ensures c == d
  {
    hide Text.Digit;
    var e, f := EscapeChar(c), EscapeChar(d);
    var n := if |e| < |f| then |e| else |f|;
    assert e[..n][0] == e[0] && f[..n][0] == f[0];
    assert n > 1 ==> e[..n][1] == e[1] && f[..n][1] == f[1];
    if n == 6 {
      assert e[..n][4] == f[..n][4] && e[..n][5] == f[..n][5];
      HexPairIsCode(c as int, d as int);
    }
  }

  lemma EscapeCharIsCode(c: char, d: char, x: string, y: string)
    requires EscapeChar(c) + x == EscapeChar(d) + y
    ensures c == d && x == y
  {
    hide EscapeChar;
    var u, v := EscapeChar(c) + x, EscapeChar(d) + y;
    var n := if |EscapeChar(c)| < |EscapeChar(d)| then |EscapeChar(c)| else |EscapeChar(d)|;
    assert u[..n] == EscapeChar(c)[..n] && v[..n] == EscapeChar(d)[..n];
    EscapesDiffer(c, d);
    assert x == u[|EscapeChar(c)|..] && y == v[|EscapeChar(d)|..];
  }

  lemma EscapeStarts(s: string, tail: string)
    requires tail != [] && tail[0] == '"'
    ensures Escape(s) + tail != [] && ((Escape(s) + tail)[0] == '"' <==> s == [])
  {
  }

  lemma {:induction false} EscapeIsCode(a: string, b: string, x: string, y: string)
    requires Escape(a) + (['"'] + x) == Escape(b) + (['"'] + y)
    ensures a == b && x == y
    decreases |a| + |b|
  {
    hide EscapeChar;
    var u, v := ['"'] + x, ['"'] + y;
    if a == [] || b == [] {
      EscapeStarts(a, u);
      EscapeStarts(b, v);
      assert a == b == [];
      assert x == (Escape(a) + u)[1..] && y == (Escape(b) + v)[1..];
    } else {
      assert Escape(a) + u == EscapeChar(a[0]) + (Escape(a[1..]) + u);
      assert Escape(b) + v == EscapeChar(b[0]) + (Escape(b[1..]) + v);
      EscapeCharIsCode(a[0], b[0], Escape(a[1..]) + u, Escape(b[1..]) + v);
      EscapeIsCode(a[1..], b[1..], x, y);
      assert a == [a[0]] + a[1..] && b == [b[0]] + b[1..];
    }
  }

  lemma QuoteIsCode(a: string, b: string, x: string, y: string)
    requires Quote(a) + x == Quote(b) + y
    ensures a == b && x == y
  {
    hide Escape;
    assert (Quote(a) + x)[1..] == Escape(a) + (['"'] + x);
    assert (Quote(b) + y)[1..] == Escape(b) + (['"'] + y);
    EscapeIsCode(a, b, x, y);
  }

  // ---- No canonical text continues another one with a delimiter ----

  predicate Delimiter(c: char) {
    c == ',' || c == ']' || c == '}'
  }

  predicate Ends(x: string, y: string) {
    !(|x| < |y| && y[..|x|] == x && Delimiter(y[|x|]))
  }

  predicate Starts(x: string) {
    x != [] && !Delimiter(x[0])
  }

  ghost predicate Separable(xs: seq<string>, ys: seq<string>) {
    && (forall i :: 0 <= i < |xs| ==> Starts(xs[i]))
    && (forall j :: 0 <= j < |ys| ==> Starts(ys[j]))
    && forall i, j :: 0 <= i < |xs| && 0 <= j < |ys| ==> Ends(xs[i], ys[j]) && Ends(ys[j], xs[i])
  }

  lemma LongerContinues(x: string, y: string, s: string, t: string)
    requires x + s == y + t && |x| < |y|
    ensures y[..|x|] == x && s != [] && y[|x|] == s[0]
  {
    assert (x + s)[..|x|] == x && (x + s)[|x|] == s[0];
    assert (y + t)[..|x|] == y[..|x|] && (y + t)[|x|] == y[|x|];
  }

  lemma NotLonger(x: string, y: string, s: string, t: string)
    requires x + s == y + t && s != [] && Delimiter(s[0])
    ensures Ends(x, y) ==> |y| <= |x|
  {
    if |x| < |y| { LongerContinues(x, y, s, t); }
  }

  lemma SameHead(x: string, y: string, s: string, t: string)
    requires Ends(x, y) && Ends(y, x) && x + s == y + t
    requires s != [] && t != [] && Delimiter(s[0]) && Delimiter(t[0])
    ensures x == y && s == t
  {
    NotLonger(x, y, s, t);
    NotLonger(y, x, t, s);
    assert x == (x + s)[..|x|] && y == (y + t)[..|x|] && s == (x + s)[|x|..] && t == (y + t)[|x|..];
  }

  // What follows the first text of a joined list.
  function AfterHead(xs: seq<string>, tail: string): string
    requires xs != []
  {
    if |xs| == 1 then tail else [','] + Join(xs[1..]) + tail
  }

  lemma JoinSplits(xs: seq<string>, tail: string)
    requires xs != []
    ensures Join(xs) + tail == xs[0] + AfterHead(xs, tail)
  {
    if |xs| > 1 { assert Join(xs) + tail == xs[0] + ([','] + Join(xs[1..]) + tail); }
  }

  lemma JoinStarts(xs: seq<string>, tail: string)
    requires forall i :: 0 <= i < |xs| ==> Starts(xs[i])
    requires tail != [] && Delimiter(tail[0])
    ensures Delimiter((Join(xs) + tail)[0]) <==> xs == []
  {
    hide Join;
    if xs != [] {
      JoinSplits(xs, tail);
      assert (xs[0] + AfterHead(xs, tail))[0] == xs[0][0];
    } else {
      JoinOfNone();
    }
  }

  lemma JoinOfNone()
    ensures Join([]) == []
  {
  }

  lemma {:induction false} JoinIsCode(xs: seq<string>, ys: seq<string>, close: char, s: string, t: string)
    requires Separable(xs, ys) && (close == ']' || close == '}')
    requires Join(xs) + ([close] + s) == Join(ys) + ([close] + t)
    ensures xs == ys && s == t
  {
    var s', t' := [close] + s, [close] + t;
    if xs == [] || ys == [] {
      JoinStarts(xs, s');
      JoinStarts(ys, t');
      assert xs == ys == [];
      assert Join(xs) + s' == s' && Join(ys) + t' == t';
      assert s == s'[1..] && t == t'[1..];
    } else {
      JoinSplits(xs, s');
      JoinSplits(ys, t');
      var u, v := AfterHead(xs, s'), AfterHead(ys, t');
      assert Delimiter(u[0]) && Delimiter(v[0]);
      SameHead(xs[0], ys[0], u, v);
      assert u[0] == v[0];
      assert |xs| == 1 <==> |ys| == 1;
      if |xs| == 1 {
        assert s == s'[1..] && t == t'[1..];
      } else {
        assert u[1..] == Join(xs[1..]) + s' && v[1..] == Join(ys[1..]) + t';
        JoinIsCode(xs[1..], ys[1..], close, s, t);
      }
      assert xs == [xs[0]] + xs[1..] && ys == [ys[0]] + ys[1..];
    }
  }

  // Bracketed lists: an equal prefix means equal lists.
  lemma BracketsEnd(xs: seq<string>, ys: seq<string>, open: char, close: char)
    requires Separable(xs, ys) && (close == ']' || close == '}')
    ensures Ends([open] + Join(xs) + [close], [open] + Join(ys) + [close])
    ensures [open] + Join(xs) + [close] == [open] + Join(ys) + [close] ==> xs == ys
  {
    var x, y := [open] + Join(xs) + [close], [open] + Join(ys) + [close];
    if x <= y {
      var rest := y[|x|..];
      assert y == x + rest;
      assert Join(xs) + ([close] + rest) == (x + rest)[1..];
      assert Join(ys) + ([close] + []) == y[1..];
      JoinIsCode(xs, ys, close, rest, []);
    }
  }

  // ---- Sorting entries by key ----

  lemma {:induction false} BeforeIsOrder(a: string, b: string, c: string)
    ensures !Before(a, a)
    ensures Before(a, b) || Before(b, a) || a == b
    ensures Before(a, b) && Before(b, c) ==> Before(a, c)
  {
    if a != [] {
      BeforeIsOrder(a[1..], if b == [] then [] else b[1..], if c == [] then [] else c[1..]);
      if b != [] && a[0] == b[0] && a[1..] == b[1..] { assert a == [a[0]] + a[1..] && b == [b[0]] + b[1..]; }
    }
  }

  // The texts first differ at this place.
  predicate DifferAt(a: string, b: string, k: nat) {
    k < |a| && k < |b| && a[..k] == b[..k] && a[k] != b[k]
  }

  // A text comes before another by the first character in which they differ, or when the other goes on behind it.
  lemma {:induction false} BeforeExactly(a: string, b: string, k: nat)
    ensures DifferAt(a, b, k) ==> (Before(a, b) <==> a[k] < b[k])
    ensures a <= b ==> (Before(a, b) <==> |a| < |b|)
    ensures b <= a ==> !Before(a, b)
    decreases |a|
  {
    if a != [] && b != [] && a[0] == b[0] {
      var r, s := a[1..], b[1..];
      if k > 0 {
        if DifferAt(a, b, k) { assert r[..k - 1] == a[..k][1..] && s[..k - 1] == b[..k][1..]; }
        BeforeExactly(r, s, k - 1);
      } else {
        BeforeExactly(r, s, 0);
      }
    }
    if DifferAt(a, b, k) && k > 0 { assert a[..k][0] == b[..k][0]; }
  }

  ghost predicate SortedByKey(es: seq<Entry>) {
    forall i, j :: 0 <= i < j < |es| ==> Before(es[i].key, es[j].key)
  }

  ghost predicate DistinctEntries(es: seq<Entry>) {
    forall i, j :: 0 <= i < j < |es| ==> es[i].key != es[j].key
  }

  lemma {:induction false} InsertSorts(e: Entry, es: seq<Entry>)
    requires SortedByKey(es) && forall i :: 0 <= i < |es| ==> es[i].key != e.key
    ensures SortedByKey(InsertByKey(e, es))
    ensures forall x :: x in InsertByKey(e, es) <==> x == e || x in es
  {
    if es != [] {
      var rest := es[1..];
      assert es == [es[0]] + rest;
      BeforeIsOrder(es[0].key, e.key, e.key);
      if Before(es[0].key, e.key) {
        InsertSorts(e, rest);
        var r := InsertByKey(e, rest);
        forall j | 0 <= j < |r| ensures Before(es[0].key, r[j].key) {
          assert r[j] in r;
        }
      } else {
        forall j | 0 <= j < |es| ensures Before(e.key, es[j].key) {
          BeforeIsOrder(e.key, es[0].key, es[j].key);
        }
      }
    }
  }

  lemma {:induction false} SortSorts(es: seq<Entry>)
    requires DistinctEntries(es)
    ensures SortedByKey(SortByKey(es))
    ensures forall x :: x in SortByKey(es) <==> x in es
  {
    if es != [] {
      SortSorts(es[1..]);
      var r := SortByKey(es[1..]);
      forall i | 0 <= i < |r| ensures r[i].key != es[0].key {
        assert r[i] in r;
      }
      InsertSorts(es[0], r);
      assert es == [es[0]] + es[1..];
    }
  }

  lemma HeadIsMember(ys: seq<Entry>)
    ensures ys == [] || ys[0] in ys
  {
  }

  // Sorted lists with the same members are the same list.
  lemma {:induction false} SortedIsUnique(xs: seq<Entry>, ys: seq<Entry>)
    requires SortedByKey(xs) && SortedByKey(ys)
    requires forall e :: e in xs <==> e in ys
    ensures xs == ys
  {
    if xs == [] {
      HeadIsMember(ys);
    } else {
      assert xs[0] in ys;
      assert ys != [];
      assert ys[0] in xs;
      if xs[0] != ys[0] {
        var i :| 0 <= i < |xs| && xs[i] == ys[0];
        var j :| 0 <= j < |ys| && ys[j] == xs[0];
        BeforeIsOrder(xs[0].key, ys[0].key, xs[0].key);
        assert false;
      }
      BeforeIsOrder(xs[0].key, xs[0].key, xs[0].key);
      forall e ensures e in xs[1..] <==> e in ys[1..] {
        if e in xs[1..] { assert e in xs && Before(xs[0].key, e.key); assert e in ys; }
        if e in ys[1..] { assert e in ys && Before(ys[0].key, e.key); assert e in xs; }
      }
      SortedIsUnique(xs[1..], ys[1..]);
      assert xs == [xs[0]] + xs[1..] && ys == [ys[0]] + ys[1..];
    }
  }

  // ---- Canonical texts ----

  lemma TextStarts(v: Json)
    requires Valid(v)
    ensures Starts(Canonical(v))
  {
  }

  lemma EntriesDistinct(props: seq<Prop>)
    requires DistinctKeys(props)
    ensures DistinctEntries(EntriesOf(props))
  {
  }

  lemma EntryTextsContinue(d: Entry, e: Entry, rest: string)
    requires EntryText(e) == EntryText(d) + rest
    ensures d.key == e.key && e.text == d.text + rest
  {
    hide Quote;
    assert EntryText(d) + rest == Quote(d.key) + ([':'] + (d.text + rest));
    assert EntryText(e) == Quote(e.key) + ([':'] + e.text);
    QuoteIsCode(d.key, e.key, [':'] + (d.text + rest), [':'] + e.text);
    assert ([':'] + (d.text + rest))[1..] == d.text + rest && ([':'] + e.text)[1..] == e.text;
  }

  lemma EntryTextsEnd(d: Entry, e: Entry)
    requires Ends(d.text, e.text)
    ensures Starts(EntryText(d)) && Ends(EntryText(d), EntryText(e))
    ensures EntryText(d) == EntryText(e) ==> d == e
  {
    var x, y := EntryText(d), EntryText(e);
    if x <= y {
      hide EntryText;
      var rest := y[|x|..];
      assert y == x + rest;
      EntryTextsContinue(d, e, rest);
      assert rest == [] ==> d.text + rest == d.text;
    }
  }

  // Two canonical texts never differ by a continuation that starts at a delimiter.
  lemma {:induction false} TextEnds(a: Json, b: Json)
    requires Valid(a) && Valid(b)
    ensures Ends(Canonical(a), Canonical(b)) && Ends(Canonical(b), Canonical(a))
    decreases a, b
  {
    match (a, b) {
      case (Arr(xs), Arr(ys)) =>
        ItemTextsSeparable(xs, ys);
        SeparableSymmetric(ItemTexts(xs), ItemTexts(ys));
        BracketsEnd(ItemTexts(xs), ItemTexts(ys), '[', ']');
        BracketsEnd(ItemTexts(ys), ItemTexts(xs), '[', ']');
      case (Obj(ps), Obj(qs)) =>
        EntryTextsSeparable(ps, qs);
        var us, vs := EntryTexts(SortByKey(EntriesOf(ps))), EntryTexts(SortByKey(EntriesOf(qs)));
        SeparableSymmetric(us, vs);
        BracketsEnd(us, vs, '{', '}');
        BracketsEnd(vs, us, '{', '}');
      case (Str(s), Str(t)) =>
        StringsEnd(s, t);
        StringsEnd(t, s);
      case _ =>
        TextStarts(a);
        TextStarts(b);
    }
  }

  lemma StringsEnd(s: string, t: string)
    ensures Ends(Quote(s), Quote(t))
  {
    if Quote(s) <= Quote(t) {
      var rest := Quote(t)[|Quote(s)|..];
      assert Quote(t) + [] == Quote(s) + rest;
      QuoteIsCode(s, t, rest, []);
    }
  }

  lemma SeparableSymmetric(xs: seq<string>, ys: seq<string>)
    requires Separable(xs, ys)
    ensures Separable(ys, xs)
  {
  }

  lemma {:induction false} ItemTextsSeparable(xs: seq<Json>, ys: seq<Json>)
    requires forall i :: 0 <= i < |xs| ==> Valid(xs[i])
    requires forall i :: 0 <= i < |ys| ==> Valid(ys[i])
    ensures Separable(ItemTexts(xs), ItemTexts(ys))
    decreases xs, ys
  {
    forall i | 0 <= i < |xs| ensures Starts(ItemTexts(xs)[i]) { TextStarts(xs[i]); }
    forall i | 0 <= i < |ys| ensures Starts(ItemTexts(ys)[i]) { TextStarts(ys[i]); }
    forall i, j | 0 <= i < |xs| && 0 <= j < |ys|
      ensures Ends(ItemTexts(xs)[i], ItemTexts(ys)[j]) && Ends(ItemTexts(ys)[j], ItemTexts(xs)[i])
    {
      TextEnds(xs[i], ys[j]);
    }
  }

  lemma {:induction false} EntryTextsSeparable(ps: seq<Prop>, qs: seq<Prop>)
    requires Valid(Obj(ps)) && Valid(Obj(qs))
    ensures Separable(EntryTexts(SortByKey(EntriesOf(ps))), EntryTexts(SortByKey(EntriesOf(qs))))
    decreases ps, qs
  {
    var ds, es := SortByKey(EntriesOf(ps)), SortByKey(EntriesOf(qs));
    EntriesDistinct(ps);
    EntriesDistinct(qs);
    SortSorts(EntriesOf(ps));
    SortSorts(EntriesOf(qs));
    forall i | 0 <= i < |ds| ensures Starts(EntryTexts(ds)[i]) {}
    forall j | 0 <= j < |es| ensures Starts(EntryTexts(es)[j]) {}
    forall i, j | 0 <= i < |ds| && 0 <= j < |es|
      ensures Ends(EntryText(ds[i]), EntryText(es[j])) && Ends(EntryText(es[j]), EntryText(ds[i]))
    {
      assert ds[i] in ds && es[j] in es;
      var m :| 0 <= m < |ps| && EntriesOf(ps)[m] == ds[i];
      var n :| 0 <= n < |qs| && EntriesOf(qs)[n] == es[j];
      TextEnds(ps[m].value, qs[n].value);
      EntryTextsEnd(ds[i], es[j]);
      EntryTextsEnd(es[j], ds[i]);
    }
  }

  // ---- Fields of an object as a map ----

  lemma {:induction false} FieldsAreProps(props: seq<Prop>)
    requires DistinctKeys(props)
    ensures forall i :: 0 <= i < |props| ==>
      props[i].key in FieldsOf(props) && FieldsOf(props)[props[i].key] == MeaningOf(props[i].value)
    ensures forall k :: k in FieldsOf(props) ==> exists i :: 0 <= i < |props| && props[i].key == k
  {
    if props != [] {
      var rest := props[..|props| - 1];
      FieldsAreProps(rest);
      forall i | 0 <= i < |props|
        ensures props[i].key in FieldsOf(props) && FieldsOf(props)[props[i].key] == MeaningOf(props[i].value)
      {
        if i < |rest| { assert rest[i] == props[i]; }
      }
      forall k | k in FieldsOf(props) ensures exists i :: 0 <= i < |props| && props[i].key == k {
        if k != props[|props| - 1].key {
          assert k in FieldsOf(rest);
          var i :| 0 <= i < |rest| && rest[i].key == k;
          assert props[i].key == k;
        }
      }
    }
  }

  lemma {:induction false} FieldsPointwise(ps: seq<Prop>, qs: seq<Prop>)
    requires |ps| == |qs|
    requires forall i :: 0 <= i < |ps| ==> ps[i].key == qs[i].key && MeaningOf(ps[i].value) == MeaningOf(qs[i].value)
    ensures FieldsOf(ps) == FieldsOf(qs)
  {
    if ps != [] { FieldsPointwise(ps[..|ps| - 1], qs[..|qs| - 1]); }
  }

  // Equal text, equal meaning.
  lemma {:induction false} TextDeterminesMeaning(a: Json, b: Json)
    requires Valid(a) && Valid(b) && Canonical(a) == Canonical(b)
    ensures MeaningOf(a) == MeaningOf(b)
    decreases a
  {
    match (a, b) {
      case (Arr(xs), Arr(ys)) =>
        ItemTextsSeparable(xs, ys);
        BracketsEnd(ItemTexts(xs), ItemTexts(ys), '[', ']');
        forall i | 0 <= i < |xs| ensures MeaningOf(xs[i]) == MeaningOf(ys[i]) {
          assert Canonical(xs[i]) == ItemTexts(xs)[i] == ItemTexts(ys)[i];
          TextDeterminesMeaning(xs[i], ys[i]);
        }
      case (Obj(ps), Obj(qs)) =>
        SameTextSameEntries(ps, qs);
        SameTextSameFields(ps, qs);
        SameKeys(ps, qs);
      case (Str(s), Str(t)) =>
        QuoteIsCode(s, t, [], []);
      case _ =>
        FirstCharTellsKind(a, b);
    }
  }

  lemma SameKeys(ps: seq<Prop>, qs: seq<Prop>)
    requires DistinctKeys(ps) && DistinctKeys(qs)
    requires forall e :: e in EntriesOf(ps) <==> e in EntriesOf(qs)
    ensures FieldsOf(ps).Keys == FieldsOf(qs).Keys
  {
    FieldsAreProps(ps);
    FieldsAreProps(qs);
    forall k ensures k in FieldsOf(ps) <==> k in FieldsOf(qs) {
      if k in FieldsOf(ps) {
        var i :| 0 <= i < |ps| && ps[i].key == k;
        assert EntriesOf(ps)[i] in EntriesOf(qs);
      }
      if k in FieldsOf(qs) {
        var j :| 0 <= j < |qs| && qs[j].key == k;
        assert EntriesOf(qs)[j] in EntriesOf(ps);
      }
    }
  }

  lemma {:induction false} SameTextSameFields(ps: seq<Prop>, qs: seq<Prop>)
    requires Valid(Obj(ps)) && Valid(Obj(qs))
    requires forall e :: e in EntriesOf(ps) <==> e in EntriesOf(qs)
    ensures forall k :: k in FieldsOf(ps) ==> k in FieldsOf(qs) && FieldsOf(ps)[k] == FieldsOf(qs)[k]
    decreases ps
  {
    FieldsAreProps(ps);
    FieldsAreProps(qs);
    forall k | k in FieldsOf(ps) ensures k in FieldsOf(qs) && FieldsOf(ps)[k] == FieldsOf(qs)[k] {
      var i :| 0 <= i < |ps| && ps[i].key == k;
      assert EntriesOf(ps)[i] in EntriesOf(qs);
      var j :| 0 <= j < |qs| && EntriesOf(qs)[j] == EntriesOf(ps)[i];
      TextDeterminesMeaning(ps[i].value, qs[j].value);
    }
  }

  lemma FirstCharTellsKind(a: Json, b: Json)
    requires Valid(a) && Valid(b) && Canonical(a)[..1] == Canonical(b)[..1]
    ensures (a.Null? <==> b.Null?) && (a.Num? <==> b.Num?) && (a.Str? <==> b.Str?)
    ensures (a.Arr? <==> b.Arr?) && (a.Obj? <==> b.Obj?) && (a.Bool? ==> a == b)
  {
    TextStarts(a);
    TextStarts(b);
    assert Canonical(a)[0] == Canonical(a)[..1][0] && Canonical(b)[0] == Canonical(b)[..1][0];
  }

  lemma SameTextSameEntries(ps: seq<Prop>, qs: seq<Prop>)
    requires Valid(Obj(ps)) && Valid(Obj(qs)) && Canonical(Obj(ps)) == Canonical(Obj(qs))
    ensures forall e :: e in EntriesOf(ps) <==> e in EntriesOf(qs)
  {
    var ds, es := SortByKey(EntriesOf(ps)), SortByKey(EntriesOf(qs));
    EntryTextsSeparable(ps, qs);
    BracketsEnd(EntryTexts(ds), EntryTexts(es), '{', '}');
    assert |ds| == |EntryTexts(ds)| == |EntryTexts(es)| == |es|;
    EntriesDistinct(ps);
    EntriesDistinct(qs);
    SortSorts(EntriesOf(ps));
    SortSorts(EntriesOf(qs));
    forall i | 0 <= i < |ds| ensures ds[i] == es[i] {
      assert ds[i] in ds && es[i] in es;
      var m :| 0 <= m < |ps| && EntriesOf(ps)[m] == ds[i];
      var n :| 0 <= n < |qs| && EntriesOf(qs)[n] == es[i];
      TextEnds(ps[m].value, qs[n].value);
      assert EntryTexts(ds)[i] == EntryTexts(es)[i];
      EntryTextsEnd(ds[i], es[i]);
    }
    assert ds == es;
  }

  // Objects with equal fields print the same entries.
  lemma {:induction false} SameFieldsSameEntries(ps: seq<Prop>, qs: seq<Prop>)
    requires Valid(Obj(ps)) && Valid(Obj(qs)) && FieldsOf(ps) == FieldsOf(qs)
    ensures forall e :: e in EntriesOf(ps) <==> e in EntriesOf(qs)
    decreases ps
  {
    hide FieldsOf;
    FieldsAreProps(ps);
    FieldsAreProps(qs);
    forall i | 0 <= i < |ps| ensures EntriesOf(ps)[i] in EntriesOf(qs) {
      assert ps[i].key in FieldsOf(qs);
      var j :| 0 <= j < |qs| && qs[j].key == ps[i].key;
      MeaningDeterminesText(ps[i].value, qs[j].value);
      assert EntriesOf(qs)[j] == EntriesOf(ps)[i];
    }
    forall j | 0 <= j < |qs| ensures EntriesOf(qs)[j] in EntriesOf(ps) {
      assert qs[j].key in FieldsOf(ps);
      var i :| 0 <= i < |ps| && ps[i].key == qs[j].key;
      MeaningDeterminesText(ps[i].value, qs[j].value);
      assert EntriesOf(ps)[i] == EntriesOf(qs)[j];
    }
  }

  // Equal meaning, equal text.
  lemma {:induction false} MeaningDeterminesText(a: Json, b: Json)
    requires Valid(a) && Valid(b) && MeaningOf(a) == MeaningOf(b)
    ensures Canonical(a) == Canonical(b)
    decreases a
  {
    match (a, b) {
      case (Arr(xs), Arr(ys)) =>
        forall i | 0 <= i < |xs| ensures |ys| == |xs| && Canonical(xs[i]) == Canonical(ys[i]) {
          assert MeaningOf(a).items[i] == MeaningOf(b).items[i];
          MeaningDeterminesText(xs[i], ys[i]);
        }
        assert |MeaningOf(a).items| == |xs| && |MeaningOf(b).items| == |ys|;
        assert ItemTexts(xs) == ItemTexts(ys);
      case (Obj(ps), Obj(qs)) =>
        SameFieldsSameEntries(ps, qs);
        EntriesDistinct(ps);
        EntriesDistinct(qs);
        SortSorts(EntriesOf(ps));
        SortSorts(EntriesOf(qs));
        SortedIsUnique(SortByKey(EntriesOf(ps)), SortByKey(EntriesOf(qs)));
      case _ =>
    }
  }

  // Main result: two values print alike exactly when they are equal with objects read as maps.
  lemma CanonicalIsUnambiguous(a: Json, b: Json)
    requires Valid(a) && Valid(b)
    ensures Canonical(a) == Canonical(b) <==> MeaningOf(a) == MeaningOf(b)
  {
    if Canonical(a) == Canonical(b) { TextDeterminesMeaning(a, b); }
    if MeaningOf(a) == MeaningOf(b) { MeaningDeterminesText(a, b); }
  }
}

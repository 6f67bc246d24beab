// Splitting and joining text at a separator character; decimal and hexadecimal numerals.
module Text {
  import opened Wrappers

  // The capitals of ASCII text.
  function Upper(s: string): string {
    seq(|s|, i requires 0 <= i < |s| => if 'a' <= s[i] <= 'z' then s[i] - 'a' + 'A' else s[i])
  }

  lemma ConcatAssociates<T>(a: seq<T>, b: seq<T>, c: seq<T>)
    ensures a + b + c == a + (b + c)
  {
  }

  predicate Distinct(texts: seq<string>) {
    forall i, j :: 0 <= i < j < |texts| ==> texts[i] != texts[j]
  }

  // One more character in front of a split text.
  function Push(c: char, sep: char, rest: seq<string>): (r: seq<string>)
    requires |rest| > 0
    ensures |r| > 0
  {
    if c == sep then [[]] + rest else [[c] + rest[0]] + rest[1..]
  }

  function Split(s: string, sep: char): (r: seq<string>)
    ensures |r| > 0
  {
    if s == [] then [[]] else Push(s[0], sep, Split(s[1..], sep))
  }

  function Join(parts: seq<string>, sep: char): string
    requires |parts| > 0
  {
    if |parts| == 1 then parts[0] else parts[0] + [sep] + Join(parts[1..], sep)
  }

  predicate Lacks(s: string, c: char) {
    forall i :: 0 <= i < |s| ==> s[i] != c
  }

  lemma {:induction false} JoinOfSplit(s: string, sep: char)
    ensures Join(Split(s, sep), sep) == s
  {
    if s != [] {
      JoinOfSplit(s[1..], sep);
      var rest := Split(s[1..], sep);
      assert s == [s[0]] + s[1..];
      if s[0] == sep {
        assert Split(s, sep)[1..] == rest;
      } else {
        assert Split(s, sep)[1..] == rest[1..];
      }
    }
  }

  lemma {:induction false} SplitAtSeparator(a: string, b: string, sep: char)
    ensures Split(a + [sep] + b, sep) == Split(a, sep) + Split(b, sep)
  {
    var s := a + [sep] + b;
    if a == [] {
      assert s[1..] == b;
    } else {
      hide Push;
      SplitAtSeparator(a[1..], b, sep);
      assert s[1..] == a[1..] + [sep] + b;
      assert s[0] == a[0];
      PushConcat(a[0], sep, Split(a[1..], sep), Split(b, sep));
    }
  }

  lemma PushConcat(c: char, sep: char, rest: seq<string>, tail: seq<string>)
    requires |rest| > 0
    ensures Push(c, sep, rest + tail) == Push(c, sep, rest) + tail
  {
    assert (rest + tail)[1..] == rest[1..] + tail;
  }

  lemma {:induction false} SplitOfPart(s: string, sep: char)
    requires Lacks(s, sep)
    ensures Split(s, sep) == [s]
  {
    if s != [] {
      assert s == [s[0]] + s[1..];
      SplitOfPart(s[1..], sep);
    }
  }

  lemma {:induction false} SplitOfJoin(parts: seq<string>, sep: char)
    requires |parts| > 0 && forall i :: 0 <= i < |parts| ==> Lacks(parts[i], sep)
    ensures Split(Join(parts, sep), sep) == parts
  {
    SplitOfPart(parts[0], sep);
    if |parts| > 1 {
      SplitOfJoin(parts[1..], sep);
      SplitAtSeparator(parts[0], Join(parts[1..], sep), sep);
      assert parts == [parts[0]] + parts[1..];
    } else {
      assert parts == [parts[0]];
    }
  }

  lemma {:induction false} SplitPartsLack(s: string, sep: char)
    ensures forall i :: 0 <= i < |Split(s, sep)| ==> Lacks(Split(s, sep)[i], sep)
  {
    if s != [] { SplitPartsLack(s[1..], sep); }
  }

  lemma {:induction false} JoinConcat(a: seq<string>, b: seq<string>, sep: char)
    requires |a| > 0 && |b| > 0
    ensures Join(a + b, sep) == Join(a, sep) + [sep] + Join(b, sep)
  {
    if |a| == 1 {
      assert (a + b)[1..] == b;
    } else {
      assert (a + b)[1..] == a[1..] + b;
      JoinConcat(a[1..], b, sep);
    }
  }

  // ---- Numerals ----

  // The lower-case digits of bases up to sixteen.
  function Digit(n: nat): (c: char)
    requires n < 16
    ensures DigitValue(c) == Some(n)
  {
    if n < 10 then '0' + n as char else 'a' + (n - 10) as char
  }

  function DigitValue(c: char): Option<nat> {
    if '0' <= c <= '9' then Some((c - '0') as nat)
    else if 'a' <= c <= 'f' then Some((c - 'a') as nat + 10)
    else None
  }

  datatype Base = Decimal | Hexadecimal

  function Radix(base: Base): nat {
    if base == Decimal then 10 else 16
  }

  function Front(n: nat, base: Base): nat {
    if base == Decimal then n / 10 else n / 16
  }

  function Last(n: nat, base: Base): (d: nat)
    ensures d < Radix(base)
  {
    if base == Decimal then n % 10 else n % 16
  }

  function Append(front: nat, digit: nat, base: Base): nat {
    if base == Decimal then front * 10 + digit else front * 16 + digit
  }

  // Number.prototype.toString in base ten or sixteen.
  function Numeral(n: nat, base: Base): (s: string)
    ensures s != []
    decreases n
  {
    if n < Radix(base) then [Digit(n)] else Numeral(Front(n, base), base) + [Digit(Last(n, base))]
  }

  predicate AllDigits(s: string, base: Base) {
    forall i :: 0 <= i < |s| ==> DigitValue(s[i]).Some? && DigitValue(s[i]).value < Radix(base)
  }

  predicate IsNumeral(s: string, base: Base) {
    s != [] && AllDigits(s, base)
  }

  function Value(s: string, base: Base): nat
    requires AllDigits(s, base)
  {
    if s == [] then 0 else Append(Value(s[..|s| - 1], base), DigitValue(s[|s| - 1]).value, base)
  }

  lemma ValueOfAppend(front: string, digit: nat, base: Base)
    requires AllDigits(front, base) && digit < Radix(base)
    ensures IsNumeral(front + [Digit(digit)], base)
    ensures Value(front + [Digit(digit)], base) == Append(Value(front, base), digit, base)
  {
    assert (front + [Digit(digit)])[..|front|] == front;
  }

  lemma AppendOfFront(n: nat, base: Base)
    ensures Append(Front(n, base), Last(n, base), base) == n
  {
  }

  lemma {:induction false} NumeralRoundTrip(n: nat, base: Base)
    ensures IsNumeral(Numeral(n, base), base) && Value(Numeral(n, base), base) == n
    ensures Numeral(n, base)[0] == '0' ==> n == 0
    decreases n
  {
    hide AllDigits, Value, Digit, DigitValue, Append;
    if n >= Radix(base) {
      NumeralRoundTrip(Front(n, base), base);
      ValueOfAppend(Numeral(Front(n, base), base), Last(n, base), base);
      AppendOfFront(n, base);
    } else {
      OneDigit(n, base);
      ValueOfAppend([], n, base);
      assert [] + [Digit(n)] == [Digit(n)];
    }
  }

  lemma OneDigit(n: nat, base: Base)
    requires n < Radix(base)
    ensures AllDigits([], base) && Append(Value([], base), n, base) == n
    ensures Digit(n) == '0' ==> n == 0
  {
  }

  lemma AppendSplits(front: nat, digit: nat, base: Base)
    requires digit < Radix(base)
    ensures Front(Append(front, digit, base), base) == front && Last(Append(front, digit, base), base) == digit
    ensures front > 0 ==> Append(front, digit, base) >= Radix(base)
  {
  }

  // A numeral without superfluous zeros is the numeral of its value.
  lemma {:induction false} CanonicalNumeral(s: string, base: Base)
    requires IsNumeral(s, base) && (s[0] == '0' ==> |s| == 1)
    ensures Numeral(Value(s, base), base) == s
    ensures s[0] != '0' ==> Value(s, base) > 0
  {
    var n := |s| - 1;
    var d := DigitValue(s[n]).value;
    assert Digit(d) == s[n];
    assert s == s[..n] + [s[n]];
    if n == 0 {
      assert s[..0] == [];
    } else {
      CanonicalNumeral(s[..n], base);
      AppendSplits(Value(s[..n], base), d, base);
    }
  }
}

// DNS names as text: normal form, labels, and what it means for a name to lie under another.
module Names {
  import opened Wrappers
  import opened Text

  function Lower(s: string): (r: string)
    ensures |r| == |s|
  {
    seq(|s|, i requires 0 <= i < |s| => if 'A' <= s[i] <= 'Z' then s[i] - 'A' + 'a' else s[i])
  }

  function NormalizeName(name: string): string {
    if name == "." then ""
    else if name != [] && name[|name| - 1] == '.' then Lower(name[..|name| - 1])
    else Lower(name)
  }

  lemma LowerTwice(s: string)
    ensures Lower(Lower(s)) == Lower(s)
  {
  }

  lemma LowerConcat(a: string, b: string)
    ensures Lower(a + b) == Lower(a) + Lower(b)
  {
  }

  lemma LowerOfEmpty()
    ensures Lower("") == ""
  {
  }

  lemma LowerOfDot()
    ensures Lower(['.']) == ['.']
  {
  }

  lemma NormalizedIsLower(name: string)
    ensures Lower(NormalizeName(name)) == NormalizeName(name)
  {
  }

  predicate Dotted(name: string) {
    name != "" && name[|name| - 1] == '.'
  }

  // A name normalizeName leaves as it is.
  predicate Normal(name: string) {
    NormalizeName(name) == name
  }

  lemma NormalIsLower(name: string)
    ensures Normal(name) <==> Lower(name) == name && (name == [] || name[|name| - 1] != '.')
  {
    if name != [] && name[|name| - 1] == '.' {
      assert |NormalizeName(name)| < |name|;
    }
  }

  predicate EndsWith(s: string, t: string) {
    |t| <= |s| && s[|s| - |t|..] == t
  }

  // The suffix test of belongsTo, on a normalized name.
  predicate Under(name: string, domain: string) {
    name == domain || EndsWith(name, ['.'] + domain)
  }

  lemma UnderItself(name: string)
    ensures Under(name, name)
  {
  }

  predicate BelongsTo(name: string, domain: string) {
    Under(NormalizeName(name), domain)
  }

  // The test rewriteSuffix and classifyDomain make: a normalized name, normalized again by belongsTo.
  predicate LiesUnder(name: string, domain: string) {
    BelongsTo(NormalizeName(name), domain)
  }

  // A name belongsTo may ask about: in normal form, with no empty label.
  predicate ZoneName(name: string) {
    Normal(name) && NoEmptyLabels(name)
  }

  lemma UnderByIndex(name: string, domain: string)
    ensures Under(name, domain) <==>
      |domain| <= |name| && name[|name| - |domain|..] == domain
      && (|domain| == |name| || name[|name| - |domain| - 1] == '.')
  {
    var t := ['.'] + domain;
    if |t| <= |name| {
      var tail := name[|name| - |t|..];
      assert tail == [name[|name| - |domain| - 1]] + name[|name| - |domain|..];
      assert t[1..] == domain;
      assert tail[1..] == name[|name| - |domain|..];
    }
  }

  lemma UnderTransitive(a: string, b: string, c: string)
    requires Under(a, b) && Under(b, c)
    ensures Under(a, c)
  {
    UnderByIndex(a, b);
    UnderByIndex(b, c);
    UnderByIndex(a, c);
    assert a[|a| - |c|..] == a[|a| - |b|..][|b| - |c|..];
    assert |c| < |b| ==> a[|a| - |c| - 1] == a[|a| - |b|..][|b| - |c| - 1];
  }

  // Two names above the same name lie one under the other.
  lemma UnderComparable(name: string, longer: string, shorter: string)
    requires Under(name, longer) && Under(name, shorter) && |shorter| <= |longer|
    ensures Under(longer, shorter)
  {
    UnderByIndex(name, longer);
    UnderByIndex(name, shorter);
    UnderByIndex(longer, shorter);
    assert name[|name| - |shorter|..] == name[|name| - |longer|..][|longer| - |shorter|..];
    assert |shorter| < |longer| ==> name[|name| - |shorter| - 1] == name[|name| - |longer|..][|longer| - |shorter| - 1];
  }

  lemma UnderAntisymmetric(a: string, b: string)
    requires Under(a, b) && |a| <= |b|
    ensures a == b
  {
    UnderByIndex(a, b);
  }

  // ---- Labels ----

  function Labels(name: string): (r: seq<string>)
    ensures |r| > 0
  {
    Split(name, '.')
  }

  // A dot joins labels.
  lemma LabelsConcat(a: string, b: string)
    ensures Labels(a + ['.'] + b) == Labels(a) + Labels(b)
  {
    SplitAtSeparator(a, b, '.');
  }

  predicate SuffixOf<T(==)>(suffix: seq<T>, s: seq<T>) {
    |suffix| <= |s| && s[|s| - |suffix|..] == suffix
  }

  lemma UnderSplits(name: string, domain: string)
    requires Under(name, domain)
    ensures SuffixOf(Labels(domain), Labels(name))
  {
    if name != domain {
      var head := name[..|name| - |domain| - 1];
      assert name == head + (['.'] + domain);
      assert name == head + ['.'] + domain;
      SplitAtSeparator(head, domain, '.');
      assert (Labels(head) + Labels(domain))[|Labels(head)|..] == Labels(domain);
    }
  }

  lemma SuffixJoins(name: string, domain: string)
    requires SuffixOf(Labels(domain), Labels(name))
    ensures Under(name, domain)
  {
    hide Split, Join;
    var ns, ds := Labels(name), Labels(domain);
    JoinOfSplit(name, '.');
    JoinOfSplit(domain, '.');
    var head := ns[..|ns| - |ds|];
    assert ns == head + ds;
    if head == [] {
      assert ns == ds;
    } else {
      JoinConcat(head, ds, '.');
      var t := ['.'] + domain;
      assert name == Join(head, '.') + t;
      assert name[|Join(head, '.')|..] == t;
    }
  }

  // The text test with its leading dot is exactly the suffix order on label lists.
  lemma UnderIsLabelSuffix(name: string, domain: string)
    ensures Under(name, domain) <==> SuffixOf(Labels(domain), Labels(name))
  {
    if Under(name, domain) { UnderSplits(name, domain); }
    if SuffixOf(Labels(domain), Labels(name)) { SuffixJoins(name, domain); }
  }

  // No empty label, except perhaps a last one.
  predicate NoEmptyLabels(s: string) {
    s != [] && s[0] != '.' && forall i :: 0 <= i < |s| - 1 ==> !(s[i] == '.' && s[i + 1] == '.')
  }

  // Of a name all of whose labels but the first are non-empty.
  lemma {:induction false} LaterLabels(name: string)
    requires forall i :: 1 <= i < |Labels(name)| ==> Labels(name)[i] != []
    ensures forall i :: 0 <= i < |name| - 1 ==> !(name[i] == '.' && name[i + 1] == '.')
    ensures |name| > 1 ==> name[|name| - 1] != '.'
    ensures name != "."
  {
    if name != [] {
      var rest := Labels(name[1..]);
      if name[0] == '.' {
        assert Labels(name)[1..] == rest;
        assert rest[0] != [];
        FirstLabel(name[1..]);
      } else {
        assert Labels(name)[1..] == rest[1..];
      }
      LaterLabels(name[1..]);
      forall i | 0 <= i < |name| - 1 ensures !(name[i] == '.' && name[i + 1] == '.') {
        if i > 0 { assert name[1..][i - 1] == name[i] && name[1..][i] == name[i + 1]; }
      }
    }
  }

  lemma FirstLabel(name: string)
    ensures Labels(name)[0] != [] <==> name != [] && name[0] != '.'
  {
  }

  lemma LabelsNotEmpty(name: string)
    requires forall i :: 0 <= i < |Labels(name)| ==> Labels(name)[i] != []
    ensures NoEmptyLabels(name) && name[|name| - 1] != '.'
  {
    FirstLabel(name);
    LaterLabels(name);
  }

  // ---- The zone that owns a name ----

  // The longest of the names the given one lies under (the names being distinct, there is at most one).
  function Owner(zones: seq<string>, name: string): (r: Option<string>)
    ensures r.Some? ==> IsOwner(zones, name, r.value)
    ensures r.None? ==> forall z :: z in zones ==> !Under(name, z)
  {
    if zones == [] then None
    else
      var z := zones[|zones| - 1];
      var best := Owner(zones[..|zones| - 1], name);
      if Under(name, z) && (best.None? || |z| > |best.value|) then Some(z) else best
  }

  // classifyDomain: the owner of a name as entered.
  function Classify(zones: seq<string>, name: string): Option<string> {
    Owner(zones, NormalizeName(NormalizeName(name)))
  }

  ghost predicate IsOwner(zones: seq<string>, name: string, zone: string) {
    zone in zones && Under(name, zone) && forall z :: z in zones && Under(name, z) ==> |z| <= |zone|
  }

  lemma OwnerIsUnique(zones: seq<string>, name: string, zone: string)
    requires IsOwner(zones, name, zone)
    ensures Owner(zones, name) == Some(zone)
  {
    var z := Owner(zones, name).value;
    UnderComparable(name, z, zone);
    UnderAntisymmetric(zone, z);
  }
}

/** Version strings: how they are read and how they compare. */
module Versions {
  import opened Text

  const MAX_INT: int := 0x7FFF_FFFF_FFFF_FFFF

  predicate IsDigit(c: char) { '0' <= c <= '9' }

  function Natural(s: string): Option<nat> {
    if s == "" then Some(0)
    else
      var rest := Natural(s[..|s| - 1]);
      if rest.Some? && IsDigit(s[|s| - 1]) then Some(10 * rest.value + (s[|s| - 1] as int - '0' as int)) else None
  }

  /** strconv.Atoi: one sign at most, at least one digit, within 64 bits. */
  function Atoi(s: string): Option<int> {
    var signed := s != "" && (s[0] == '-' || s[0] == '+');
    var digits := if signed then s[1..] else s;
    var n := Natural(digits);
    if digits == "" || n.None? then None
    else
      var v: int := if signed && s[0] == '-' then 0 - n.value else n.value;
      if -MAX_INT - 1 <= v <= MAX_INT then Some(v) else None
  }

  /** The parts between dots; always at least one. */
  function Split(s: string): (parts: seq<string>)
    ensures |parts| > 0
  {
    if s == "" then [""]
    else
      var rest := Split(s[1..]);
      if s[0] == '.' then [""] + rest else [[s[0]] + rest[0]] + rest[1..]
  }

  /** A part that is no number counts as zero. */
  function PartValue(part: string): int {
    var n := Atoi(part);
    if n.Some? then n.value else 0
  }

  /** Empty parts are skipped. */
  function PartContribution(part: string): seq<int> { if part == "" then [] else [PartValue(part)] }

  /** What each part contributes, in order. */
  function Gather(parts: seq<string>, f: string -> seq<int>): seq<int> {
    if parts == [] then [] else Gather(parts[..|parts| - 1], f) + f(parts[|parts| - 1])
  }

  function PartValues(parts: seq<string>): seq<int> { Gather(parts, PartContribution) }

  function WithoutV(s: string): string { if s != "" && s[0] == 'v' then s[1..] else s }

  function Values(input: string): seq<int> {
    var trimmed := TrimSpace(WithoutV(input));
    if trimmed == "" then [] else PartValues(Split(trimmed))
  }

  method SplitVersion(input: string) returns (values: seq<int>)
    ensures values == Values(input)
  {
    var trimmed := TrimSpace(WithoutV(input));
    if trimmed == "" { return []; }
    var parts := Split(trimmed);
    values := [];
    for i := 0 to |parts|
      invariant values == PartValues(parts[..i])
    {
      assert parts[..i + 1][..i] == parts[..i];
      if parts[i] != "" {
        var val := Atoi(parts[i]);
        values := values + [if val.Some? then val.value else 0];
      }
    }
    assert parts[..|parts|] == parts;
  }

  // ---------------------------------------------------------------- order

  /** Position i of a version that continues with zeros for ever. */
  function Padded(v: seq<int>, i: nat): int { if i < |v| then v[i] else 0 }

  ghost predicate AgreeBelow(a: seq<int>, b: seq<int>, k: nat) {
    forall i: nat :: i < k ==> Padded(a, i) == Padded(b, i)
  }

  /** The first position where they differ is smaller in a. */
  ghost predicate Below(a: seq<int>, b: seq<int>) {
    exists k: nat :: Padded(a, k) < Padded(b, k) && AgreeBelow(a, b, k)
  }

  ghost predicate SameVersion(a: seq<int>, b: seq<int>) {
    forall i: nat :: Padded(a, i) == Padded(b, i)
  }

  ghost predicate VersionBelow(a: string, b: string) { Below(Values(a), Values(b)) }

  method VersionLess(current: string, required: string) returns (less: bool)
    ensures less <==> VersionBelow(current, required)
  {
    var c := SplitVersion(current);
    var r := SplitVersion(required);
    less := PartsLess(c, r);
  }

  /** The loop over the numbers of both versions. */
  method PartsLess(c: seq<int>, r: seq<int>) returns (less: bool)
    ensures less <==> Below(c, r)
  {
    var maxLen := if |r| > |c| then |r| else |c|;
    var i := 0;
    while i < maxLen
      invariant 0 <= i <= maxLen && AgreeBelow(c, r, i)
    {
      var cVal := if i < |c| then c[i] else 0;
      var rVal := if i < |r| then r[i] else 0;
      if cVal < rVal {
        assert Padded(c, i) < Padded(r, i);
        return true;
      }
      if cVal > rVal {
        BelowIsAsymmetric(r, c, i);
        return false;
      }
      i := i + 1;
    }
    assert forall k: nat :: Padded(c, k) == Padded(r, k);
    less := false;
  }

  lemma BelowIsAsymmetric(a: seq<int>, b: seq<int>, k: nat)
    requires Padded(a, k) < Padded(b, k) && AgreeBelow(a, b, k)
    ensures Below(a, b) && !Below(b, a)
  {
    forall j: nat ensures !(Padded(b, j) < Padded(a, j) && AgreeBelow(b, a, j)) {
      assert j < k ==> Padded(a, j) == Padded(b, j);
    }
  }

  lemma {:induction false} FirstDifference(a: seq<int>, b: seq<int>, i: nat) returns (k: nat)
    requires Padded(a, i) != Padded(b, i)
    ensures k <= i && Padded(a, k) != Padded(b, k) && AgreeBelow(a, b, k)
  {
    k := i;
    if j: nat :| j < i && Padded(a, j) != Padded(b, j) {
      k := FirstDifference(a, b, j);
    }
  }

  /** Of any two versions exactly one of three holds: smaller, the same up to zeros,
      larger. */
  lemma Trichotomy(a: seq<int>, b: seq<int>)
    ensures SameVersion(a, b) || Below(a, b) || Below(b, a)
    ensures !(Below(a, b) && Below(b, a))
    ensures SameVersion(a, b) ==> !Below(a, b) && !Below(b, a)
  {
    if i: nat :| Padded(a, i) != Padded(b, i) {
      var k := FirstDifference(a, b, i);
      if Padded(a, k) < Padded(b, k) {
        BelowIsAsymmetric(a, b, k);
      } else {
        assert AgreeBelow(b, a, k);
        BelowIsAsymmetric(b, a, k);
      }
    }
  }

  lemma BelowTransitive(a: seq<int>, b: seq<int>, c: seq<int>)
    requires Below(a, b) && Below(b, c)
    ensures Below(a, c)
  {
    var j: nat :| Padded(a, j) < Padded(b, j) && AgreeBelow(a, b, j);
    var k: nat :| Padded(b, k) < Padded(c, k) && AgreeBelow(b, c, k);
    var m := if j < k then j else k;
    assert Padded(a, m) < Padded(c, m);
    assert AgreeBelow(a, c, m);
  }

  /** Versions equal up to zeros compare alike with every other: not being smaller is
      a total preorder. */
  lemma BelowRespectsSame(a: seq<int>, a': seq<int>, b: seq<int>)
    requires SameVersion(a, a') && Below(a, b)
    ensures Below(a', b)
  {
    var k: nat :| Padded(a, k) < Padded(b, k) && AgreeBelow(a, b, k);
    assert Padded(a', k) < Padded(b, k) && AgreeBelow(a', b, k);
  }

  lemma NotBelowTransitive(a: seq<int>, b: seq<int>, c: seq<int>)
    requires !Below(b, a) && !Below(c, b)
    ensures !Below(c, a)
  {
    Trichotomy(a, b);
    if Below(c, a) {
      if Below(a, b) {
        BelowTransitive(c, a, b);
      } else {
        SameOnTheRight(c, a, b);
      }
    }
  }

  lemma SameOnTheRight(a: seq<int>, b: seq<int>, b': seq<int>)
    requires SameVersion(b, b') && Below(a, b)
    ensures Below(a, b')
  {
    var k: nat :| Padded(a, k) < Padded(b, k) && AgreeBelow(a, b, k);
    assert Padded(a, k) < Padded(b', k) && AgreeBelow(a, b', k);
  }

  // ---------------------------------------------------------------- reading what was printed

  function Dotted(ns: seq<nat>): string {
    if ns == [] then "" else if |ns| == 1 then Decimal(ns[0]) else Decimal(ns[0]) + "." + Dotted(ns[1..])
  }

  predicate Plain(s: string) { forall c :: c in s ==> IsDigit(c) }

  lemma {:induction false} DecimalIsPlain(n: nat)
    ensures Plain(Decimal(n)) && Decimal(n) != "" && Natural(Decimal(n)) == Some(n)
  {
    if n >= 10 {
      DecimalIsPlain(n / 10);
      var s := Decimal(n);
      assert s[..|s| - 1] == Decimal(n / 10);
    } else {
      var s := Decimal(n);
      assert s[..0] == "";
    }
  }

  lemma DecimalReadsBack(n: nat)
    requires n <= MAX_INT
    ensures PartContribution(Decimal(n)) == [n]
  {
    DecimalIsPlain(n);
    assert Decimal(n)[0] in Decimal(n);
  }

  lemma {:induction false} SplitPlain(s: string, rest: string)
    requires Plain(s)
    ensures Split(s) == [s] && Split(s + "." + rest) == [s] + Split(rest)
  {
    var t := s + "." + rest;
    if s == "" {
      assert t[1..] == rest;
    } else {
      assert s[0] in s && (forall c :: c in s[1..] ==> c in s);
      SplitPlain(s[1..], rest);
      assert t[1..] == s[1..] + "." + rest;
      assert [s[0]] + s[1..] == s;
    }
  }

  ghost predicate InRange(ns: seq<nat>) {
    forall n :: n in ns ==> n <= MAX_INT
  }

  function Numerals(ns: seq<nat>): (parts: seq<string>)
    ensures |parts| == |ns| && forall i :: 0 <= i < |ns| ==> parts[i] == Decimal(ns[i])
  {
    seq(|ns|, i requires 0 <= i < |ns| => Decimal(ns[i]))
  }

  lemma {:induction false} DottedSplits(ns: seq<nat>)
    requires ns != []
    ensures Split(Dotted(ns)) == Numerals(ns)
  {
    var d := Decimal(ns[0]);
    DecimalIsPlain(ns[0]);
    if |ns| == 1 {
      SplitPlain(d, "");
    } else {
      SplitPlain(d, Dotted(ns[1..]));
      DottedSplits(ns[1..]);
      assert Numerals(ns) == [d] + Numerals(ns[1..]);
    }
  }

  lemma {:induction false} GatherSingles(parts: seq<string>, f: string -> seq<int>, ns: seq<nat>)
    requires |parts| == |ns| && forall i :: 0 <= i < |ns| ==> f(parts[i]) == [ns[i]]
    ensures Gather(parts, f) == ns
  {
    if ns != [] {
      var k := |ns| - 1;
      GatherSingles(parts[..k], f, ns[..k]);
      assert ns == ns[..k] + [ns[k]];
    }
  }

  lemma NumeralsReadBack(ns: seq<nat>)
    requires InRange(ns)
    ensures PartValues(Numerals(ns)) == ns
  {
    forall i | 0 <= i < |ns| ensures PartContribution(Numerals(ns)[i]) == [ns[i]] {
      assert ns[i] in ns;
      DecimalReadsBack(ns[i]);
    }
    GatherSingles(Numerals(ns), PartContribution, ns);
  }

  lemma {:induction false} DottedIsTrimmed(ns: seq<nat>)
    requires ns != []
    ensures Dotted(ns) != "" && IsDigit(Dotted(ns)[0]) && IsDigit(Dotted(ns)[|Dotted(ns)| - 1])
  {
    var d := Decimal(ns[0]);
    DecimalIsPlain(ns[0]);
    assert d[0] in d && d[|d| - 1] in d;
    if |ns| > 1 { DottedIsTrimmed(ns[1..]); }
  }

  /** A version printed as dotted numbers, with or without a leading v, reads back. */
  lemma PrintedVersionReadsBack(ns: seq<nat>)
    requires ns != [] && InRange(ns)
    ensures Values(Dotted(ns)) == ns && Values("v" + Dotted(ns)) == ns
  {
    var s := Dotted(ns);
    DottedIsTrimmed(ns);
    assert Trimmed(s);
    TrimmedIsFixed(s);
    DottedSplits(ns);
    NumeralsReadBack(ns);
    assert ("v" + s)[1..] == s;
    assert WithoutV(s) == s && WithoutV("v" + s) == s;
  }
}

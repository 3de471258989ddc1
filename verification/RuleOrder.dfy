/** Evaluation order of routing rules, carried by the names of the files that hold them.

    The agent sorts artifact files by name and both cores evaluate rules in that
    order, first match wins, so a numeric priority has to survive printing.
  */
module RuleOrder {
  import opened Text

  const RELAY_BASE: nat := 0
  const SCOPED_BASE: nat := 1000
  const GLOBAL_BASE: nat := 5000
  const SPEC_ROUTING_BASE: nat := 9000
  const STEP: nat := 10
  const MAX_INDEX: nat := 400

  datatype RuleArtifact = RuleArtifact(order: nat, slug: string, sourceTag: string, content: string)

  datatype DesiredArtifact = DesiredArtifact(
    agentHostID: int, coreType: string, revision: int, filename: string, sourceTag: string, content: string)

  function RelayRuleOrder(ordinal: nat): nat { RELAY_BASE + ordinal * STEP }

  function PolicyRuleOrder(scoped: bool, index: int): nat {
    var i := if index < 0 then 0 else if index > MAX_INDEX then MAX_INDEX else index;
    (if scoped then SCOPED_BASE else GLOBAL_BASE) + i * STEP
  }

  function Filename(order: nat, slug: string): string {
    "route-" + Padded4(order) + "-" + slug + ".json"
  }

  function Name(r: RuleArtifact): string { Filename(r.order, r.slug) }

  /** How names compare, for every pair of orders of at most four digits. */
  lemma FilenameOrder(o1: nat, s1: string, o2: nat, s2: string)
    requires o1 < 10000 && o2 < 10000
    ensures Less(Filename(o1, s1), Filename(o2, s2)) <==>
            o1 < o2 || (o1 == o2 && Less(s1 + ".json", s2 + ".json"))
  {
    FilenameParts(o1, s1);
    FilenameParts(o2, s2);
    var d1, d2, t1, t2 := Digits(o1, 4), Digits(o2, 4), s1 + ".json", s2 + ".json";
    LessPrefix("route-", d1 + ("-" + t1), d2 + ("-" + t2));
    LessSameLength(d1, d2, "-" + t1, "-" + t2);
    LessPrefix("-", t1, t2);
    FourDigitsOrder(o1, o2);
  }

  lemma FilenameParts(o: nat, s: string)
    requires o < 10000
    ensures Filename(o, s) == "route-" + (Digits(o, 4) + ("-" + (s + ".json")))
  {
    FourDigits(o);
    var d := Digits(o, 4);
    assert "route-" + d + "-" + s + ".json" == "route-" + (d + ("-" + (s + ".json")));
  }

  lemma FourDigits(o: nat)
    requires o < 10000
    ensures Padded4(o) == Digits(o, 4)
  {
    assert Pow10(4) == 10000;
    PaddedIsDigits(o, 4);
    if |Decimal(o)| == 4 { assert Zeros(0) + Decimal(o) == Decimal(o); }
  }

  lemma FourDigitsOrder(m: nat, n: nat)
    requires m < 10000 && n < 10000
    ensures Less(Digits(m, 4), Digits(n, 4)) <==> m < n
    ensures Digits(m, 4) == Digits(n, 4) <==> m == n
  {
    assert Pow10(4) == 10000;
    DigitsOrder(m, n, 4);
  }

  /** Beyond four digits the name order is no longer the numeric order: the
      number of relay 1000 is above the spec fallback's, its name below. */
  lemma WideOrdersMisSort()
    ensures RelayRuleOrder(1000) > SPEC_ROUTING_BASE
    ensures Less(Filename(RelayRuleOrder(1000), "a"), Filename(SPEC_ROUTING_BASE, "a"))
  {
    assert Decimal(1000) == Decimal(100) + "0" && Decimal(100) == Decimal(10) + "0" && Decimal(10) == "10";
    assert Padded4(10000) == Decimal(10000) == "10000";
    assert Decimal(900) == Decimal(90) + "0" && Decimal(90) == "90";
    assert Padded4(9000) == Decimal(9000) == "9000";
    var x, y := "0000-a.json", "000-a.json";
    assert Filename(10000, "a") == "route-" + ("1" + x);
    assert Filename(9000, "a") == "route-" + ("9" + y);
    LessPrefix("route-", "1" + x, "9" + y);
    LessSameLength("1", "9", x, y);
  }

  // ---------------------------------------------------------------- plans

  /** The rules of one host: slugs in priority order within each segment. */
  datatype Plan = Plan(relays: seq<RuleArtifact>, scoped: seq<RuleArtifact>,
                       globals: seq<RuleArtifact>, specs: seq<RuleArtifact>)

  /** Each rule carries the order the compiler gives it. */
  ghost predicate Numbered(p: Plan) {
    && (forall k :: 0 <= k < |p.relays| ==> p.relays[k].order == RelayRuleOrder(k))
    && (forall k :: 0 <= k < |p.scoped| ==> p.scoped[k].order == PolicyRuleOrder(true, k))
    && (forall k :: 0 <= k < |p.globals| ==> p.globals[k].order == PolicyRuleOrder(false, k))
    && (forall k :: 0 <= k < |p.specs| ==> p.specs[k].order == SPEC_ROUTING_BASE)
  }

  function Priority(p: Plan): seq<RuleArtifact> {
    p.relays + p.scoped + p.globals + p.specs
  }

  /** No segment outgrows the numbers set aside for it. */
  predicate Fits(p: Plan) {
    |p.relays| <= 100 && |p.scoped| <= MAX_INDEX && |p.globals| <= MAX_INDEX
  }

  ghost predicate OrdersIncrease(s: seq<RuleArtifact>) {
    forall i, j :: 0 <= i < j < |s| ==> s[i].order < s[j].order
  }

  /** The bound is exact: with all segments in use, numeric orders increase along
      the priority list iff every segment fits. */
  lemma OrdersIncreaseExactly(p: Plan, spec: RuleArtifact)
    requires Numbered(p) && p.specs == [spec]
    requires p.scoped != [] && p.globals != []
    ensures OrdersIncrease(Priority(p)) <==> Fits(p)
  {
    var s := Priority(p);
    var a, b, c := |p.relays|, |p.scoped|, |p.globals|;
    if !Fits(p) {
      if a > 100 {
        assert s[100] == p.relays[100] && s[a] == p.scoped[0];
      } else if b > MAX_INDEX {
        assert s[a + MAX_INDEX] == p.scoped[MAX_INDEX] && s[a + b] == p.globals[0];
      } else {
        assert s[a + b + MAX_INDEX] == p.globals[MAX_INDEX] && s[a + b + c] == spec;
      }
    }
  }

  ghost predicate NamesIncrease(s: seq<RuleArtifact>) {
    forall i, j :: 0 <= i < j < |s| ==> Less(Name(s[i]), Name(s[j]))
  }

  /** Spec fallback rules share one order, so they are listed by name. */
  ghost predicate SpecsByName(p: Plan) {
    forall i, j :: 0 <= i < j < |p.specs| ==> Less(p.specs[i].slug + ".json", p.specs[j].slug + ".json")
  }

  lemma NamesFollowPriority(p: Plan)
    requires Numbered(p) && Fits(p) && SpecsByName(p)
    ensures NamesIncrease(Priority(p))
  {
    var s := Priority(p);
    var a, b, c := |p.relays|, |p.scoped|, |p.globals|;
    forall i, j | 0 <= i < j < |s| ensures Less(Name(s[i]), Name(s[j])) {
      assert s[i].order < s[j].order || (i >= a + b + c && s[i] == p.specs[i - a - b - c] && s[j] == p.specs[j - a - b - c]);
      FilenameOrder(s[i].order, s[i].slug, s[j].order, s[j].slug);
    }
  }

  lemma SortedHeadsAgree(s: seq<RuleArtifact>, t: seq<RuleArtifact>)
    requires NamesIncrease(s) && NamesIncrease(t) && s != [] && t != []
    requires s[0] in t && t[0] in s
    ensures s[0] == t[0]
  {
    var i :| 0 <= i < |t| && t[i] == s[0];
    var j :| 0 <= j < |s| && s[j] == t[0];
    if i > 0 && j > 0 {
      LessTrichotomy(Name(s[0]), Name(t[0]));
    }
  }

  lemma TailMembers(s: seq<RuleArtifact>, x: RuleArtifact)
    requires NamesIncrease(s) && s != []
    ensures NamesIncrease(s[1..])
    ensures x in s[1..] <==> x in s && x != s[0]
  {
    var t := s[1..];
    forall i, j | 0 <= i < j < |t| ensures Less(Name(t[i]), Name(t[j])) {
      assert t[i] == s[i + 1] && t[j] == s[j + 1];
    }
    if x in t {
      var i :| 0 <= i < |t| && t[i] == x;
      assert s[i + 1] == x;
      LessTrichotomy(Name(s[0]), Name(s[0]));
    }
    assert s == [s[0]] + t;
  }

  /** Two lists in strict name order with the same members are one list. */
  lemma {:induction false} SortedIsUnique(s: seq<RuleArtifact>, t: seq<RuleArtifact>)
    requires NamesIncrease(s) && NamesIncrease(t)
    requires forall x :: x in s <==> x in t
    ensures s == t
  {
    assert s != [] ==> s[0] in t;
    assert t != [] ==> t[0] in s;
    if s != [] {
      SortedHeadsAgree(s, t);
      forall x ensures x in s[1..] <==> x in t[1..] {
        TailMembers(s, x);
        TailMembers(t, x);
      }
      TailMembers(s, s[0]);
      TailMembers(t, t[0]);
      SortedIsUnique(s[1..], t[1..]);
    }
  }

  /** Whatever order the files arrive in, sorting them by name restores the
      priority list: relay, scoped by index, global by index, spec fallback. */
  lemma SortingRestoresPriority(p: Plan, files: seq<RuleArtifact>)
    requires Numbered(p) && Fits(p) && SpecsByName(p)
    requires NamesIncrease(files) && multiset(files) == multiset(Priority(p))
    ensures files == Priority(p)
  {
    NamesFollowPriority(p);
    forall x ensures x in files <==> x in Priority(p) {
      assert x in files <==> x in multiset(files);
      assert x in Priority(p) <==> x in multiset(Priority(p));
    }
    SortedIsUnique(files, Priority(p));
  }

  function FirstMatch(rules: seq<RuleArtifact>, hit: RuleArtifact -> bool): Option<RuleArtifact> {
    if rules == [] then None else if hit(rules[0]) then Some(rules[0]) else FirstMatch(rules[1..], hit)
  }

  function OrElse<T>(a: Option<T>, b: Option<T>): Option<T> { if a.Some? then a else b }

  lemma {:induction false} FirstMatchConcat(a: seq<RuleArtifact>, b: seq<RuleArtifact>, hit: RuleArtifact -> bool)
    ensures FirstMatch(a + b, hit) == OrElse(FirstMatch(a, hit), FirstMatch(b, hit))
  {
    if a == [] {
      assert a + b == b;
    } else {
      assert (a + b)[1..] == a[1..] + b;
      FirstMatchConcat(a[1..], b, hit);
    }
  }

  /** First match over the sorted files decides by segment, then by index. */
  lemma FirstMatchByPriority(p: Plan, files: seq<RuleArtifact>, hit: RuleArtifact -> bool)
    requires Numbered(p) && Fits(p) && SpecsByName(p)
    requires NamesIncrease(files) && multiset(files) == multiset(Priority(p))
    ensures FirstMatch(files, hit) ==
            OrElse(FirstMatch(p.relays, hit), OrElse(FirstMatch(p.scoped, hit),
                   OrElse(FirstMatch(p.globals, hit), FirstMatch(p.specs, hit))))
  {
    SortingRestoresPriority(p, files);
    FirstMatchConcat(p.relays + p.scoped + p.globals, p.specs, hit);
    FirstMatchConcat(p.relays + p.scoped, p.globals, hit);
    FirstMatchConcat(p.relays, p.scoped, hit);
  }

  /** At the clamp the segments meet: scoped rule i is read before global rule j
      iff i is below the clamp, or j is not the first global, or their slugs
      happen to fall the right way. */
  lemma ScopedBeforeGlobalExactly(i: nat, s: string, j: nat, g: string)
    ensures Less(Filename(PolicyRuleOrder(true, i), s), Filename(PolicyRuleOrder(false, j), g)) <==>
            i < MAX_INDEX || j > 0 || Less(s + ".json", g + ".json")
  {
    FilenameOrder(PolicyRuleOrder(true, i), s, PolicyRuleOrder(false, j), g);
  }

  /** And a global rule beyond the clamp is read after a spec fallback whose tag
      sorts below "policy": the policy then never takes effect. */
  lemma GlobalBeforeSpecExactly(j: nat, g: string, tag: string)
    ensures Less(Filename(PolicyRuleOrder(false, j), g), Filename(SPEC_ROUTING_BASE, tag)) <==>
            j < MAX_INDEX || Less(g + ".json", tag + ".json")
  {
    FilenameOrder(PolicyRuleOrder(false, j), g, SPEC_ROUTING_BASE, tag);
  }

  // ---------------------------------------------------------------- storing

  /** The comparison handed to the library sort. */
  predicate Before(a: RuleArtifact, b: RuleArtifact) {
    a.order < b.order || (a.order == b.order && Less(a.slug, b.slug))
  }

  function Insert(x: RuleArtifact, s: seq<RuleArtifact>): seq<RuleArtifact> {
    if s == [] || Before(x, s[0]) then [x] + s else [s[0]] + Insert(x, s[1..])
  }

  /** Stands for sort.Slice, of which only sortedness and permutation are used. */
  function Sort(s: seq<RuleArtifact>): seq<RuleArtifact> {
    if s == [] then [] else Insert(s[0], Sort(s[1..]))
  }

  ghost predicate Ordered(s: seq<RuleArtifact>) {
    forall i, j :: 0 <= i < j < |s| ==> !Before(s[j], s[i])
  }

  lemma BeforeIsWeakOrder(a: RuleArtifact, b: RuleArtifact, c: RuleArtifact)
    ensures Before(a, b) ==> !Before(b, a)
    ensures !Before(b, a) && !Before(c, b) ==> !Before(c, a)
  {
    LessTrichotomy(a.slug, b.slug);
    LessTrichotomy(b.slug, c.slug);
    LessTrichotomy(a.slug, c.slug);
    if Less(c.slug, a.slug) && Less(a.slug, b.slug) { LessTransitive(c.slug, a.slug, b.slug); }
    if Less(b.slug, c.slug) && Less(c.slug, a.slug) { LessTransitive(b.slug, c.slug, a.slug); }
  }

  lemma {:induction false} InsertSorts(x: RuleArtifact, s: seq<RuleArtifact>)
    requires Ordered(s)
    ensures Ordered(Insert(x, s)) && multiset(Insert(x, s)) == multiset(s) + multiset{x}
  {
    if s == [] {
    } else if Before(x, s[0]) {
      forall j | 0 <= j < |s| ensures !Before(s[j], x) {
        BeforeIsWeakOrder(x, s[0], s[j]);
      }
    } else {
      assert s == [s[0]] + s[1..];
      InsertSorts(x, s[1..]);
      var t := Insert(x, s[1..]);
      forall j | 0 <= j < |t| ensures !Before(t[j], s[0]) {
        assert t[j] in multiset(t);
        assert t[j] == x || t[j] in s[1..];
      }
    }
  }

  lemma {:induction false} SortSorts(s: seq<RuleArtifact>)
    ensures Ordered(Sort(s)) && multiset(Sort(s)) == multiset(s)
    ensures |Sort(s)| == |s|
  {
    if s != [] {
      SortSorts(s[1..]);
      InsertSorts(s[0], Sort(s[1..]));
      assert s == [s[0]] + s[1..];
    }
  }

  function Desired(r: RuleArtifact, hostID: int, coreType: string, revision: int): DesiredArtifact {
    DesiredArtifact(hostID, coreType, revision, Name(r), r.sourceTag, r.content)
  }

  /** Every rule is stored exactly once, under its own name, in sorted order. */
  method RuleArtifactsFrom(items: seq<RuleArtifact>, hostID: int, coreType: string, revision: int)
    returns (out: seq<DesiredArtifact>)
    ensures |out| == |items| == |Sort(items)|
    ensures forall k :: 0 <= k < |out| ==> out[k] == Desired(Sort(items)[k], hostID, coreType, revision)
  {
    SortSorts(items);
    var rules := Sort(items);
    out := [];
    if |items| == 0 {
      assert rules == [];
      return;
    }
    for k := 0 to |rules|
      invariant |out| == k
      invariant forall i :: 0 <= i < k ==> out[i] == Desired(rules[i], hostID, coreType, revision)
    {
      out := out + [Desired(rules[k], hostID, coreType, revision)];
    }
  }

  /** The stored order is the name order except where one slug of equal order
      extends the other with text that sorts below the file suffix. */
  lemma StoredOrderIsNameOrder(a: RuleArtifact, b: RuleArtifact)
    requires a.order < 10000 && b.order < 10000 && Before(a, b)
    ensures Less(Name(a), Name(b)) <==>
            !(a.order == b.order && a.slug < b.slug && Less(b.slug[|a.slug|..] + ".json", ".json"))
  {
    FilenameOrder(a.order, a.slug, b.order, b.slug);
    if a.order == b.order {
      SuffixOrder(a.slug, b.slug, ".json");
    }
  }

  lemma {:induction false} SuffixOrder(a: string, b: string, x: string)
    requires Less(a, b) && x != ""
    ensures Less(a + x, b + x) <==> !(a < b && Less(b[|a|..] + x, x))
  {
    if a == "" {
      assert a + x == x && b[|a|..] == b;
      LessTrichotomy(x, b + x);
    } else {
      assert (a + x)[1..] == a[1..] + x && (b + x)[1..] == b[1..] + x;
      if a[0] == b[0] {
        SuffixOrder(a[1..], b[1..], x);
        assert a == [a[0]] + a[1..] && b == [b[0]] + b[1..];
        if a < b {
          assert b[1..][|a[1..]|..] == b[|a|..];
          assert a[1..] < b[1..];
        }
      }
    }
  }

  /** A pair of spec tags for which the stored order and the evaluation order differ. */
  lemma StoredOrderCanDiffer()
    ensures var a := RuleArtifact(9000, "a-routing", "", "");
            var b := RuleArtifact(9000, "a-routing-b-routing", "", "");
            Before(a, b) && Less(Name(b), Name(a))
  {
    var p, t := "a-routing", "-b-routing";
    assert p + "" == p && p + t == "a-routing-b-routing";
    LessPrefix(p, "", t);
    assert p + t + ".json" == p + (t + ".json");
    LessPrefix(p, t + ".json", ".json");
    FilenameOrder(9000, p + t, 9000, p);
  }

  // ---------------------------------------------------------------- match values

  const MAX_MATCH_VALUES: nat := 64

  function SplitComma(s: string): (parts: seq<string>)
    ensures |parts| > 0
  {
    if s == "" then [""]
    else if s[0] == ',' then [""] + SplitComma(s[1..])
    else var rest := SplitComma(s[1..]); [[s[0]] + rest[0]] + rest[1..]
  }

  function Collect(parts: seq<string>, out: seq<string>): seq<string> {
    if parts == [] || |out| >= MAX_MATCH_VALUES then out
    else
      var v := TrimSpace(parts[0]);
      Collect(parts[1..], if v == "" || v in out then out else out + [v])
  }

  /** Split, trim, drop blanks and repeats, keep the first 64. */
  method SplitMatchValues(raw: string) returns (out: seq<string>)
    ensures out == Collect(SplitComma(raw), [])
  {
    var parts := SplitComma(raw);
    out := [];
    var seen := {};
    var k := 0;
    while k < |parts|
      invariant 0 <= k <= |parts|
      invariant |out| < MAX_MATCH_VALUES
      invariant seen == set v | v in out
      invariant Collect(parts[k..], out) == Collect(parts, [])
    {
      var v := TrimSpace(parts[k]);
      assert parts[k..][1..] == parts[k + 1..];
      k := k + 1;
      if v == "" || v in seen {
        continue;
      }
      seen := seen + {v};
      out := out + [v];
      if |out| >= MAX_MATCH_VALUES {
        break;
      }
    }
  }

  /** A list of values as the splitter produces it. */
  ghost predicate Clean(vs: seq<string>) {
    && |vs| <= MAX_MATCH_VALUES
    && (forall k :: 0 <= k < |vs| ==> vs[k] != "" && Trimmed(vs[k]) && ',' !in vs[k])
    && (forall i, j :: 0 <= i < j < |vs| ==> vs[i] != vs[j])
  }

  lemma {:induction false} SplitHasNoComma(s: string)
    ensures forall k :: 0 <= k < |SplitComma(s)| ==> ',' !in SplitComma(s)[k]
  {
    if s != "" {
      SplitHasNoComma(s[1..]);
    }
  }

  function Next(out: seq<string>, v: string): seq<string> {
    if v == "" || v in out then out else out + [v]
  }

  lemma CollectStep(parts: seq<string>, out: seq<string>)
    requires parts != [] && |out| < MAX_MATCH_VALUES
    ensures Collect(parts, out) == Collect(parts[1..], Next(out, TrimSpace(parts[0])))
  {
  }

  lemma PieceHasNoComma(part: string)
    requires ',' !in part
    ensures Trimmed(TrimSpace(part)) && ',' !in TrimSpace(part)
  {
    TrimSpaceSound(part);
  }

  lemma NextIsClean(out: seq<string>, v: string)
    requires Clean(out) && |out| < MAX_MATCH_VALUES && Trimmed(v) && ',' !in v
    ensures Clean(Next(out, v)) && out <= Next(out, v)
  {
  }

  lemma {:induction false} CollectIsClean(parts: seq<string>, out: seq<string>)
    requires Clean(out)
    requires forall k :: 0 <= k < |parts| ==> ',' !in parts[k]
    ensures Clean(Collect(parts, out)) && out <= Collect(parts, out)
    decreases |parts|
  {
    if parts != [] && |out| < MAX_MATCH_VALUES {
      var v := TrimSpace(parts[0]);
      CollectStep(parts, out);
      PieceHasNoComma(parts[0]);
      NextIsClean(out, v);
      CollectIsClean(parts[1..], Next(out, v));
    }
  }

  /** Below the cap every non-blank piece is kept. */
  lemma {:induction false} CollectIsComplete(parts: seq<string>, out: seq<string>, k: nat)
    requires k < |parts| && |Collect(parts, out)| < MAX_MATCH_VALUES
    ensures TrimSpace(parts[k]) == "" || TrimSpace(parts[k]) in Collect(parts, out)
    decreases |parts|
  {
    if |out| < MAX_MATCH_VALUES {
      var v := TrimSpace(parts[0]);
      CollectStep(parts, out);
      if k > 0 {
        CollectIsComplete(parts[1..], Next(out, v), k - 1);
      } else {
        CollectExtends(parts[1..], Next(out, v));
        assert v != "" ==> v in Next(out, v);
      }
    }
  }

  ghost predicate FromParts(v: string, parts: seq<string>) {
    exists k :: 0 <= k < |parts| && v == TrimSpace(parts[k])
  }

  /** Nothing but pieces of the text is collected. */
  lemma {:induction false} CollectOnlyParts(parts: seq<string>, out: seq<string>, v: string)
    requires v in Collect(parts, out)
    ensures v in out || FromParts(v, parts)
    decreases |parts|
  {
    if parts != [] && |out| < MAX_MATCH_VALUES {
      var next := Next(out, TrimSpace(parts[0]));
      CollectStep(parts, out);
      CollectOnlyParts(parts[1..], next, v);
      if FromParts(v, parts[1..]) {
        var k :| 0 <= k < |parts[1..]| && v == TrimSpace(parts[1..][k]);
        assert parts[k + 1] == parts[1..][k];
      }
    }
  }

  lemma {:induction false} CollectExtends(parts: seq<string>, out: seq<string>)
    ensures forall v :: v in out ==> v in Collect(parts, out)
    decreases |parts|
  {
    if parts != [] && |out| < MAX_MATCH_VALUES {
      CollectStep(parts, out);
      CollectExtends(parts[1..], Next(out, TrimSpace(parts[0])));
    }
  }

  function Join(vs: seq<string>): string {
    if vs == [] then "" else if |vs| == 1 then vs[0] else vs[0] + "," + Join(vs[1..])
  }

  lemma {:induction false} SplitHead(v: string, rest: string)
    requires ',' !in v
    ensures SplitComma(v) == [v]
    ensures SplitComma(v + "," + rest) == [v] + SplitComma(rest)
  {
    if v == "" {
      assert v + "," + rest == "," + rest;
      assert (v + "," + rest)[1..] == rest;
    } else {
      assert v[0] in v && forall c :: c in v[1..] ==> c in v;
      assert [v[0]] + v[1..] == v;
      SplitHead(v[1..], rest);
      assert (v + "," + rest)[1..] == v[1..] + "," + rest;
    }
  }

  lemma {:induction false} SplitJoin(vs: seq<string>)
    requires vs != [] && forall k :: 0 <= k < |vs| ==> ',' !in vs[k]
    ensures SplitComma(Join(vs)) == vs
  {
    if |vs| == 1 {
      SplitHead(vs[0], "");
    } else {
      SplitJoin(vs[1..]);
      SplitHead(vs[0], Join(vs[1..]));
    }
  }

  lemma CleanAt(vs: seq<string>, k: nat)
    requires Clean(vs) && k < |vs|
    ensures vs[k] != "" && Trimmed(vs[k]) && vs[k] !in vs[..k]
  {
  }

  lemma CollectTakes(parts: seq<string>, out: seq<string>)
    requires parts != [] && |out| < MAX_MATCH_VALUES
    requires parts[0] != "" && Trimmed(parts[0]) && parts[0] !in out
    ensures Collect(parts, out) == Collect(parts[1..], out + [parts[0]])
  {
    TrimmedIsFixed(parts[0]);
  }

  lemma {:induction false} CollectKeepsClean(vs: seq<string>, k: nat)
    requires Clean(vs) && k <= |vs|
    ensures Collect(vs[k..], vs[..k]) == vs
    decreases |vs| - k
  {
    if k < |vs| && k < MAX_MATCH_VALUES {
      CleanAt(vs, k);
      CollectTakes(vs[k..], vs[..k]);
      assert vs[k..][1..] == vs[k + 1..] && vs[..k] + [vs[k]] == vs[..k + 1];
      CollectKeepsClean(vs, k + 1);
    } else {
      assert vs[..k] == vs;
    }
  }

  /** What comes out is clean, complete below the cap, and survives being stored
      as a comma-separated list and split again. */
  lemma SplitMatchValuesRoundTrip(raw: string)
    ensures var out := Collect(SplitComma(raw), []);
            && Clean(out) && (forall v :: v in out ==> FromParts(v, SplitComma(raw)))
            && (|out| < MAX_MATCH_VALUES ==>
                  forall k :: 0 <= k < |SplitComma(raw)| ==>
                    TrimSpace(SplitComma(raw)[k]) == "" || TrimSpace(SplitComma(raw)[k]) in out)
            && Collect(SplitComma(Join(out)), []) == out
  {
    SplitHasNoComma(raw);
    CollectIsClean(SplitComma(raw), []);
    var out := Collect(SplitComma(raw), []);
    forall v | v in out ensures FromParts(v, SplitComma(raw)) {
      CollectOnlyParts(SplitComma(raw), [], v);
    }
    forall k | |out| < MAX_MATCH_VALUES && 0 <= k < |SplitComma(raw)|
      ensures TrimSpace(SplitComma(raw)[k]) == "" || TrimSpace(SplitComma(raw)[k]) in out
    {
      CollectIsComplete(SplitComma(raw), [], k);
    }
    if out == [] {
      assert SplitComma("") == [""];
      assert TrimSpace("") == "";
      assert Collect([""], []) == Collect([], []);
    } else {
      SplitJoin(out);
      CollectKeepsClean(out, 0);
      assert out[0..] == out && out[..0] == [];
    }
  }
}

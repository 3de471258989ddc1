/** Which nodes a client gets: allowed types and per-client version requirements. */
module NodeFilter {
  import opened Text
  import opened Versions

  /** settings holds the text found at each dotted path; a missing path reads as "". */
  datatype Node = Node(kind: string, settings: map<string, string>)

  datatype Rule = Rule(path: string, allowed: map<string, string>, strict: bool)

  type Requirements = map<string, map<string, seq<Rule>>>

  function LowerChar(c: char): char {
    if 'A' <= c <= 'Z' then (c as int + 32) as char else c
  }

  function Lower(s: string): string {
    if s == "" then "" else [LowerChar(s[0])] + Lower(s[1..])
  }

  function Normal(s: string): string { Lower(TrimSpace(s)) }

  function ValueAt(node: Node, path: string): string {
    if path in node.settings then node.settings[path] else ""
  }

  /** The text found under a path: an unlisted or missing value passes unless the rule
      is strict; a listed one asks for a version, if it names one and the client does. */
  ghost predicate Satisfies(rule: Rule, node: Node, version: string) {
    var value := ValueAt(node, rule.path);
    rule.path == ""
    || (if value == "" || value !in rule.allowed then !rule.strict
        else
          var required := rule.allowed[value];
          required == "" || required == "0.0.0" || version == "" || !VersionBelow(version, required))
  }

  ghost predicate AllSatisfied(rules: seq<Rule>, node: Node, version: string) {
    forall r :: r in rules ==> Satisfies(r, node, version)
  }

  function RulesFor(reqs: Requirements, client: string, node: Node): seq<Rule> {
    var kind := Lower(node.kind);
    if client in reqs && kind in reqs[client] then reqs[client][kind] else []
  }

  /** What FilterNodes keeps. */
  ghost predicate Keeps(allowed: set<string>, reqs: Requirements, node: Node, client: string, version: string) {
    && node.kind != ""
    && (allowed != {} ==> Lower(node.kind) in allowed)
    && AllSatisfied(RulesFor(reqs, "*", node), node, version)
    && (Normal(client) != "" ==> AllSatisfied(RulesFor(reqs, Normal(client), node), node, version))
  }

  ghost function Kept(allowed: set<string>, reqs: Requirements, nodes: seq<Node>, client: string, version: string): seq<Node> {
    if nodes == [] then []
    else
      var n := |nodes| - 1;
      var front := Kept(allowed, reqs, nodes[..n], client, version);
      if Keeps(allowed, reqs, nodes[n], client, version) then front + [nodes[n]] else front
  }

  class BaseBuilder {
    var allowed: set<string>
    var requirements: Requirements

    constructor ()
      ensures allowed == {} && requirements == map[]
    {
      allowed, requirements := {}, map[];
    }

    method Allow(types: seq<string>)
      modifies this
      ensures allowed == old(allowed) + set t | t in types && Normal(t) != "" :: Normal(t)
      ensures requirements == old(requirements)
    {
      for i := 0 to |types|
        invariant requirements == old(requirements)
        invariant allowed == old(allowed) + set t | t in types[..i] && Normal(t) != "" :: Normal(t)
      {
        assert types[..i + 1] == types[..i] + [types[i]];
        var normalized := Normal(types[i]);
        if normalized != "" { allowed := allowed + {normalized}; }
      }
      assert types[..|types|] == types;
    }

    /** An unnamed client means every client; a rule without type, path or values is
        not recorded. */
    method AddRequirement(client: string, kind: string, path: string, values: map<string, string>, strict: bool)
      modifies this
      ensures allowed == old(allowed)
      ensures |values| == 0 || Normal(kind) == "" || TrimSpace(path) == "" ==> requirements == old(requirements)
      ensures |values| != 0 && Normal(kind) != "" && TrimSpace(path) != "" ==>
                exists dst :: NormalizedFrom(dst, values)
                  && requirements == Added(old(requirements), if Normal(client) == "" then "*" else Normal(client),
                                           Normal(kind), Rule(TrimSpace(path), dst, strict))
    {
      if |values| == 0 { return; }
      var clientKey := Normal(client);
      if clientKey == "" { clientKey := "*"; }
      var typeKey := Normal(kind);
      if typeKey == "" { return; }
      var dst := NormalizeAllowed(values);
      var rule := Rule(TrimSpace(path), dst, strict);
      if rule.path == "" { return; }
      Record(clientKey, typeKey, rule);
    }

    method Record(client: string, kind: string, rule: Rule)
      modifies this
      ensures allowed == old(allowed) && requirements == Added(old(requirements), client, kind, rule)
    {
      if client !in requirements { requirements := requirements[client := map[]]; }
      var rules := if kind in requirements[client] then requirements[client][kind] else [];
      requirements := requirements[client := requirements[client][kind := rules + [rule]]];
    }

    method FilterNodes(nodes: seq<Node>, client: string, version: string) returns (out: seq<Node>)
      ensures out == Kept(allowed, requirements, nodes, client, version)
    {
      out := [];
      for i := 0 to |nodes|
        invariant out == Kept(allowed, requirements, nodes[..i], client, version)
      {
        assert nodes[..i + 1][..i] == nodes[..i];
        var node := nodes[i];
        if node.kind == "" { continue; }
        if allowed != {} && Lower(node.kind) !in allowed { continue; }
        var ok := IsCompatible(node, client, version);
        if !ok { continue; }
        out := out + [node];
      }
      assert nodes[..|nodes|] == nodes;
    }

    method IsCompatible(node: Node, client: string, version: string) returns (ok: bool)
      ensures ok <==> AllSatisfied(RulesFor(requirements, "*", node), node, version)
                      && (Normal(client) != "" ==> AllSatisfied(RulesFor(requirements, Normal(client), node), node, version))
    {
      if |requirements| == 0 { return true; }
      ok := RequirementsSatisfied("*", node, version);
      if !ok { return; }
      var name := Normal(client);
      if name == "" { return true; }
      ok := RequirementsSatisfied(name, node, version);
    }

    method RequirementsSatisfied(clientKey: string, node: Node, version: string) returns (ok: bool)
      ensures ok <==> AllSatisfied(RulesFor(requirements, clientKey, node), node, version)
    {
      var rules := RulesFor(requirements, clientKey, node);
      for i := 0 to |rules|
        invariant AllSatisfied(rules[..i], node, version)
      {
        assert rules[..i + 1] == rules[..i] + [rules[i]];
        var m := Matches(rules[i], node, version);
        if !m { return false; }
      }
      assert rules[..|rules|] == rules;
      ok := true;
    }
  }

  function Added(reqs: Requirements, client: string, kind: string, rule: Rule): Requirements {
    var kinds := if client in reqs then reqs[client] else map[];
    reqs[client := kinds[kind := (if kind in kinds then kinds[kind] else []) + [rule]]]
  }

  method Matches(rule: Rule, node: Node, version: string) returns (ok: bool)
    ensures ok <==> Satisfies(rule, node, version)
  {
    if rule.path == "" { return true; }
    var value := ValueAt(node, rule.path);
    if value == "" { return !rule.strict; }
    if value !in rule.allowed { return !rule.strict; }
    var required := rule.allowed[value];
    if required == "" || required == "0.0.0" || version == "" { return true; }
    var less := VersionLess(version, required);
    ok := !less;
  }

  /** Keys and values trimmed, blank keys dropped; of keys that trim to the same text
      one wins. */
  ghost predicate NormalizedFrom(dst: map<string, string>, src: map<string, string>) {
    && (forall k :: k in src && TrimSpace(k) != "" ==> TrimSpace(k) in dst)
    && (forall d :: d in dst ==> d != "" && exists k :: k in src && TrimSpace(k) == d && dst[d] == TrimSpace(src[k]))
  }

  method NormalizeAllowed(src: map<string, string>) returns (dst: map<string, string>)
    ensures NormalizedFrom(dst, src)
  {
    dst := map[];
    var left := src.Keys;
    while left != {}
      invariant left <= src.Keys
      invariant forall k :: k in src && k !in left && TrimSpace(k) != "" ==> TrimSpace(k) in dst
      invariant forall d :: d in dst ==> d != "" && exists k :: k in src && TrimSpace(k) == d && dst[d] == TrimSpace(src[k])
      decreases left
    {
      var k :| k in left;
      left := left - {k};
      var key := TrimSpace(k);
      if key != "" { dst := dst[key := TrimSpace(src[k])]; }
    }
  }

  // ---------------------------------------------------------------- what filtering means

  ghost predicate Subsequence(a: seq<Node>, b: seq<Node>)
    decreases |b|
  {
    if a == [] then true
    else if b == [] then false
    else
      Subsequence(a, b[..|b| - 1]) || (a[|a| - 1] == b[|b| - 1] && Subsequence(a[..|a| - 1], b[..|b| - 1]))
  }

  lemma SubsequenceGrows(a: seq<Node>, b: seq<Node>, x: Node)
    requires Subsequence(a, b)
    ensures Subsequence(a, b + [x]) && Subsequence(a + [x], b + [x])
  {
    assert (b + [x])[..|b|] == b && (a + [x])[..|a|] == a;
  }

  lemma KeptAppend(allowed: set<string>, reqs: Requirements, nodes: seq<Node>, x: Node, client: string, version: string)
    ensures Kept(allowed, reqs, nodes + [x], client, version)
            == if Keeps(allowed, reqs, x, client, version) then Kept(allowed, reqs, nodes, client, version) + [x]
               else Kept(allowed, reqs, nodes, client, version)
  {
    assert (nodes + [x])[..|nodes|] == nodes;
  }

  /** Filtering keeps order and adds nothing. */
  lemma {:induction false} KeptIsSubsequence(allowed: set<string>, reqs: Requirements, nodes: seq<Node>, client: string, version: string)
    ensures Subsequence(Kept(allowed, reqs, nodes, client, version), nodes)
    ensures forall n :: n in Kept(allowed, reqs, nodes, client, version)
                        <==> n in nodes && Keeps(allowed, reqs, n, client, version)
  {
    if nodes != [] {
      var k := |nodes| - 1;
      KeptIsSubsequence(allowed, reqs, nodes[..k], client, version);
      SubsequenceGrows(Kept(allowed, reqs, nodes[..k], client, version), nodes[..k], nodes[k]);
      assert nodes == nodes[..k] + [nodes[k]];
    }
  }

  lemma {:induction false} FilteringTwice(allowed: set<string>, reqs: Requirements, nodes: seq<Node>, client: string, version: string)
    ensures var out := Kept(allowed, reqs, nodes, client, version);
            Kept(allowed, reqs, out, client, version) == out
  {
    if nodes != [] {
      var k := |nodes| - 1;
      FilteringTwice(allowed, reqs, nodes[..k], client, version);
      KeptAppend(allowed, reqs, Kept(allowed, reqs, nodes[..k], client, version), nodes[k], client, version);
    }
  }

  /** A named version that is not below another, named or not, satisfies every rule
      that one satisfies; naming none satisfies all of them. */
  lemma RaisingKeepsRules(rules: seq<Rule>, node: Node, lower: string, higher: string)
    requires higher == "" || (lower != "" && !VersionBelow(higher, lower))
    requires AllSatisfied(rules, node, lower)
    ensures AllSatisfied(rules, node, higher)
  {
    forall r | r in rules ensures Satisfies(r, node, higher) {
      assert Satisfies(r, node, lower);
      var value := ValueAt(node, r.path);
      if value in r.allowed && higher != "" && !VersionBelow(lower, r.allowed[value]) {
        NotBelowTransitive(Values(r.allowed[value]), Values(lower), Values(higher));
      }
    }
  }

  /** Raising the client version only adds nodes, in place. */
  lemma {:induction false} RaisingOnlyAdds(allowed: set<string>, reqs: Requirements, nodes: seq<Node>, client: string, lower: string, higher: string)
    requires higher == "" || (lower != "" && !VersionBelow(higher, lower))
    ensures Subsequence(Kept(allowed, reqs, nodes, client, lower), Kept(allowed, reqs, nodes, client, higher))
  {
    if nodes != [] {
      var k := |nodes| - 1;
      var node := nodes[k];
      RaisingOnlyAdds(allowed, reqs, nodes[..k], client, lower, higher);
      var a, b := Kept(allowed, reqs, nodes[..k], client, lower), Kept(allowed, reqs, nodes[..k], client, higher);
      SubsequenceGrows(a, b, node);
      if Keeps(allowed, reqs, node, client, lower) {
        RaisingKeepsRules(RulesFor(reqs, "*", node), node, lower, higher);
        if Normal(client) != "" { RaisingKeepsRules(RulesFor(reqs, Normal(client), node), node, lower, higher); }
        assert Keeps(allowed, reqs, node, client, higher);
      }
    }
  }

  /** Naming a version where none was named can remove nodes: the versionless client
      passes every version test. */
  lemma NamingAVersionCanRemove(kind: string, path: string, value: string, required: string, version: string)
    requires kind != "" && path != "" && value != "" && required != "" && required != "0.0.0"
    requires version != "" && VersionBelow(version, required)
    ensures var node := Node(kind, map[path := value]);
            var reqs := map["*" := map[Lower(kind) := [Rule(path, map[value := required], true)]]];
            && Kept({}, reqs, [node], "", "") == [node]
            && Kept({}, reqs, [node], "", version) == []
  {
    var node := Node(kind, map[path := value]);
    var rule := Rule(path, map[value := required], true);
    var reqs := map["*" := map[Lower(kind) := [rule]]];
    assert RulesFor(reqs, "*", node) == [rule];
    assert TrimSpace("") == "" && Normal("") == "";
    assert Satisfies(rule, node, "") && !Satisfies(rule, node, version);
    assert rule in RulesFor(reqs, "*", node);
    assert [node][..0] == [];
    assert Kept({}, reqs, [], "", "") == [] && Kept({}, reqs, [], "", version) == [];
    assert Keeps({}, reqs, node, "", "") && !Keeps({}, reqs, node, "", version);
  }
}

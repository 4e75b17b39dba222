/** Validation of a guardrails configuration (go/middleware/guardrails/facade.go). */
module GuardrailsConfig {
  import opened Guardrails

  datatype Validation = Valid(config: Config) | Invalid

  /** How the code recognises a rule it has seen: the three names joined by NUL. */
  function RuleKey(r: Prerequisite): string {
    r.tool + ['\0'] + r.requires_ + ['\0'] + r.matchArg
  }

  ghost predicate ToolsOk(names: seq<string>) {
    && names != [] && (forall i :: 0 <= i < |names| ==> names[i] != "")
    && (forall i, j :: 0 <= i < j < |names| ==> names[i] != names[j])
  }

  predicate RuleOk(names: seq<string>, r: Prerequisite) {
    r.tool in names && r.requires_ in names && r.tool != r.requires_
  }

  ghost predicate RulesOk(names: seq<string>, rules: seq<Prerequisite>) {
    && (forall i :: 0 <= i < |rules| ==> RuleOk(names, rules[i]))
    && (forall i, j :: 0 <= i < j < |rules| ==> RuleKey(rules[i]) != RuleKey(rules[j]))
  }

  /** The configuration with its defaults filled in. */
  function Normalized(c: Config): Config {
    c.(maxPrereqViolations := if c.maxPrereqViolations == 0 then 2 else c.maxPrereqViolations,
       stepNudgeTier := if c.stepNudgeTier == 0 then 1 else c.stepNudgeTier)
  }

  ghost predicate Acceptable(c: Config) {
    && c.version == 1 && ToolsOk(c.toolNames)
    && (c.terminalTool == "" || c.terminalTool in c.toolNames)
    && (forall i :: 0 <= i < |c.requiredSteps| ==> c.requiredSteps[i] in c.toolNames)
    && RulesOk(c.toolNames, c.prerequisites)
    && c.maxPrereqViolations >= 0 && 0 <= c.stepNudgeTier <= 3
  }

  method CheckTools(names: seq<string>) returns (ok: bool, tools: set<string>)
    ensures ok <==> ToolsOk(names)
    ensures ok ==> forall t :: t in tools <==> t in names
  {
    tools := {};
    if |names| == 0 { return false, tools; }
    for i := 0 to |names|
      invariant forall t :: t in tools <==> t in names[..i]
      invariant forall k :: 0 <= k < i ==> names[k] != ""
      invariant forall k, j :: 0 <= k < j < i ==> names[k] != names[j]
    {
      if names[i] == "" || names[i] in tools {
        if names[i] in tools {
          assert names[i] in names[..i];
        }
        return false, tools;
      }
      tools := tools + {names[i]};
    }
    assert names[..|names|] == names;
    return true, tools;
  }

  method CheckRules(names: seq<string>, tools: set<string>, rules: seq<Prerequisite>) returns (ok: bool)
    requires forall t :: t in tools <==> t in names
    ensures ok <==> RulesOk(names, rules)
  {
    var seen: set<string> := {};
    for i := 0 to |rules|
      invariant forall k :: 0 <= k < i ==> RuleOk(names, rules[k]) && RuleKey(rules[k]) in seen
      invariant forall key :: key in seen ==> exists k :: 0 <= k < i && RuleKey(rules[k]) == key
      invariant forall k, j :: 0 <= k < j < i ==> RuleKey(rules[k]) != RuleKey(rules[j])
    {
      var rule := rules[i];
      if rule.tool !in tools || rule.requires_ !in tools || rule.tool == rule.requires_ {
        assert !RuleOk(names, rules[i]);
        return false;
      }
      if RuleKey(rule) in seen { return false; }
      seen := seen + {RuleKey(rule)};
    }
    return true;
  }

  /** A configuration is accepted exactly when it is acceptable, and then with its defaults
      filled in and nothing else changed. */
  method ValidateConfig(c: Config) returns (r: Validation)
    ensures r.Valid? <==> Acceptable(c)
    ensures r.Valid? ==>
              r.config == Normalized(c) && r.config.maxPrereqViolations >= 1 && 1 <= r.config.stepNudgeTier <= 3
    ensures r.Valid? ==>
              && r.config.maxPrereqViolations == (if c.maxPrereqViolations == 0 then 2 else c.maxPrereqViolations)
              && r.config.stepNudgeTier == (if c.stepNudgeTier == 0 then 1 else c.stepNudgeTier)
              && r.config == c.(maxPrereqViolations := r.config.maxPrereqViolations,
                                stepNudgeTier := r.config.stepNudgeTier)
  {
    if c.version != 1 { return Invalid; }
    var ok, tools := CheckTools(c.toolNames);
    if !ok { return Invalid; }
    if c.terminalTool != "" && c.terminalTool !in tools { return Invalid; }
    for i := 0 to |c.requiredSteps|
      invariant forall k :: 0 <= k < i ==> c.requiredSteps[k] in c.toolNames
    {
      if c.requiredSteps[i] !in tools { return Invalid; }
    }
    ok := CheckRules(c.toolNames, tools, c.prerequisites);
    if !ok { return Invalid; }
    var config := c;
    if config.maxPrereqViolations == 0 { config := config.(maxPrereqViolations := 2); }
    if config.maxPrereqViolations < 1 { return Invalid; }
    if config.stepNudgeTier == 0 { config := config.(stepNudgeTier := 1); }
    if config.stepNudgeTier < 1 || config.stepNudgeTier > 3 { return Invalid; }
    return Valid(config);
  }

  // ---- Keys and rules ----

  lemma SplitUnique(x: string, u: string, y: string, v: string)
    requires '\0' !in x && '\0' !in y && x + ['\0'] + u == y + ['\0'] + v
    ensures x == y && u == v
  {
    var s := x + ['\0'] + u;
    assert s[|x|] == '\0' && s[|y|] == '\0';
    assert forall i :: 0 <= i < |x| ==> s[i] == x[i];
    assert forall i :: 0 <= i < |y| ==> s[i] == y[i];
    assert |x| == |y|;
    assert x == s[..|x|] && y == s[..|y|] && u == s[|x| + 1..] && v == s[|y| + 1..];
  }

  /** Names without NUL make the keys of two rules equal only if the rules are. */
  lemma KeysTellRulesApart(a: Prerequisite, b: Prerequisite)
    requires '\0' !in a.tool && '\0' !in a.requires_ && '\0' !in b.tool && '\0' !in b.requires_
    ensures RuleKey(a) == RuleKey(b) <==> a == b
  {
    if RuleKey(a) == RuleKey(b) {
      assert RuleKey(a) == a.tool + ['\0'] + (a.requires_ + ['\0'] + a.matchArg);
      assert RuleKey(b) == b.tool + ['\0'] + (b.requires_ + ['\0'] + b.matchArg);
      SplitUnique(a.tool, a.requires_ + ['\0'] + a.matchArg, b.tool, b.requires_ + ['\0'] + b.matchArg);
      SplitUnique(a.requires_, a.matchArg, b.requires_, b.matchArg);
    }
  }

  predicate NoNul(r: Prerequisite) {
    '\0' !in r.tool && '\0' !in r.requires_ && '\0' !in r.matchArg
  }

  /** The key of such a rule has NUL in two places only. */
  lemma TwoNuls(r: Prerequisite, i: nat)
    requires NoNul(r) && i < |RuleKey(r)|
    ensures RuleKey(r)[i] == '\0' <==> i == |r.tool| || i == |r.tool| + 1 + |r.requires_|
  {
    var n, m := |r.tool|, |r.tool| + 1 + |r.requires_|;
    if i < n { assert RuleKey(r)[i] == r.tool[i]; }
    else if n < i < m { assert RuleKey(r)[i] == r.requires_[i - n - 1]; }
    else if m < i { assert RuleKey(r)[i] == r.matchArg[i - m - 1]; }
  }

  lemma KeyParts(r: Prerequisite)
    ensures var k, n, m := RuleKey(r), |r.tool|, |r.tool| + 1 + |r.requires_|;
            && m < |k| && k[n] == '\0' && k[m] == '\0'
            && k[..n] == r.tool && k[n + 1..m] == r.requires_ && k[m + 1..] == r.matchArg
  {
  }

  lemma OnlyRuleOfKey(r: Prerequisite, other: Prerequisite)
    requires NoNul(r) && RuleKey(other) == RuleKey(r)
    ensures other == r
  {
    KeyParts(r);
    KeyParts(other);
    TwoNuls(r, |other.tool|);
    TwoNuls(r, |other.tool| + 1 + |other.requires_|);
  }

  /** Where a NUL in a field leaves room for another rule with the same key. */
  lemma OtherRuleOfKey(r: Prerequisite) returns (other: Prerequisite)
    requires !NoNul(r)
    ensures other != r && RuleKey(other) == RuleKey(r)
  {
    if '\0' in r.tool {
      var i :| 0 <= i < |r.tool| && r.tool[i] == '\0';
      var a, b := r.tool[..i], r.tool[i + 1..];
      assert r.tool == a + ['\0'] + b;
      other := Prerequisite(a, b, r.requires_ + ['\0'] + r.matchArg);
    } else if '\0' in r.requires_ {
      var i :| 0 <= i < |r.requires_| && r.requires_[i] == '\0';
      var a, b := r.requires_[..i], r.requires_[i + 1..];
      assert r.requires_ == a + ['\0'] + b;
      other := Prerequisite(r.tool, a, b + ['\0'] + r.matchArg);
    } else {
      var i :| 0 <= i < |r.matchArg| && r.matchArg[i] == '\0';
      var a, b := r.matchArg[..i], r.matchArg[i + 1..];
      assert r.matchArg == a + ['\0'] + b;
      other := Prerequisite(r.tool + ['\0'] + r.requires_, a, b);
    }
  }

  /** A key stands for one rule only exactly when no field of the rule has a NUL. */
  lemma KeyUniqueExactly(r: Prerequisite)
    ensures (forall other :: RuleKey(other) == RuleKey(r) ==> other == r) <==> NoNul(r)
  {
    if NoNul(r) {
      forall other | RuleKey(other) == RuleKey(r) ensures other == r { OnlyRuleOfKey(r, other); }
    } else {
      var other := OtherRuleOfKey(r);
    }
  }

  /** With tool names free of NUL, exactly the repeated rules are refused. */
  lemma RepeatsExactly(names: seq<string>, rules: seq<Prerequisite>)
    requires forall i :: 0 <= i < |names| ==> '\0' !in names[i]
    ensures RulesOk(names, rules) <==>
            && (forall i :: 0 <= i < |rules| ==> RuleOk(names, rules[i]))
            && (forall i, j :: 0 <= i < j < |rules| ==> rules[i] != rules[j])
  {
    if forall i :: 0 <= i < |rules| ==> RuleOk(names, rules[i]) {
      forall i, j | 0 <= i < j < |rules| ensures RuleKey(rules[i]) == RuleKey(rules[j]) <==> rules[i] == rules[j] {
        assert RuleOk(names, rules[i]) && RuleOk(names, rules[j]);
        KeysTellRulesApart(rules[i], rules[j]);
      }
    }
  }

  /** A configuration that is refused although its two rules differ and each alone is fine. */
  lemma DifferentRulesRefused(c: Config, r1: Prerequisite, r2: Prerequisite)
    requires c == Config(1, ["a\0b", "c", "a", "b\0c"], [], "", [r1, r2], 0, 0)
    requires r1 == Prerequisite("a\0b", "c", "") && r2 == Prerequisite("a", "b\0c", "")
    ensures r1 != r2 && !Acceptable(c)
    ensures Acceptable(c.(prerequisites := [r1])) && Acceptable(c.(prerequisites := [r2]))
  {
    assert |r1.tool| == 3 && |r2.tool| == 1;
    assert RuleKey(r1) == "a\0b\0c\0" && RuleKey(r2) == "a\0b\0c\0";
    var rules := [r1, r2];
    assert RuleKey(rules[0]) == RuleKey(rules[1]);
    assert c.toolNames[0] == r1.tool && c.toolNames[1] == r1.requires_;
    assert c.toolNames[2] == r2.tool && c.toolNames[3] == r2.requires_;
    assert |c.toolNames[0]| == 3 && |c.toolNames[1]| == 1 && |c.toolNames[2]| == 1 && |c.toolNames[3]| == 3;
    assert c.toolNames[0][0] == 'a' && c.toolNames[3][0] == 'b' && c.toolNames[1][0] == 'c' && c.toolNames[2][0] == 'a';
  }

  // ---- The facade of a configuration ----

  /** A facade exists exactly for an acceptable configuration, with the defaults filled in
      and every session at its start. */
  method NewGuardrails(c: Config) returns (g: Facade?)
    ensures g != null <==> Acceptable(c)
    ensures g != null ==>
              fresh(g) && g.config == Normalized(c) && forall session :: g.ViewOf(session) == View({}, [], 0)
  {
    var v := ValidateConfig(c);
    if v.Invalid? { return null; }
    g := new Facade(v.config);
  }
}

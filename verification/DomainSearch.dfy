/**
  Which group routes a domain. The program answers from a trie rebuilt on every change,
  then from a list of glob rules, then from the regex rules; the meaning is a flat rule
  list read in routing order. `SearchDomainExplain` is proved to answer `FlatVerdict`.
 */
module DomainSearch {
  import opened Text
  import Trie

  datatype RuleType = DomainRule | NamespaceRule | WildcardRule | RegExRule | SubnetRule | Subnet6Rule

  datatype Rule = Rule(kind: RuleType, text: string, enabled: bool)

  datatype Group = Group(running: bool, enable: bool, rules: seq<Rule>)
  {
    predicate On() { running && enable }
  }

  /** An enabled rule of a group that is on, with the group's place in routing order. */
  datatype Active = Active(kind: RuleType, text: string, group: nat)

  datatype Why = Exact | Namespace | Wildcard | Regex

  datatype Verdict = Verdict(group: nat, why: Why)

  // ---- The flat meaning ----

  function RulesOf(rules: seq<Rule>, group: nat): seq<Active>
  {
    if rules == [] then []
    else
      var r := rules[|rules| - 1];
      RulesOf(rules[..|rules| - 1], group) + if r.enabled then [Active(r.kind, r.text, group)] else []
  }

  /** All active rules in routing order. */
  function ActiveRules(groups: seq<Group>): seq<Active>
  {
    if groups == [] then []
    else
      var n := |groups| - 1;
      ActiveRules(groups[..n]) + if groups[n].On() then RulesOf(groups[n].rules, n) else []
  }

  predicate HasGlob(text: string) { '*' in text || '?' in text }

  /** A wildcard rule without glob characters acts as a namespace. */
  predicate ActsAsNamespace(a: Active)
  {
    a.kind == NamespaceRule || (a.kind == WildcardRule && !HasGlob(a.text))
  }

  predicate ActsAsGlob(a: Active) { a.kind == WildcardRule && HasGlob(a.text) }

  /** `Rule.IsMatch` for a namespace: the name itself, or it ends with a dot and the rule. */
  predicate InNamespace(rule: string, domain: string)
  {
    || domain == rule
    || (|domain| >= |rule| + 1
        && domain[|domain| - |rule| - 1] == '.' && domain[|domain| - |rule|..] == rule)
  }

  function First(rules: seq<Active>, p: Active -> bool): (i: Option<nat>)
    ensures i.None? ==> forall j | 0 <= j < |rules| :: !p(rules[j])
    ensures i.Some? ==> i.value < |rules| && p(rules[i.value]) && forall j | 0 <= j < i.value :: !p(rules[j])
  {
    if rules == [] then None
    else
      var n := |rules| - 1;
      var before := First(rules[..n], p);
      if before.Some? then before else if p(rules[n]) then Some(n) else None
  }

  predicate IsNamespaceOf(a: Active, domain: string) { ActsAsNamespace(a) && InNamespace(a.text, domain) }

  /** Rule `i` has the longest matching namespace, and is the first to have it. */
  ghost predicate IsLongest(rules: seq<Active>, domain: string, i: nat)
  {
    && i < |rules| && IsNamespaceOf(rules[i], domain)
    && forall j | 0 <= j < |rules| && IsNamespaceOf(rules[j], domain) ::
         |rules[j].text| < |rules[i].text| || (|rules[j].text| == |rules[i].text| && i <= j)
  }

  /** First a strict rule for the name, else the longest namespace, else the first glob,
      else the first regex. */
  ghost predicate FlatVerdict(rules: seq<Active>, domain: string, glob: (string, string) -> bool,
                              regex: (string, string) -> bool, out: Option<Verdict>)
  {
    var exact := First(rules, (a: Active) => a.kind == DomainRule && a.text == domain);
    if exact.Some? then out == Some(Verdict(rules[exact.value].group, Exact))
    else if exists i: nat :: IsLongest(rules, domain, i) then
      exists i: nat :: IsLongest(rules, domain, i) && out == Some(Verdict(rules[i].group, Namespace))
    else
      var byGlob := First(rules, (a: Active) => ActsAsGlob(a) && glob(a.text, domain));
      if byGlob.Some? then out == Some(Verdict(rules[byGlob.value].group, Wildcard))
      else
        var byRegex := First(rules, (a: Active) => a.kind == RegExRule && regex(a.text, domain));
        if byRegex.Some? then out == Some(Verdict(rules[byRegex.value].group, Regex)) else out == None
  }

  /** The flat rule list determines the verdict. */
  lemma FlatVerdictIsUnique(rules: seq<Active>, domain: string, glob: (string, string) -> bool,
                            regex: (string, string) -> bool, a: Option<Verdict>, b: Option<Verdict>)
    requires FlatVerdict(rules, domain, glob, regex, a) && FlatVerdict(rules, domain, glob, regex, b)
    ensures a == b
  {
    forall i: nat, j: nat | IsLongest(rules, domain, i) && IsLongest(rules, domain, j)
      ensures i == j
    {
    }
  }

  // ---- The verdict in terms of groups and rules ----

  /** The rule counts: its group runs and is enabled, and so is the rule. */
  ghost predicate Counts(groups: seq<Group>, g: nat, r: nat)
  {
    && g < |groups| && r < |groups[g].rules|
    && groups[g].running && groups[g].enable && groups[g].rules[r].enabled
  }

  /** Routing order: by group, then by rule. */
  predicate Earlier(g: nat, r: nat, h: nat, s: nat) { g < h || (g == h && r < s) }

  /** The first rule that counts and has the property. */
  ghost predicate FirstRule(groups: seq<Group>, p: Rule -> bool, g: nat, r: nat)
  {
    && Counts(groups, g, r) && p(groups[g].rules[r])
    && forall h: nat, s: nat | Counts(groups, h, s) && p(groups[h].rules[s]) :: !Earlier(h, s, g, r)
  }

  ghost predicate SomeRule(groups: seq<Group>, p: Rule -> bool)
  {
    exists g: nat, r: nat :: Counts(groups, g, r) && p(groups[g].rules[r])
  }

  /** The rule names the domain and everything below it. */
  ghost predicate CoversDomain(rule: Rule, domain: string)
  {
    && (rule.kind == NamespaceRule || (rule.kind == WildcardRule && '*' !in rule.text && '?' !in rule.text))
    && (domain == rule.text || exists front :: domain == front + "." + rule.text)
  }

  /** No rule that counts and covers the domain is longer, or as long and earlier. */
  ghost predicate LongestRule(groups: seq<Group>, domain: string, g: nat, r: nat)
  {
    && Counts(groups, g, r) && CoversDomain(groups[g].rules[r], domain)
    && forall h: nat, s: nat | Counts(groups, h, s) && CoversDomain(groups[h].rules[s], domain) ::
         var own, other := |groups[g].rules[r].text|, |groups[h].rules[s].text|;
         other < own || (other == own && !Earlier(h, s, g, r))
  }

  predicate NamesDomain(rule: Rule, domain: string) { rule.kind == DomainRule && rule.text == domain }

  predicate GlobMatches(rule: Rule, domain: string, glob: (string, string) -> bool)
  {
    rule.kind == WildcardRule && ('*' in rule.text || '?' in rule.text) && glob(rule.text, domain)
  }

  predicate RegexMatches(rule: Rule, domain: string, regex: (string, string) -> bool)
  {
    rule.kind == RegExRule && regex(rule.text, domain)
  }

  /** The group of the first rule that names the domain; without one that of the longest that
      covers it; without one that of the first glob, and at last of the first regex. */
  ghost predicate IsVerdict(groups: seq<Group>, domain: string, glob: (string, string) -> bool,
                            regex: (string, string) -> bool, out: Option<Verdict>)
  {
    var named := (rule: Rule) => NamesDomain(rule, domain);
    var globbed := (rule: Rule) => GlobMatches(rule, domain, glob);
    var regexed := (rule: Rule) => RegexMatches(rule, domain, regex);
    if SomeRule(groups, named) then
      exists g: nat, r: nat :: FirstRule(groups, named, g, r) && out == Some(Verdict(g, Exact))
    else if exists g: nat, r: nat :: LongestRule(groups, domain, g, r) then
      exists g: nat, r: nat :: LongestRule(groups, domain, g, r) && out == Some(Verdict(g, Namespace))
    else if SomeRule(groups, globbed) then
      exists g: nat, r: nat :: FirstRule(groups, globbed, g, r) && out == Some(Verdict(g, Wildcard))
    else if SomeRule(groups, regexed) then
      exists g: nat, r: nat :: FirstRule(groups, regexed, g, r) && out == Some(Verdict(g, Regex))
    else out == None
  }

  /** Where the active rules come from, in the same order. */
  datatype Spot = Spot(group: nat, rule: nat)

  function SpotsOf(rules: seq<Rule>, group: nat): seq<Spot>
  {
    if rules == [] then []
    else
      var n := |rules| - 1;
      SpotsOf(rules[..n], group) + if rules[n].enabled then [Spot(group, n)] else []
  }

  function Spots(groups: seq<Group>): seq<Spot>
  {
    if groups == [] then []
    else
      var n := |groups| - 1;
      Spots(groups[..n]) + if groups[n].running && groups[n].enable then SpotsOf(groups[n].rules, n) else []
  }

  ghost predicate Ordered(spots: seq<Spot>)
  {
    forall i, j | 0 <= i < j < |spots| :: Earlier(spots[i].group, spots[i].rule, spots[j].group, spots[j].rule)
  }

  ghost predicate IsSpotOf(rules: seq<Rule>, group: nat, spot: Spot, a: Active)
  {
    && spot.group == group && spot.rule < |rules| && rules[spot.rule].enabled
    && a == Active(rules[spot.rule].kind, rules[spot.rule].text, group)
  }

  lemma {:induction false} SpotsOfRules(rules: seq<Rule>, group: nat)
    ensures |SpotsOf(rules, group)| == |RulesOf(rules, group)| && Ordered(SpotsOf(rules, group))
    ensures forall i | 0 <= i < |SpotsOf(rules, group)| ::
              IsSpotOf(rules, group, SpotsOf(rules, group)[i], RulesOf(rules, group)[i])
    ensures forall r | 0 <= r < |rules| && rules[r].enabled :: Spot(group, r) in SpotsOf(rules, group)
  {
    if rules != [] {
      var n := |rules| - 1;
      SpotsOfRules(rules[..n], group);
      forall r | 0 <= r < n && rules[r].enabled
        ensures Spot(group, r) in SpotsOf(rules, group)
      {
        assert rules[..n][r] == rules[r];
      }
    }
  }

  ghost predicate IsSpot(groups: seq<Group>, spot: Spot, a: Active)
  {
    Counts(groups, spot.group, spot.rule) && IsSpotOf(groups[spot.group].rules, spot.group, spot, a)
  }

  ghost predicate AreSpots(groups: seq<Group>, spots: seq<Spot>, rules: seq<Active>)
  {
    && |spots| == |rules| && Ordered(spots)
    && (forall i | 0 <= i < |spots| :: IsSpot(groups, spots[i], rules[i]))
    && (forall g: nat, r: nat | Counts(groups, g, r) :: Spot(g, r) in spots)
  }

  lemma {:induction false} SpotsOfGroups(groups: seq<Group>)
    ensures AreSpots(groups, Spots(groups), ActiveRules(groups))
  {
    if groups != [] {
      var n := |groups| - 1;
      SpotsOfGroups(groups[..n]);
      SpotsOfRules(groups[n].rules, n);
      SpotsOfBoth(groups, Spots(groups[..n]), ActiveRules(groups[..n]));
    }
  }

  lemma OrderedBoth(spots: seq<Spot>, own: seq<Spot>, n: nat)
    requires Ordered(spots) && Ordered(own)
    requires (forall i | 0 <= i < |spots| :: spots[i].group < n) && (forall i | 0 <= i < |own| :: own[i].group == n)
    ensures Ordered(spots + own)
  {
  }

  lemma SpotsStay(groups: seq<Group>, n: nat, spots: seq<Spot>, rules: seq<Active>)
    requires n <= |groups| && AreSpots(groups[..n], spots, rules)
    ensures forall i | 0 <= i < |spots| :: IsSpot(groups, spots[i], rules[i]) && spots[i].group < n
    ensures forall g: nat, r: nat | Counts(groups, g, r) && g < n :: Spot(g, r) in spots
  {
    forall i | 0 <= i < |spots|
      ensures IsSpot(groups, spots[i], rules[i]) && spots[i].group < n
    {
      assert IsSpot(groups[..n], spots[i], rules[i]);
    }
    forall g: nat, r: nat | Counts(groups, g, r) && g < n
      ensures Spot(g, r) in spots
    {
      assert Counts(groups[..n], g, r);
    }
  }

  lemma SpotsOfOne(groups: seq<Group>, n: nat)
    requires n < |groups| && groups[n].running && groups[n].enable
    ensures var own, last := SpotsOf(groups[n].rules, n), RulesOf(groups[n].rules, n);
            && |own| == |last| && Ordered(own)
            && (forall i | 0 <= i < |own| :: IsSpot(groups, own[i], last[i]) && own[i].group == n)
            && (forall r: nat | Counts(groups, n, r) :: Spot(n, r) in own)
  {
    var own, last := SpotsOf(groups[n].rules, n), RulesOf(groups[n].rules, n);
    SpotsOfRules(groups[n].rules, n);
    forall i | 0 <= i < |own|
      ensures IsSpot(groups, own[i], last[i]) && own[i].group == n
    {
      assert IsSpotOf(groups[n].rules, n, own[i], last[i]);
    }
  }

  lemma SpotsOfBoth(groups: seq<Group>, spots: seq<Spot>, rules: seq<Active>)
    requires groups != [] && AreSpots(groups[..|groups| - 1], spots, rules)
    ensures var n := |groups| - 1;
            var on := groups[n].running && groups[n].enable;
            AreSpots(groups, spots + if on then SpotsOf(groups[n].rules, n) else [],
                     rules + if on then RulesOf(groups[n].rules, n) else [])
  {
    var n := |groups| - 1;
    SpotsStay(groups, n, spots, rules);
    if groups[n].running && groups[n].enable {
      SpotsOfOne(groups, n);
      OrderedBoth(spots, SpotsOf(groups[n].rules, n), n);
    }
  }

  lemma IndexOfSpot(groups: seq<Group>, g: nat, r: nat) returns (i: nat)
    requires Counts(groups, g, r)
    ensures i < |ActiveRules(groups)| && i < |Spots(groups)| && Spots(groups)[i] == Spot(g, r)
    ensures ActiveRules(groups)[i] == Active(groups[g].rules[r].kind, groups[g].rules[r].text, g)
  {
    SpotsOfGroups(groups);
    i :| 0 <= i < |Spots(groups)| && Spots(groups)[i] == Spot(g, r);
  }

  /** The two readings of a property agree. */
  ghost predicate SameProperty(p: Rule -> bool, q: Active -> bool)
  {
    forall kind, text, g: nat :: q(Active(kind, text, g)) == p(Rule(kind, text, true))
  }

  lemma ReadAlike(rule: Rule, g: nat, p: Rule -> bool, q: Active -> bool)
    requires SameProperty(p, q) && rule.enabled
    ensures p(rule) == q(Active(rule.kind, rule.text, g))
  {
    assert rule == Rule(rule.kind, rule.text, true);
  }

  lemma FirstIsFirstRule(groups: seq<Group>, p: Rule -> bool, q: Active -> bool)
    requires SameProperty(p, q)
    ensures First(ActiveRules(groups), q).Some? <==> SomeRule(groups, p)
    ensures First(ActiveRules(groups), q).Some? ==>
              exists g: nat, r: nat :: FirstRule(groups, p, g, r)
                                       && ActiveRules(groups)[First(ActiveRules(groups), q).value].group == g
  {
    if First(ActiveRules(groups), q).Some? {
      FoundIsFirst(groups, p, q, First(ActiveRules(groups), q).value);
    } else {
      forall h: nat, s: nat | Counts(groups, h, s)
        ensures !p(groups[h].rules[s])
      {
        var j := IndexOfSpot(groups, h, s);
        ReadAlike(groups[h].rules[s], h, p, q);
        assert !q(ActiveRules(groups)[j]);
      }
    }
  }

  lemma FoundIsFirst(groups: seq<Group>, p: Rule -> bool, q: Active -> bool, i: nat)
    requires SameProperty(p, q) && i < |ActiveRules(groups)| && q(ActiveRules(groups)[i])
    requires forall j | 0 <= j < i :: !q(ActiveRules(groups)[j])
    ensures i < |Spots(groups)| && FirstRule(groups, p, Spots(groups)[i].group, Spots(groups)[i].rule)
    ensures ActiveRules(groups)[i].group == Spots(groups)[i].group
  {
    SpotsOfGroups(groups);
    var at := Spots(groups)[i];
    assert IsSpot(groups, at, ActiveRules(groups)[i]);
    ReadAlike(groups[at.group].rules[at.rule], at.group, p, q);
    forall h: nat, s: nat | Counts(groups, h, s) && p(groups[h].rules[s])
      ensures !Earlier(h, s, at.group, at.rule)
    {
      var j := IndexOfSpot(groups, h, s);
      ReadAlike(groups[h].rules[s], h, p, q);
    }
  }

  lemma CoversIffNamespace(rule: Rule, domain: string, g: nat)
    ensures CoversDomain(rule, domain) <==> IsNamespaceOf(Active(rule.kind, rule.text, g), domain)
  {
    if front :| domain == front + "." + rule.text {
      assert domain[|domain| - |rule.text|..] == rule.text && domain[|front|] == '.';
    }
    if InNamespace(rule.text, domain) && domain != rule.text {
      var front := domain[..|domain| - |rule.text| - 1];
      assert domain == front + "." + rule.text;
    }
  }

  lemma LongestIsLongestRule(groups: seq<Group>, domain: string, i: nat)
    requires IsLongest(ActiveRules(groups), domain, i)
    ensures i < |Spots(groups)| && LongestRule(groups, domain, Spots(groups)[i].group, Spots(groups)[i].rule)
    ensures ActiveRules(groups)[i].group == Spots(groups)[i].group
  {
    SpotsOfGroups(groups);
    var at := Spots(groups)[i];
    assert IsSpot(groups, at, ActiveRules(groups)[i]);
    CoversIffNamespace(groups[at.group].rules[at.rule], domain, at.group);
    forall h: nat, s: nat | Counts(groups, h, s) && CoversDomain(groups[h].rules[s], domain)
      ensures var own, other := |groups[at.group].rules[at.rule].text|, |groups[h].rules[s].text|;
              other < own || (other == own && !Earlier(h, s, at.group, at.rule))
    {
      var j := IndexOfSpot(groups, h, s);
      CoversIffNamespace(groups[h].rules[s], domain, h);
      assert IsNamespaceOf(ActiveRules(groups)[j], domain);
    }
  }

  lemma LongestRuleIsLongest(groups: seq<Group>, domain: string, g: nat, r: nat) returns (i: nat)
    requires LongestRule(groups, domain, g, r)
    ensures IsLongest(ActiveRules(groups), domain, i)
  {
    SpotsOfGroups(groups);
    i := IndexOfSpot(groups, g, r);
    CoversIffNamespace(groups[g].rules[r], domain, g);
    forall j | 0 <= j < |ActiveRules(groups)| && IsNamespaceOf(ActiveRules(groups)[j], domain)
      ensures |ActiveRules(groups)[j].text| < |ActiveRules(groups)[i].text|
              || (|ActiveRules(groups)[j].text| == |ActiveRules(groups)[i].text| && i <= j)
    {
      var at := Spots(groups)[j];
      assert IsSpot(groups, at, ActiveRules(groups)[j]);
      CoversIffNamespace(groups[at.group].rules[at.rule], domain, at.group);
    }
  }

  lemma GlobReadings(domain: string, glob: (string, string) -> bool)
    ensures SameProperty((rule: Rule) => GlobMatches(rule, domain, glob),
                         (a: Active) => ActsAsGlob(a) && glob(a.text, domain))
  {
    forall kind, text, g: nat
      ensures ActsAsGlob(Active(kind, text, g)) == (kind == WildcardRule && ('*' in text || '?' in text))
    {
    }
  }

  /** The flat list's verdict is the one read off the groups. */
  lemma VerdictIsVerdict(groups: seq<Group>, domain: string, glob: (string, string) -> bool,
                         regex: (string, string) -> bool)
    ensures forall out | FlatVerdict(ActiveRules(groups), domain, glob, regex, out) ::
              IsVerdict(groups, domain, glob, regex, out)
  {
    FirstIsFirstRule(groups, (rule: Rule) => NamesDomain(rule, domain),
                     (a: Active) => a.kind == DomainRule && a.text == domain);
    GlobReadings(domain, glob);
    FirstIsFirstRule(groups, (rule: Rule) => GlobMatches(rule, domain, glob),
                     (a: Active) => ActsAsGlob(a) && glob(a.text, domain));
    FirstIsFirstRule(groups, (rule: Rule) => RegexMatches(rule, domain, regex),
                     (a: Active) => a.kind == RegExRule && regex(a.text, domain));
    forall i: nat | IsLongest(ActiveRules(groups), domain, i)
      ensures exists g: nat, r: nat :: LongestRule(groups, domain, g, r) && ActiveRules(groups)[i].group == g
    {
      LongestIsLongestRule(groups, domain, i);
    }
    forall g: nat, r: nat | LongestRule(groups, domain, g, r)
      ensures exists i: nat :: IsLongest(ActiveRules(groups), domain, i)
    {
      var i := LongestRuleIsLongest(groups, domain, g, r);
    }
  }

  // ---- Labels and strings ----

  /** Being in a namespace is having its labels as a suffix, empty labels included. */
  lemma NamespaceIsSuffix(rule: string, domain: string)
    ensures InNamespace(rule, domain) <==>
            exists i: nat :: i < |Split(domain, '.')| && Split(domain, '.')[i..] == Split(rule, '.')
  {
    var labels := Split(domain, '.');
    if domain == rule {
      assert labels[0..] == Split(rule, '.');
    } else if InNamespace(rule, domain) {
      var front := domain[..|domain| - |rule| - 1];
      assert domain == front + ['.'] + rule;
      SplitAtSeparator(front, rule, '.');
      assert labels[|Split(front, '.')|..] == Split(rule, '.');
    }
    if i: nat :| i < |labels| && labels[i..] == Split(rule, '.') {
      JoinSplit(domain, '.');
      JoinSplit(rule, '.');
      if i == 0 {
        assert labels[0..] == labels;
      } else {
        assert labels == labels[..i] + labels[i..];
        JoinAppend(labels[..i], labels[i..], '.');
        assert domain[|domain| - |rule|..] == rule;
      }
    }
  }

  lemma SameSplitSameText(a: string, b: string)
    requires Split(a, '.') == Split(b, '.')
    ensures a == b
  {
    JoinSplit(a, '.');
    JoinSplit(b, '.');
  }

  lemma SamePathSameText(a: string, b: string)
    requires Trie.DomainPath(a) == Trie.DomainPath(b)
    ensures a == b
  {
    Trie.PathOfIsInjective(Split(a, '.'), Split(b, '.'));
    SameSplitSameText(a, b);
  }

  lemma LongerSuffixLongerText(labels: seq<string>, i: nat, j: nat)
    requires i < j < |labels|
    ensures |Join(labels[i..], '.')| > |Join(labels[j..], '.')|
  {
    assert labels[i..] == labels[i..j] + labels[j..];
    JoinAppend(labels[i..j], labels[j..], '.');
  }

  // ---- What the trie holds ----

  function ExactOf(rules: seq<Active>): Trie.Slots
  {
    if rules == [] then map[]
    else
      var a := rules[|rules| - 1];
      var before := ExactOf(rules[..|rules| - 1]);
      if a.kind == DomainRule then Trie.Keeping(before, Trie.DomainPath(a.text), a.group) else before
  }

  function NamespacesOf(rules: seq<Active>): Trie.Slots
  {
    if rules == [] then map[]
    else
      var a := rules[|rules| - 1];
      var before := NamespacesOf(rules[..|rules| - 1]);
      if ActsAsNamespace(a) then Trie.Keeping(before, Trie.DomainPath(a.text), a.group) else before
  }

  function GlobsOf(rules: seq<Active>): seq<Active>
  {
    if rules == [] then []
    else
      var a := rules[|rules| - 1];
      GlobsOf(rules[..|rules| - 1]) + if ActsAsGlob(a) then [a] else []
  }

  lemma {:induction false} ExactOfIsFirst(rules: seq<Active>, domain: string)
    ensures var i := First(rules, (a: Active) => a.kind == DomainRule && a.text == domain);
            && (Trie.DomainPath(domain) in ExactOf(rules) <==> i.Some?)
            && (i.Some? ==> ExactOf(rules)[Trie.DomainPath(domain)] == rules[i.value].group)
  {
    if rules != [] {
      var n := |rules| - 1;
      ExactOfIsFirst(rules[..n], domain);
      if rules[n].kind == DomainRule && Trie.DomainPath(rules[n].text) == Trie.DomainPath(domain) {
        SamePathSameText(rules[n].text, domain);
      }
    }
  }

  /** The first namespace rule with the text of path `q`. */
  ghost predicate FirstWithPath(rules: seq<Active>, q: Trie.Path, i: nat)
  {
    && i < |rules| && ActsAsNamespace(rules[i]) && Trie.DomainPath(rules[i].text) == q
    && forall j | 0 <= j < i :: !(ActsAsNamespace(rules[j]) && Trie.DomainPath(rules[j].text) == q)
  }

  lemma {:induction false} NamespacesOfHolds(rules: seq<Active>, q: Trie.Path)
    requires q in NamespacesOf(rules)
    ensures exists i: nat :: FirstWithPath(rules, q, i) && NamespacesOf(rules)[q] == rules[i].group
  {
    var n := |rules| - 1;
    if q in NamespacesOf(rules[..n]) {
      NamespacesOfHolds(rules[..n], q);
      var i: nat :| FirstWithPath(rules[..n], q, i) && NamespacesOf(rules[..n])[q] == rules[..n][i].group;
      assert FirstWithPath(rules, q, i);
    } else {
      forall j | 0 <= j < n
        ensures !(ActsAsNamespace(rules[j]) && Trie.DomainPath(rules[j].text) == q)
      {
        if ActsAsNamespace(rules[j]) {
          assert rules[..n][j] == rules[j];
          NamespaceRuleIsHeld(rules[..n], j);
        }
      }
      assert FirstWithPath(rules, q, n);
    }
  }

  lemma {:induction false} NamespaceRuleIsHeld(rules: seq<Active>, j: nat)
    requires j < |rules| && ActsAsNamespace(rules[j])
    ensures Trie.DomainPath(rules[j].text) in NamespacesOf(rules)
  {
    var n := |rules| - 1;
    if j < n {
      NamespaceRuleIsHeld(rules[..n], j);
    }
  }

  /** The suffix the trie settles on is the leftmost that has a rule. */
  lemma {:induction false} LongestIsLeftmost(namespaces: Trie.Slots, labels: seq<string>) returns (i: nat)
    ensures i <= |labels|
    ensures forall j | 0 <= j < i :: Trie.PathOf(labels[j..]) !in namespaces
    ensures if i == |labels| then Trie.LongestNamespace(namespaces, Trie.PathOf(labels)) == None
            else Trie.PathOf(labels[i..]) in namespaces
                 && Trie.LongestNamespace(namespaces, Trie.PathOf(labels)) ==
                    Some(Trie.Match(namespaces[Trie.PathOf(labels[i..])], Trie.KindNamespace))
  {
    if labels == [] {
      i := 0;
    } else if Trie.PathOf(labels) in namespaces {
      i := 0;
      assert labels[0..] == labels;
    } else {
      var k := LongestIsLeftmost(namespaces, labels[1..]);
      i := k + 1;
      assert labels[1..][k..] == labels[i..];
      forall j | 0 <= j < i
        ensures Trie.PathOf(labels[j..]) !in namespaces
      {
        if j == 0 {
          assert labels[0..] == labels;
        } else {
          assert labels[1..][j - 1..] == labels[j..];
        }
      }
    }
  }

  /** A matching rule sits at some suffix of the query's labels. */
  lemma MatchHasSuffix(rules: seq<Active>, domain: string, j: nat) returns (k: nat)
    requires j < |rules| && IsNamespaceOf(rules[j], domain)
    ensures k < |Split(domain, '.')| && Split(domain, '.')[k..] == Split(rules[j].text, '.')
    ensures Trie.PathOf(Split(domain, '.')[k..]) in NamespacesOf(rules)
  {
    NamespaceIsSuffix(rules[j].text, domain);
    k :| k < |Split(domain, '.')| && Split(domain, '.')[k..] == Split(rules[j].text, '.');
    NamespaceRuleIsHeld(rules, j);
  }

  lemma LeftmostIsLongest(rules: seq<Active>, domain: string, i: nat, w: nat)
    requires i < |Split(domain, '.')|
    requires forall j | 0 <= j < i :: Trie.PathOf(Split(domain, '.')[j..]) !in NamespacesOf(rules)
    requires FirstWithPath(rules, Trie.PathOf(Split(domain, '.')[i..]), w)
    ensures IsLongest(rules, domain, w)
  {
    var labels := Split(domain, '.');
    Trie.PathOfIsInjective(Split(rules[w].text, '.'), labels[i..]);
    NamespaceIsSuffix(rules[w].text, domain);
    JoinSplit(rules[w].text, '.');
    forall j | 0 <= j < |rules| && IsNamespaceOf(rules[j], domain)
      ensures |rules[j].text| < |rules[w].text| || (|rules[j].text| == |rules[w].text| && w <= j)
    {
      var k := MatchHasSuffix(rules, domain, j);
      JoinSplit(rules[j].text, '.');
      if i < k {
        LongerSuffixLongerText(labels, i, k);
      }
    }
  }

  /** The namespace slot the trie finds is the group of the longest namespace rule. */
  lemma NamespacesOfIsLongest(rules: seq<Active>, domain: string)
    ensures var found := Trie.LongestNamespace(NamespacesOf(rules), Trie.DomainPath(domain));
            if found.None? then !exists w: nat :: IsLongest(rules, domain, w)
            else exists w: nat :: IsLongest(rules, domain, w)
                                  && found.value == Trie.Match(rules[w].group, Trie.KindNamespace)
  {
    var labels := Split(domain, '.');
    var i := LongestIsLeftmost(NamespacesOf(rules), labels);
    if i < |labels| {
      var q := Trie.PathOf(labels[i..]);
      NamespacesOfHolds(rules, q);
      var w: nat :| FirstWithPath(rules, q, w) && NamespacesOf(rules)[q] == rules[w].group;
      LeftmostIsLongest(rules, domain, i, w);
    } else if w: nat :| IsLongest(rules, domain, w) {
      var k := MatchHasSuffix(rules, domain, w);
      assert false;
    }
  }

  lemma {:induction false} GlobsKeepFirst(rules: seq<Active>, p: Active -> bool)
    ensures var i := First(rules, (a: Active) => ActsAsGlob(a) && p(a));
            var j := First(GlobsOf(rules), p);
            i.Some? == j.Some? && (i.Some? ==> rules[i.value] == GlobsOf(rules)[j.value])
  {
    if rules != [] {
      var n := |rules| - 1;
      GlobsKeepFirst(rules[..n], p);
      if ActsAsGlob(rules[n]) {
        assert GlobsOf(rules)[..|GlobsOf(rules)| - 1] == GlobsOf(rules[..n]);
      } else {
        assert GlobsOf(rules) == GlobsOf(rules[..n]);
      }
    }
  }

  // ---- The program ----

  function TrimPrefix(s: string, prefix: string): string
  {
    if prefix <= s then s[|prefix|..] else s
  }

  lemma NoGlobNoTrim(text: string)
    ensures HasGlob(text) || TrimPrefix(text, "*.") == text
  {
    assert "*." <= text ==> text[0] == '*';
  }

  class Arbiter {
    var groups: seq<Group>
    var domainTrie: Trie.Trie
    var wildcardRules: seq<Active>
    const glob: (string, string) -> bool
    const regex: (string, string) -> bool

    /** The trie and the glob list are those of the present groups. */
    ghost predicate UpToDate()
      reads this, domainTrie, domainTrie.Repr
    {
      && domainTrie.Valid()
      && domainTrie.exact == ExactOf(ActiveRules(groups))
      && domainTrie.namespaces == NamespacesOf(ActiveRules(groups))
      && wildcardRules == GlobsOf(ActiveRules(groups))
    }

    constructor (groups: seq<Group>, glob: (string, string) -> bool, regex: (string, string) -> bool)
      ensures this.groups == groups && this.glob == glob && this.regex == regex
      ensures UpToDate()
    {
      this.groups, this.glob, this.regex := groups, glob, regex;
      domainTrie := new Trie.Trie();
      wildcardRules := [];
      new;
      RebuildTrie();
    }

    method RebuildTrie()
      modifies this`domainTrie, this`wildcardRules
      ensures UpToDate() && fresh(domainTrie) && fresh(domainTrie.Repr)
    {
      domainTrie, wildcardRules := NewTrie();
    }

    method NewTrie() returns (newTrie: Trie.Trie, newWildcards: seq<Active>)
      ensures newTrie.Valid() && fresh(newTrie) && fresh(newTrie.Repr)
      ensures Holds(newTrie.exact, newTrie.namespaces, newWildcards, ActiveRules(groups))
    {
      newTrie := new Trie.Trie();
      newWildcards := [];
      for g := 0 to |groups|
        invariant newTrie.Valid() && fresh(newTrie) && fresh(newTrie.Repr)
        invariant Holds(newTrie.exact, newTrie.namespaces, newWildcards, ActiveRules(groups[..g]))
      {
        ActiveStep(groups, g);
        if !groups[g].On() {
          continue;
        }
        newWildcards := AddGroup(newTrie, newWildcards, groups[g].rules, g, ActiveRules(groups[..g]));
      }
      assert groups[..|groups|] == groups;
    }

    static method AddGroup(trie: Trie.Trie, wildcards: seq<Active>, rules: seq<Rule>, g: nat, ghost before: seq<Active>)
      returns (out: seq<Active>)
      requires trie.Valid() && Holds(trie.exact, trie.namespaces, wildcards, before)
      modifies trie, trie.Repr
      ensures trie.Valid() && fresh(trie.Repr - old(trie.Repr))
      ensures Holds(trie.exact, trie.namespaces, out, before + RulesOf(rules, g))
    {
      out := wildcards;
      assert before + [] == before;
      for r := 0 to |rules|
        invariant trie.Valid() && fresh(trie.Repr - old(trie.Repr))
        invariant Holds(trie.exact, trie.namespaces, out, before + RulesOf(rules[..r], g))
      {
        var rule := rules[r];
        assert rules[..r + 1][..r] == rules[..r];
        if !rule.enabled {
          assert RulesOf(rules[..r + 1], g) == RulesOf(rules[..r], g);
          continue;
        }
        ghost var sofar := before + RulesOf(rules[..r], g);
        assert before + RulesOf(rules[..r + 1], g) == sofar + [Active(rule.kind, rule.text, g)];
        out := AddRule(trie, out, rule, g, sofar);
      }
      assert rules[..|rules|] == rules;
    }

    static method AddRule(trie: Trie.Trie, wildcards: seq<Active>, rule: Rule, g: nat, ghost before: seq<Active>)
      returns (out: seq<Active>)
      requires trie.Valid() && Holds(trie.exact, trie.namespaces, wildcards, before)
      modifies trie, trie.Repr
      ensures trie.Valid() && fresh(trie.Repr - old(trie.Repr))
      ensures Holds(trie.exact, trie.namespaces, out, before + [Active(rule.kind, rule.text, g)])
    {
      ghost var a := Active(rule.kind, rule.text, g);
      assert (before + [a])[..|before|] == before;
      out := wildcards;
      match rule.kind {
        case DomainRule => trie.Insert(rule.text, g, true);
        case WildcardRule =>
          if '*' in rule.text || '?' in rule.text {
            out := out + [Active(rule.kind, rule.text, g)];
          } else {
            NoGlobNoTrim(rule.text);
            trie.Insert(TrimPrefix(rule.text, "*."), g, false);
          }
        case NamespaceRule => trie.Insert(rule.text, g, false);
        case _ =>
      }
    }

    method SearchDomainExplain(domain: string) returns (out: Option<Verdict>)
      requires UpToDate()
      ensures FlatVerdict(ActiveRules(groups), domain, glob, regex, out)
      ensures IsVerdict(groups, domain, glob, regex, out)
    {
      VerdictIsVerdict(groups, domain, glob, regex);
      ghost var rules := ActiveRules(groups);
      TrieVerdict(rules, domain);
      ActiveAreOn(groups);
      var found := domainTrie.SearchExplain(domain);
      if found.Some? && found.value.data < |groups| && groups[found.value.data].On() {
        return Some(Verdict(found.value.data, if found.value.kind.KindExact? then Exact else Namespace));
      }
      var i := FirstGlob(domain);
      ghost var p := (a: Active) => glob(a.text, domain);
      GlobsKeepFirst(rules, p);
      SameFirst(rules, (a: Active) => ActsAsGlob(a) && p(a), (a: Active) => ActsAsGlob(a) && glob(a.text, domain));
      if i < |wildcardRules| {
        return Some(Verdict(wildcardRules[i].group, Wildcard));
      }
      out := FirstRegex(domain);
    }

    method FirstGlob(domain: string) returns (i: nat)
      requires UpToDate()
      ensures var first := First(wildcardRules, (a: Active) => glob(a.text, domain));
              if first.Some? then i == first.value else i == |wildcardRules|
    {
      i := 0;
      GlobsAreOn(groups);
      while i < |wildcardRules|
        invariant i <= |wildcardRules| && forall j | 0 <= j < i :: !glob(wildcardRules[j].text, domain)
      {
        var g := wildcardRules[i].group;
        if glob(wildcardRules[i].text, domain) && groups[g].On() {
          return;
        }
        i := i + 1;
      }
    }

    /** The place of the first regex rule of a group that matches, or their number. */
    method RegexOf(rules: seq<Rule>, g: nat, domain: string) returns (r: nat)
      ensures r <= |rules|
      ensures var p := (a: Active) => a.kind == RegExRule && regex(a.text, domain);
              && First(RulesOf(rules[..r], g), p).None?
              && (r < |rules| ==> rules[r].enabled && p(Active(rules[r].kind, rules[r].text, g)))
    {
      ghost var p := (a: Active) => a.kind == RegExRule && regex(a.text, domain);
      r := 0;
      while r < |rules|
        invariant r <= |rules| && First(RulesOf(rules[..r], g), p).None?
      {
        if rules[r].enabled && rules[r].kind == RegExRule && regex(rules[r].text, domain) {
          return;
        }
        NoneOneMore(rules, r, g, p);
        r := r + 1;
      }
    }

    /** The regex rules, group by group. */
    method FirstRegex(domain: string) returns (out: Option<Verdict>)
      ensures var first := First(ActiveRules(groups), (a: Active) => a.kind == RegExRule && regex(a.text, domain));
              out == if first.Some? then Some(Verdict(ActiveRules(groups)[first.value].group, Regex)) else None
    {
      ghost var p := (a: Active) => a.kind == RegExRule && regex(a.text, domain);
      for g := 0 to |groups|
        invariant First(ActiveRules(groups[..g]), p).None?
      {
        assert groups[..g + 1][..g] == groups[..g];
        if !groups[g].On() {
          continue;
        }
        var r := RegexOf(groups[g].rules, g, domain);
        if r < |groups[g].rules| {
          FirstInGroup(groups, g, r, p);
          return Some(Verdict(g, Regex));
        }
        assert groups[g].rules[..|groups[g].rules|] == groups[g].rules;
        FirstOfBoth(ActiveRules(groups[..g]), RulesOf(groups[g].rules, g), p);
      }
      assert groups[..|groups|] == groups;
      return None;
    }
  }

  lemma NoneOneMore(rules: seq<Rule>, r: nat, g: nat, p: Active -> bool)
    requires r < |rules| && First(RulesOf(rules[..r], g), p).None?
    requires rules[r].enabled ==> !p(Active(rules[r].kind, rules[r].text, g))
    ensures First(RulesOf(rules[..r + 1], g), p).None?
  {
    assert rules[..r + 1][..r] == rules[..r];
  }

  ghost predicate Holds(exact: Trie.Slots, namespaces: Trie.Slots, wildcards: seq<Active>, rules: seq<Active>)
  {
    exact == ExactOf(rules) && namespaces == NamespacesOf(rules) && wildcards == GlobsOf(rules)
  }

  /** What the trie finds is the exact or the namespace part of the flat verdict. */
  lemma TrieVerdict(rules: seq<Active>, domain: string)
    ensures var found := Trie.Best(ExactOf(rules), NamespacesOf(rules), Trie.DomainPath(domain));
            var exact := First(rules, (a: Active) => a.kind == DomainRule && a.text == domain);
            if exact.Some? then found == Some(Trie.Match(rules[exact.value].group, Trie.KindExact))
            else if found.None? then !exists w: nat :: IsLongest(rules, domain, w)
            else exists w: nat :: IsLongest(rules, domain, w)
                                  && found.value == Trie.Match(rules[w].group, Trie.KindNamespace)
  {
    ExactOfIsFirst(rules, domain);
    NamespacesOfIsLongest(rules, domain);
  }

  lemma ActiveStep(groups: seq<Group>, g: nat)
    requires g < |groups|
    ensures ActiveRules(groups[..g + 1]) ==
            if groups[g].On() then ActiveRules(groups[..g]) + RulesOf(groups[g].rules, g) else ActiveRules(groups[..g])
  {
    assert groups[..g + 1][..g] == groups[..g];
  }

  lemma {:induction false} RulesOfGroup(rules: seq<Rule>, group: nat)
    ensures forall i | 0 <= i < |RulesOf(rules, group)| :: RulesOf(rules, group)[i].group == group
  {
    if rules != [] {
      RulesOfGroup(rules[..|rules| - 1], group);
    }
  }

  lemma {:induction false} ActiveAreOn(groups: seq<Group>)
    ensures forall i | 0 <= i < |ActiveRules(groups)| ::
              ActiveRules(groups)[i].group < |groups| && groups[ActiveRules(groups)[i].group].On()
  {
    if groups != [] {
      var n := |groups| - 1;
      ActiveAreOn(groups[..n]);
      RulesOfGroup(groups[n].rules, n);
    }
  }

  lemma {:induction false} GlobsAreActive(rules: seq<Active>)
    ensures forall a | a in GlobsOf(rules) :: a in rules
  {
    if rules != [] {
      GlobsAreActive(rules[..|rules| - 1]);
      assert rules == rules[..|rules| - 1] + [rules[|rules| - 1]];
    }
  }

  lemma GlobsAreOn(groups: seq<Group>)
    ensures forall i | 0 <= i < |GlobsOf(ActiveRules(groups))| ::
              var g := GlobsOf(ActiveRules(groups))[i].group; g < |groups| && groups[g].On()
  {
    ActiveAreOn(groups);
    GlobsAreActive(ActiveRules(groups));
    forall i | 0 <= i < |GlobsOf(ActiveRules(groups))|
      ensures var g := GlobsOf(ActiveRules(groups))[i].group; g < |groups| && groups[g].On()
    {
      assert GlobsOf(ActiveRules(groups))[i] in GlobsOf(ActiveRules(groups));
    }
  }

  lemma FirstIs(rules: seq<Active>, p: Active -> bool, i: Option<nat>)
    requires i.None? ==> forall j | 0 <= j < |rules| :: !p(rules[j])
    requires i.Some? ==> i.value < |rules| && p(rules[i.value]) && forall j | 0 <= j < i.value :: !p(rules[j])
    ensures First(rules, p) == i
  {
    var first := First(rules, p);
    assert first.Some? && i.Some? ==> !(first.value < i.value) && !(i.value < first.value);
  }

  lemma SameFirst(rules: seq<Active>, p: Active -> bool, q: Active -> bool)
    requires forall a :: p(a) == q(a)
    ensures First(rules, p) == First(rules, q)
  {
    FirstIs(rules, q, First(rules, p));
  }

  lemma {:induction false} FirstOfBoth(a: seq<Active>, b: seq<Active>, p: Active -> bool)
    requires First(a, p).None?
    ensures First(a + b, p) == if First(b, p).Some? then Some(|a| + First(b, p).value) else None
  {
    if b == [] {
      assert a + b == a;
    } else {
      var n := |b| - 1;
      assert (a + b)[..|a| + n] == a + b[..n];
      FirstOfBoth(a, b[..n], p);
    }
  }

  /** Up to a rule, the flat list is what came before it. */
  lemma PlaceOfRule(groups: seq<Group>, g: nat, r: nat)
    requires g < |groups| && groups[g].On() && r < |groups[g].rules| && groups[g].rules[r].enabled
    ensures ActiveRules(groups[..g]) + RulesOf(groups[g].rules[..r], g)
            + [Active(groups[g].rules[r].kind, groups[g].rules[r].text, g)] <= ActiveRules(groups)
  {
    var own := groups[g].rules;
    assert own[..r + 1][..r] == own[..r];
    RulesOfPrefix(own, r + 1, g);
    ActivePrefix(groups, g + 1);
    ActiveStep(groups, g);
  }

  lemma FirstAfter(rules: seq<Active>, sofar: seq<Active>, a: Active, p: Active -> bool)
    requires sofar + [a] <= rules && First(sofar, p).None? && p(a)
    ensures First(rules, p) == Some(|sofar|) && rules[|sofar|] == a
  {
    assert rules[|sofar|] == (sofar + [a])[|sofar|];
    forall j | 0 <= j < |sofar|
      ensures !p(rules[j])
    {
      assert rules[j] == (sofar + [a])[j] == sofar[j];
    }
    FirstIs(rules, p, Some(|sofar|));
  }

  /** A regex rule found while scanning is the first of the flat list. */
  lemma FirstInGroup(groups: seq<Group>, g: nat, r: nat, p: Active -> bool)
    requires g < |groups| && groups[g].On() && r < |groups[g].rules| && groups[g].rules[r].enabled
    requires First(ActiveRules(groups[..g]), p).None?
    requires First(RulesOf(groups[g].rules[..r], g), p).None?
    requires p(Active(groups[g].rules[r].kind, groups[g].rules[r].text, g))
    ensures First(ActiveRules(groups), p).Some?
    ensures ActiveRules(groups)[First(ActiveRules(groups), p).value].group == g
  {
    var own := groups[g].rules;
    var a := Active(own[r].kind, own[r].text, g);
    var sofar := ActiveRules(groups[..g]) + RulesOf(own[..r], g);
    FirstOfBoth(ActiveRules(groups[..g]), RulesOf(own[..r], g), p);
    PlaceOfRule(groups, g, r);
    FirstAfter(ActiveRules(groups), sofar, a, p);
  }

  lemma {:induction false} RulesOfPrefix(rules: seq<Rule>, n: nat, group: nat)
    requires n <= |rules|
    ensures RulesOf(rules[..n], group) <= RulesOf(rules, group)
  {
    if n == |rules| {
      assert rules[..n] == rules;
    } else {
      assert rules[..|rules| - 1][..n] == rules[..n];
      RulesOfPrefix(rules[..|rules| - 1], n, group);
    }
  }

  lemma {:induction false} ActivePrefix(groups: seq<Group>, n: nat)
    requires n <= |groups|
    ensures ActiveRules(groups[..n]) <= ActiveRules(groups)
  {
    if n == |groups| {
      assert groups[..n] == groups;
    } else {
      assert groups[..|groups| - 1][..n] == groups[..n];
      ActivePrefix(groups[..|groups| - 1], n);
    }
  }
}

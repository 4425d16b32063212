/**
  The three kinds of modelled chain and what each compiles to against the rules it
  finds in the kernel:
  - a chain to delete: flush and drop it, if it is there;
  - an override chain: rewrite it unless it already equals the model;
  - a patch chain: add or remove our own rules among foreign ones.
 */
module Chains {
  import opened Text
  import opened Netfilter

  datatype PatchOption = PatchAppend | PatchDelete | PatchInsert

  datatype PatchRule = PatchRule(option: PatchOption, ruleNum: int, rule: Rule)

  datatype ChainModel =
    | DeleteModel
    | OverrideModel(rules: seq<Rule>)
    | PatchModel(ordered: seq<PatchRule>)

  datatype Compiled = Compiled(commands: seq<Op>, priority: int)

  /** The type of the duplicate counter; it wraps at 256. */
  newtype uint8 = x: int | 0 <= x < 256

  // ---- Rule keys ----

  /** `Rule.String`, the key under which existing rules are counted. */
  function Key(r: Rule): string { Join(r, ' ') }

  predicate CleanRule(r: Rule) { forall i | 0 <= i < |r| :: IsToken(r[i]) }

  predicate CleanRules(rules: seq<Rule>) { forall i | 0 <= i < |rules| :: CleanRule(rules[i]) }

  function KeyCount(rules: seq<Rule>, key: string): nat
  {
    if rules == [] then 0
    else (if Key(rules[0]) == key then 1 else 0) + KeyCount(rules[1..], key)
  }

  /** On rules made of tokens the key tells rules apart. */
  lemma KeyIsInjective(a: Rule, b: Rule)
    requires CleanRule(a) && CleanRule(b) && Key(a) == Key(b)
    ensures a == b
  {
    FieldsOfJoin(a, IsSpace);
    FieldsOfJoin(b, IsSpace);
  }

  lemma {:induction false} KeyCountIsCount(rules: seq<Rule>, r: Rule)
    requires CleanRules(rules) && CleanRule(r)
    ensures KeyCount(rules, Key(r)) == Count(rules, r)
  {
    if rules != [] {
      KeyCountIsCount(rules[1..], r);
      if Key(rules[0]) == Key(r) {
        KeyIsInjective(rules[0], r);
      }
    }
  }

  lemma {:induction false} KeyCountAppend(a: seq<Rule>, r: Rule, key: string)
    ensures KeyCount(a + [r], key) == KeyCount(a, key) + if Key(r) == key then 1 else 0
  {
    if a == [] {
      assert a + [r] == [r];
    } else {
      assert (a + [r])[1..] == a[1..] + [r];
      KeyCountAppend(a[1..], r, key);
    }
  }

  // ---- Chains to delete ----

  function CompileDelete(chain: string, existing: ChainState): Compiled
  {
    if existing.None? then Compiled([], 127)
    else Compiled([Flush(chain), DropChain(chain)], 127)
  }

  // ---- Override chains ----

  function Appends(chain: string, rules: seq<Rule>): (ops: seq<Op>)
    ensures |ops| == |rules| && AllOnChains(ops)
    ensures forall i | 0 <= i < |ops| :: ops[i] == Append(chain, rules[i])
  {
    seq(|rules|, i requires 0 <= i < |rules| => Append(chain, rules[i]))
  }

  function CompileOverride(chain: string, rules: seq<Rule>, existing: ChainState): Compiled
  {
    if existing == Some(rules) then Compiled([], 0)
    else Compiled([Flush(chain)] + Appends(chain, rules), -128)
  }

  class ChainOverride {
    var rules: seq<Rule>
    /** The table and chain it is registered for. */
    ghost const home: (string, string)

    constructor (ghost t: string, ghost c: string)
      ensures rules == [] && home == (t, c)
    {
      rules := [];
      home := (t, c);
    }

    method Compile(chain: string, existing: ChainState) returns (out: Compiled)
      ensures out == CompileOverride(chain, rules, existing)
    {
      if existing.Some? && |existing.value| == |rules| {
        var same := true;
        for idx := 0 to |rules|
          invariant same ==> rules[..idx] == existing.value[..idx]
          invariant !same ==> existing.value != rules
        {
          if rules[idx] != existing.value[idx] {
            same := false;
            break;
          }
        }
        if same {
          assert rules[..|rules|] == rules && existing.value[..|rules|] == existing.value;
          return Compiled([], 0);
        }
      }
      var commands := [Flush(chain)];
      for i := 0 to |rules|
        invariant commands == [Flush(chain)] + Appends(chain, rules)[..i]
      {
        commands := commands + [Append(chain, rules[i])];
      }
      out := Compiled(commands, -128);
    }

    method AppendRule(r: Rule)
      modifies this
      ensures rules == old(rules) + [r]
    {
      rules := rules + [r];
    }

    /** A position outside the list is ignored. */
    method InsertRule(ruleNum: int, r: Rule)
      modifies this
      ensures rules == if 1 <= ruleNum <= |old(rules)| + 1
                       then old(rules)[..ruleNum - 1] + [r] + old(rules)[ruleNum - 1..]
                       else old(rules)
    {
      if ruleNum < 1 || ruleNum > |rules| + 1 {
        return;
      }
      var insertIdx := ruleNum - 1;
      rules := rules + [[]];
      rules := rules[..insertIdx + 1] + rules[insertIdx..|rules| - 1];
      rules := rules[insertIdx := r];
    }

    method DeleteRule(r: Rule)
      modifies this
      ensures rules == if r in old(rules) then DeleteFirst(old(rules), r) else old(rules)
    {
      for idx := 0 to |rules|
        invariant rules == old(rules) && r !in rules[..idx]
      {
        if rules[idx] == r {
          DeleteFirstAt(rules, idx, r);
          rules := rules[..idx] + rules[idx + 1..];
          return;
        }
      }
      assert rules[..|rules|] == rules;
    }
  }

  lemma {:induction false} DeleteFirstAt(rules: seq<Rule>, idx: nat, r: Rule)
    requires idx < |rules| && rules[idx] == r && r !in rules[..idx]
    ensures r in rules && DeleteFirst(rules, r) == rules[..idx] + rules[idx + 1..]
  {
    if idx > 0 {
      var head, rest := rules[0], rules[1..];
      assert head in rules[..idx] && rules[..idx] == [head] + rest[..idx - 1];
      DeleteFirstAt(rest, idx - 1, r);
      assert rest[idx - 1 + 1..] == rules[idx + 1..];
      assert [head] + (rest[..idx - 1] + rest[idx..]) == rules[..idx] + rules[idx + 1..];
    }
  }

  // ---- Patch chains ----

  predicate DistinctRules(ordered: seq<PatchRule>)
  {
    forall i, j | 0 <= i < j < |ordered| :: ordered[i].rule != ordered[j].rule
  }

  function Without(ordered: seq<PatchRule>, r: Rule): (out: seq<PatchRule>)
  {
    if ordered == [] then []
    else (if ordered[0].rule == r then [] else [ordered[0]]) + Without(ordered[1..], r)
  }

  lemma {:induction false} WithoutAppend(a: seq<PatchRule>, b: seq<PatchRule>, r: Rule)
    ensures Without(a + b, r) == Without(a, r) + Without(b, r)
  {
    if a == [] {
      assert a + b == b;
    } else {
      assert (a + b)[1..] == a[1..] + b;
      WithoutAppend(a[1..], b, r);
    }
  }

  lemma WithoutStep(ordered: seq<PatchRule>, n: nat, r: Rule)
    requires n < |ordered|
    ensures Without(ordered[..n + 1], r) ==
            if ordered[n].rule == r then Without(ordered[..n], r) else Without(ordered[..n], r) + [ordered[n]]
  {
    assert ordered[..n + 1] == ordered[..n] + [ordered[n]];
    WithoutAppend(ordered[..n], [ordered[n]], r);
  }

  /** The first `idx` of `before` without `r` are in the first `kept` places, the rest as it was. */
  ghost predicate Compacted(now: seq<PatchRule>, before: seq<PatchRule>, kept: nat, idx: nat, r: Rule)
  {
    && kept <= idx <= |now| == |before|
    && now[idx..] == before[idx..] && now[..kept] == Without(before[..idx], r)
  }

  lemma CompactStep(now: seq<PatchRule>, before: seq<PatchRule>, kept: nat, idx: nat, r: Rule)
    requires Compacted(now, before, kept, idx, r) && idx < |before|
    ensures now[idx] == before[idx]
    ensures now[idx].rule == r ==> Compacted(now, before, kept, idx + 1, r)
    ensures now[idx].rule != r ==> Compacted(now[kept := now[idx]], before, kept + 1, idx + 1, r)
    ensures now[idx].rule != r && kept == idx ==> now[kept := now[idx]] == now
  {
    WithoutStep(before, idx, r);
    assert now[idx] == now[idx..][0] == before[idx];
    assert now[idx + 1..] == now[idx..][1..] && before[idx + 1..] == before[idx..][1..];
    if now[idx].rule != r {
      var moved := now[kept := now[idx]];
      assert moved[..kept + 1] == now[..kept] + [now[idx]];
      assert moved[idx + 1..] == now[idx + 1..];
    }
  }

  lemma CompactedAll(now: seq<PatchRule>, before: seq<PatchRule>, kept: nat, idx: nat, r: Rule)
    requires Compacted(now, before, kept, idx, r) && idx == |now|
    ensures now[..kept] == Without(before, r)
  {
    assert before[..idx] == before;
  }

  lemma {:induction false} WithoutMembers(ordered: seq<PatchRule>, r: Rule)
    ensures forall p :: p in Without(ordered, r) <==> p in ordered && p.rule != r
  {
    if ordered != [] {
      WithoutMembers(ordered[1..], r);
      assert ordered == [ordered[0]] + ordered[1..];
    }
  }

  lemma {:induction false} WithoutKeepsDistinct(ordered: seq<PatchRule>, r: Rule)
    requires DistinctRules(ordered)
    ensures DistinctRules(Without(ordered, r))
  {
    if ordered != [] {
      WithoutKeepsDistinct(ordered[1..], r);
      WithoutMembers(ordered[1..], r);
      var rest := Without(ordered[1..], r);
      forall j | 0 <= j < |rest|
        ensures rest[j].rule != ordered[0].rule
      {
        assert rest[j] in ordered[1..];
      }
    }
  }

  function Repeat(op: Op, n: nat): (ops: seq<Op>)
    ensures |ops| == n && forall i | 0 <= i < n :: ops[i] == op
  {
    seq(n, _ => op)
  }

  /** The commands for one of our rules that the kernel counts `n` times. */
  function EmitPatch(chain: string, p: PatchRule, n: nat): seq<Op>
  {
    Repeat(Delete(chain, p.rule), if n > 1 then n - 1 else 0) + SettleLast(chain, p, n > 0)
  }

  /** Once at most one copy is left. */
  function SettleLast(chain: string, p: PatchRule, present: bool): seq<Op>
  {
    match p.option
    case PatchAppend => if present then [] else [Append(chain, p.rule)]
    case PatchInsert => if present then [] else [Insert(chain, p.ruleNum, p.rule)]
    case PatchDelete => if present then [Delete(chain, p.rule)] else []
  }

  function CompilePatch(chain: string, ordered: seq<PatchRule>, existing: seq<Rule>): seq<Op>
  {
    if ordered == [] then []
    else EmitPatch(chain, ordered[0], KeyCount(existing, Key(ordered[0].rule)) % 256)
         + CompilePatch(chain, ordered[1..], existing)
  }

  lemma CompilePatchNext(chain: string, ordered: seq<PatchRule>, i: nat, existing: seq<Rule>)
    requires i < |ordered|
    ensures CompilePatch(chain, ordered[i..], existing) ==
            EmitPatch(chain, ordered[i], KeyCount(existing, Key(ordered[i].rule)) % 256)
            + CompilePatch(chain, ordered[i + 1..], existing)
  {
    assert ordered[i..][0] == ordered[i] && ordered[i..][1..] == ordered[i + 1..];
  }

  class ChainPatch {
    var orderedRules: seq<PatchRule>
    /** The table and chain it is registered for. */
    ghost const home: (string, string)

    /** Last write wins: a rule is listed once. */
    ghost predicate Valid()
      reads this
    {
      DistinctRules(orderedRules)
    }

    constructor (ghost t: string, ghost c: string)
      ensures Valid() && orderedRules == [] && home == (t, c)
    {
      orderedRules := [];
      home := (t, c);
    }

    /** Compacts the list over the entries for the same rule, then appends the new one. */
    method AddRule(r: PatchRule)
      requires Valid()
      modifies this
      ensures Valid()
      ensures orderedRules == Without(old(orderedRules), r.rule) + [r]
    {
      ghost var before := orderedRules;
      var shiftedIdx := Compact(r.rule);
      WithoutKeepsDistinct(before, r.rule);
      WithoutMembers(before, r.rule);
      orderedRules := orderedRules[..shiftedIdx] + [r];
      assert forall i | 0 <= i < shiftedIdx :: orderedRules[i] in Without(before, r.rule);
    }

    /** Shifts the entries for other rules over those for this one; they fill the first places. */
    method Compact(rule: Rule) returns (shiftedIdx: nat)
      modifies this
      ensures shiftedIdx <= |orderedRules| && orderedRules[..shiftedIdx] == Without(old(orderedRules), rule)
    {
      ghost var before := orderedRules;
      shiftedIdx := 0;
      var idx := 0;
      while idx < |orderedRules|
        invariant 0 <= shiftedIdx <= idx <= |before|
        invariant Compacted(orderedRules, before, shiftedIdx, idx, rule)
      {
        shiftedIdx := Shift(shiftedIdx, idx, rule, before);
        idx := idx + 1;
      }
      CompactedAll(orderedRules, before, shiftedIdx, idx, rule);
    }

    /** Keeps or skips the entry at `idx`. */
    method Shift(shiftedIdx: nat, idx: nat, rule: Rule, ghost before: seq<PatchRule>) returns (next: nat)
      requires Compacted(orderedRules, before, shiftedIdx, idx, rule) && idx < |orderedRules|
      modifies this
      ensures Compacted(orderedRules, before, next, idx + 1, rule)
    {
      CompactStep(orderedRules, before, shiftedIdx, idx, rule);
      if orderedRules[idx].rule == rule {
        return shiftedIdx;
      }
      if shiftedIdx != idx {
        orderedRules := orderedRules[shiftedIdx := orderedRules[idx]];
      }
      next := shiftedIdx + 1;
    }

    method AppendRule(rule: Rule)
      requires Valid()
      modifies this
      ensures Valid()
      ensures orderedRules == Without(old(orderedRules), rule) + [PatchRule(PatchAppend, 0, rule)]
    {
      AddRule(PatchRule(PatchAppend, 0, rule));
    }

    method InsertRule(ruleNum: int, rule: Rule)
      requires Valid()
      modifies this
      ensures Valid()
      ensures orderedRules == Without(old(orderedRules), rule) + [PatchRule(PatchInsert, ruleNum, rule)]
    {
      AddRule(PatchRule(PatchInsert, ruleNum, rule));
    }

    method DeleteRule(rule: Rule)
      requires Valid()
      modifies this
      ensures Valid()
      ensures orderedRules == Without(old(orderedRules), rule) + [PatchRule(PatchDelete, 0, rule)]
    {
      AddRule(PatchRule(PatchDelete, 0, rule));
    }

    /** How often each key occurs, in a counter that wraps. */
    static method CountExisting(existing: seq<Rule>) returns (counts: map<string, uint8>)
      ensures forall key :: Counted(counts, key) as int == KeyCount(existing, key) % 256
    {
      counts := map[];
      for i := 0 to |existing|
        invariant forall key :: Counted(counts, key) as int == KeyCount(existing[..i], key) % 256
      {
        var key := Key(existing[i]);
        assert existing[..i + 1] == existing[..i] + [existing[i]];
        var count := Counted(counts, key);
        ghost var before := counts;
        counts := counts[key := if count == 255 then 0 else count + 1];
        forall k
          ensures Counted(counts, k) as int == KeyCount(existing[..i + 1], k) % 256
        {
          KeyCountAppend(existing[..i], existing[i], k);
          assert Counted(before, k) as int == KeyCount(existing[..i], k) % 256;
        }
      }
      assert existing[..|existing|] == existing;
    }

    /** The commands for one rule: drop the spare copies, then settle the last one. */
    static method EmitRule(chain: string, r: PatchRule, existed: uint8) returns (commands: seq<Op>)
      ensures commands == EmitPatch(chain, r, existed as int)
    {
      commands := [];
      var count := existed;
      while count > 1
        invariant count <= existed && (existed >= 1 ==> count >= 1)
        invariant commands == Repeat(Delete(chain, r.rule), existed as int - count as int)
      {
        commands := commands + [Delete(chain, r.rule)];
        count := count - 1;
      }
      match r.option {
        case PatchAppend =>
          if count == 0 {
            commands := commands + [Append(chain, r.rule)];
          }
        case PatchInsert =>
          if count == 0 {
            commands := commands + [Insert(chain, r.ruleNum, r.rule)];
          }
        case PatchDelete =>
          if count != 0 {
            commands := commands + [Delete(chain, r.rule)];
          }
      }
    }

    method Compile(chain: string, existing: seq<Rule>) returns (out: Compiled)
      ensures out == Compiled(CompilePatch(chain, orderedRules, existing), 0)
    {
      var existedRulesMap := CountExisting(existing);
      var commands := [];
      for i := 0 to |orderedRules|
        invariant commands + CompilePatch(chain, orderedRules[i..], existing) ==
                  CompilePatch(chain, orderedRules, existing)
      {
        var r := orderedRules[i];
        var emitted := EmitRule(chain, r, Counted(existedRulesMap, Key(r.rule)));
        CompilePatchNext(chain, orderedRules, i, existing);
        assert commands + (emitted + CompilePatch(chain, orderedRules[i + 1..], existing)) ==
               commands + emitted + CompilePatch(chain, orderedRules[i + 1..], existing);
        commands := commands + emitted;
      }
      assert orderedRules[|orderedRules|..] == [];
      out := Compiled(commands, 0);
    }
  }

  function Counted(counts: map<string, uint8>, key: string): uint8
  {
    if key in counts then counts[key] else 0
  }
}

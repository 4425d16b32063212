/**
  What one commit does to one chain, whatever the kernel held before:
  an override chain becomes the model's list, a deleted chain is gone, and a patch chain
  holds each of our rules once (or not at all, if it is to be deleted) with every foreign
  rule left as it was. A second commit has nothing to say.
 */
module Convergence {
  import opened Text
  import opened Netfilter
  import opened Chains

  /** What a caller has to respect for a model to be printable and applicable:
      rules made of tokens, patch rules listed once, insert positions from 1. */
  ghost predicate GoodModel(m: ChainModel)
  {
    match m
    case DeleteModel => true
    case OverrideModel(rules) => CleanRules(rules)
    case PatchModel(ordered) =>
      && DistinctRules(ordered)
      && forall i | 0 <= i < |ordered| ::
           && CleanRule(ordered[i].rule)
           && (ordered[i].option.PatchInsert? ==> 1 <= ordered[i].ruleNum <= INT64_MAX)
  }

  ghost predicate CleanState(st: ChainState) { CleanRules(Rules(st)) }

  function CompileChain(m: ChainModel, chain: string, existing: ChainState): (out: Compiled)
    ensures out.priority in {-128, 0, 127}
  {
    match m
    case DeleteModel => CompileDelete(chain, existing)
    case OverrideModel(rules) => CompileOverride(chain, rules, existing)
    case PatchModel(ordered) => Compiled(CompilePatch(chain, ordered, Rules(existing)), 0)
  }

  /** A chain with something to do is declared first, then edited. */
  function ChainPlan(m: ChainModel, chain: string, existing: ChainState): seq<Op>
  {
    var commands := CompileChain(m, chain, existing).commands;
    if commands == [] then [] else [Declare(chain)] + commands
  }

  predicate AllNaming(ops: seq<Op>, chain: string)
  {
    forall i | 0 <= i < |ops| :: ops[i].OnChain() && ops[i].chain == chain && !ops[i].Declare?
  }

  lemma {:induction false} CompilePatchNames(chain: string, ordered: seq<PatchRule>, existing: seq<Rule>)
    ensures AllNaming(CompilePatch(chain, ordered, existing), chain)
  {
    if ordered != [] {
      CompilePatchNames(chain, ordered[1..], existing);
    }
  }

  lemma CompileNames(m: ChainModel, chain: string, existing: ChainState)
    ensures AllNaming(CompileChain(m, chain, existing).commands, chain)
    ensures AllOnChains(ChainPlan(m, chain, existing))
  {
    if m.PatchModel? {
      CompilePatchNames(chain, m.ordered, Rules(existing));
    }
  }

  // ---- Override and delete chains ----

  lemma {:induction false} RunAppends(chain: string, st: ChainState, rules: seq<Rule>)
    requires st.Some?
    ensures RunChain(st, Appends(chain, rules)) == Ok(Some(st.value + rules))
    decreases |rules|
  {
    if rules == [] {
      assert st.value + rules == st.value;
    } else {
      assert Appends(chain, rules)[1..] == Appends(chain, rules[1..]);
      RunAppends(chain, Some(st.value + [rules[0]]), rules[1..]);
      assert st.value + [rules[0]] + rules[1..] == st.value + rules;
    }
  }

  lemma OverrideConverges(chain: string, rules: seq<Rule>, st: ChainState)
    ensures AllOnChains(ChainPlan(OverrideModel(rules), chain, st))
    ensures RunChain(st, ChainPlan(OverrideModel(rules), chain, st)) == Ok(Some(rules))
  {
    var plan := ChainPlan(OverrideModel(rules), chain, st);
    if st != Some(rules) {
      RunAppends(chain, Some([]), rules);
      assert plan[1..] == [Flush(chain)] + Appends(chain, rules);
      assert plan[1..][1..] == Appends(chain, rules);
      assert [] + rules == rules;
    }
  }

  lemma DeleteConverges(chain: string, st: ChainState)
    ensures AllOnChains(ChainPlan(DeleteModel, chain, st))
    ensures RunChain(st, ChainPlan(DeleteModel, chain, st)) == Ok(None)
  {
    if st.Some? {
      var plan := ChainPlan(DeleteModel, chain, st);
      assert plan == [Declare(chain), Flush(chain), DropChain(chain)];
      assert plan[1..] == [Flush(chain), DropChain(chain)] && plan[1..][1..] == [DropChain(chain)];
      assert RunChain(Some([]), [DropChain(chain)]) == Ok(None);
    }
  }

  // ---- Patch chains ----

  /** Copies of one of our rules after a commit that found `n`: the counter wraps at 256,
      so every full block of 256 escapes it. */
  function Settled(option: PatchOption, n: nat): nat
  {
    n / 256 * 256 + if option.PatchDelete? then 0 else 1
  }

  function OurRules(ordered: seq<PatchRule>): set<Rule>
  {
    set i | 0 <= i < |ordered| :: ordered[i].rule
  }

  lemma {:induction false} RunDeletes(chain: string, st: ChainState, r: Rule, k: nat)
    requires k <= Count(Rules(st), r)
    ensures RunChain(st, Repeat(Delete(chain, r), k)).Ok?
    ensures Moved(Rules(st), Rules(RunChain(st, Repeat(Delete(chain, r), k)).value), r, 0 - k)
    decreases k
  {
    var ops := Repeat(Delete(chain, r), k);
    if k > 0 {
      CountedIsMember(Rules(st), r);
      DeleteFirstEffect(Rules(st), r);
      var next := Some(DeleteFirst(Rules(st), r));
      RunDeletes(chain, next, r, k - 1);
      assert ops[1..] == Repeat(Delete(chain, r), k - 1);
    }
  }

  lemma RunSettleLast(chain: string, st: ChainState, p: PatchRule, present: bool)
    requires p.option.PatchInsert? ==> p.ruleNum >= 1
    requires present ==> p.rule in Rules(st)
    ensures RunChain(st, SettleLast(chain, p, present)).Ok?
    ensures Moved(Rules(st), Rules(RunChain(st, SettleLast(chain, p, present)).value), p.rule,
                  (if p.option.PatchDelete? then 0 else 1) - (if present then 1 else 0))
  {
    match p.option {
      case PatchAppend =>
        AppendEffect(Rules(st), p.rule);
        RunOne(st, Append(chain, p.rule));
      case PatchInsert =>
        InsertAtEffect(Rules(st), p.ruleNum, p.rule);
        RunOne(st, Insert(chain, p.ruleNum, p.rule));
      case PatchDelete =>
        if present {
          DeleteFirstEffect(Rules(st), p.rule);
          RunOne(st, Delete(chain, p.rule));
        }
    }
  }

  /** The change in the number of copies that `EmitPatch` makes, having counted `n`. */
  function Delta(option: PatchOption, n: nat): int
  {
    (if option.PatchDelete? then 0 else 1) - n
  }

  lemma RunEmit(chain: string, st: ChainState, p: PatchRule, n: nat)
    requires p.option.PatchInsert? ==> p.ruleNum >= 1
    requires n <= Count(Rules(st), p.rule)
    ensures RunChain(st, EmitPatch(chain, p, n)).Ok?
    ensures Moved(Rules(st), Rules(RunChain(st, EmitPatch(chain, p, n)).value), p.rule, Delta(p.option, n))
  {
    var k := if n > 1 then n - 1 else 0;
    var spares, last := Repeat(Delete(chain, p.rule), k), SettleLast(chain, p, n > 0);
    RunDeletes(chain, st, p.rule, k);
    var mid := RunChain(st, spares).value;
    if n > 0 {
      CountedIsMember(Rules(mid), p.rule);
    }
    RunSettleLast(chain, mid, p, n > 0);
    RunChainAppend(st, spares, last);
    MovedTwice(Rules(st), Rules(mid), Rules(RunChain(mid, last).value), p.rule,
               0 - k, (if p.option.PatchDelete? then 0 else 1) - (if n > 0 then 1 else 0));
  }

  lemma SettledByDelta(option: PatchOption, count: nat)
    ensures count + Delta(option, count % 256) == Settled(option, count)
  {
  }

  /** All our rules settle and nothing else moves. `counted` is the chain as it was when
      the commands were compiled, `st` the chain they have reached so far. */
  lemma {:induction false} RunPatch(chain: string, ordered: seq<PatchRule>, counted: seq<Rule>, st: ChainState)
    requires GoodModel(PatchModel(ordered)) && CleanRules(counted)
    requires forall i | 0 <= i < |ordered| :: Count(Rules(st), ordered[i].rule) == Count(counted, ordered[i].rule)
    ensures AllOnChains(CompilePatch(chain, ordered, counted))
    ensures RunChain(st, CompilePatch(chain, ordered, counted)).Ok?
    ensures var out := Rules(RunChain(st, CompilePatch(chain, ordered, counted)).value);
            && Outside(out, OurRules(ordered)) == Outside(Rules(st), OurRules(ordered))
            && AllSettled(ordered, out, counted)
  {
    CompilePatchNames(chain, ordered, counted);
    if ordered != [] {
      var p, rest := ordered[0], ordered[1..];
      PatchTail(ordered);
      CompilePatchNames(chain, rest, counted);
      KeyCountIsCount(counted, p.rule);
      var emit, others := EmitPatch(chain, p, Count(counted, p.rule) % 256), CompilePatch(chain, rest, counted);
      RunHead(chain, st, p);
      var mid := RunChain(st, emit).value;
      CountsStay(ordered, counted, Rules(st), Rules(mid));
      RunPatch(chain, rest, counted, mid);
      RunChainAppend(st, emit, others);
      assert CompilePatch(chain, ordered, counted) == emit + others;
      SettleOneMore(ordered, counted, Rules(st), Rules(mid), Rules(RunChain(mid, others).value));
    }
  }

  lemma PatchTail(ordered: seq<PatchRule>)
    requires GoodModel(PatchModel(ordered)) && ordered != []
    ensures GoodModel(PatchModel(ordered[1..])) && DistinctRules(ordered) && CleanRule(ordered[0].rule)
    ensures ordered[0].option.PatchInsert? ==> ordered[0].ruleNum >= 1
  {
  }

  /** The commands for one rule settle it and move nothing else. */
  lemma RunHead(chain: string, st: ChainState, p: PatchRule)
    requires p.option.PatchInsert? ==> p.ruleNum >= 1
    ensures var ran := RunChain(st, EmitPatch(chain, p, Count(Rules(st), p.rule) % 256));
            && ran.Ok? && Outside(Rules(ran.value), {p.rule}) == Outside(Rules(st), {p.rule})
            && Count(Rules(ran.value), p.rule) == Settled(p.option, Count(Rules(st), p.rule))
  {
    RunEmit(chain, st, p, Count(Rules(st), p.rule) % 256);
    SettledByDelta(p.option, Count(Rules(st), p.rule));
  }

  lemma CountsStay(ordered: seq<PatchRule>, counted: seq<Rule>, st: seq<Rule>, mid: seq<Rule>)
    requires ordered != [] && DistinctRules(ordered)
    requires Outside(mid, {ordered[0].rule}) == Outside(st, {ordered[0].rule})
    requires forall i | 0 <= i < |ordered| :: Count(st, ordered[i].rule) == Count(counted, ordered[i].rule)
    ensures forall i | 0 <= i < |ordered[1..]| ::
            Count(mid, ordered[1..][i].rule) == Count(counted, ordered[1..][i].rule)
  {
    AgreeOutside(mid, st, {ordered[0].rule}, {ordered[0].rule});
  }

  lemma SettleOneMore(ordered: seq<PatchRule>, counted: seq<Rule>, st: seq<Rule>, mid: seq<Rule>, out: seq<Rule>)
    requires ordered != [] && DistinctRules(ordered)
    requires Outside(mid, {ordered[0].rule}) == Outside(st, {ordered[0].rule})
    requires Count(mid, ordered[0].rule) == Settled(ordered[0].option, Count(counted, ordered[0].rule))
    requires Outside(out, OurRules(ordered[1..])) == Outside(mid, OurRules(ordered[1..]))
    requires AllSettled(ordered[1..], out, counted)
    ensures Outside(out, OurRules(ordered)) == Outside(st, OurRules(ordered))
    ensures AllSettled(ordered, out, counted)
  {
    var r, rest := ordered[0].rule, ordered[1..];
    assert OurRules(rest) <= OurRules(ordered) by {
      forall x | x in OurRules(rest) ensures x in OurRules(ordered) {
        var i :| 0 <= i < |rest| && rest[i].rule == x;
        assert ordered[i + 1].rule == x;
      }
    }
    assert r !in OurRules(rest);
    AgreeOutside(mid, st, {r}, OurRules(ordered));
    AgreeOutside(out, mid, OurRules(rest), OurRules(ordered));
    forall i | 0 <= i < |ordered|
      ensures Count(out, ordered[i].rule) == Settled(ordered[i].option, Count(counted, ordered[i].rule))
    {
      if i > 0 {
        assert rest[i - 1] == ordered[i];
      }
    }
  }

  ghost predicate AllSettled(ordered: seq<PatchRule>, after: seq<Rule>, before: seq<Rule>)
  {
    forall i | 0 <= i < |ordered| ::
      Count(after, ordered[i].rule) == Settled(ordered[i].option, Count(before, ordered[i].rule))
  }

  lemma DeclareIsNoEdit(chain: string, st: ChainState, commands: seq<Op>)
    requires AllOnChains(commands)
    ensures RunChain(st, [Declare(chain)] + commands) == RunChain(Some(Rules(st)), commands)
  {
    assert ([Declare(chain)] + commands)[1..] == commands;
  }

  lemma PatchConverges(chain: string, ordered: seq<PatchRule>, st: ChainState)
    requires GoodModel(PatchModel(ordered)) && CleanState(st)
    ensures AllOnChains(ChainPlan(PatchModel(ordered), chain, st))
    ensures RunChain(st, ChainPlan(PatchModel(ordered), chain, st)).Ok?
    ensures var out := Rules(RunChain(st, ChainPlan(PatchModel(ordered), chain, st)).value);
            && Outside(out, OurRules(ordered)) == Outside(Rules(st), OurRules(ordered))
            && AllSettled(ordered, out, Rules(st))
  {
    var commands := CompilePatch(chain, ordered, Rules(st));
    RunPatch(chain, ordered, Rules(st), Some(Rules(st)));
    DeclareIsNoEdit(chain, st, commands);
    RunPatch(chain, ordered, Rules(st), st);
  }

  /** A commit leaves one copy of a rule it adds, and none of a rule it removes, exactly
      when it found fewer than 256. */
  lemma SettledIffFewerThan256(option: PatchOption, n: nat)
    ensures Settled(option, n) == (if option.PatchDelete? then 0 else 1) <==> n < 256
  {
  }

  // ---- The chain after a commit ----

  ghost function AfterCommit(m: ChainModel, chain: string, st: ChainState): ChainState
    requires GoodModel(m) && CleanState(st)
  {
    PlanRuns(m, chain, st);
    RunChain(st, ChainPlan(m, chain, st)).value
  }

  lemma PlanRuns(m: ChainModel, chain: string, st: ChainState)
    requires GoodModel(m) && CleanState(st)
    ensures AllOnChains(ChainPlan(m, chain, st)) && RunChain(st, ChainPlan(m, chain, st)).Ok?
  {
    match m
    case DeleteModel => DeleteConverges(chain, st);
    case OverrideModel(rules) => OverrideConverges(chain, rules, st);
    case PatchModel(ordered) => PatchConverges(chain, ordered, st);
  }

  /** A rule found in a chain was there before or was put there by the model. */
  ghost predicate FromBeforeOrModel(m: ChainModel, before: ChainState, r: Rule)
  {
    || r in Rules(before)
    || (m.OverrideModel? && r in m.rules)
    || (m.PatchModel? && exists p :: p in m.ordered && !p.option.PatchDelete? && p.rule == r)
  }

  lemma {:induction false} DeleteFirstMembers(rules: seq<Rule>, r: Rule)
    requires r in rules
    ensures forall x | x in DeleteFirst(rules, r) :: x in rules
  {
    if rules[0] != r {
      DeleteFirstMembers(rules[1..], r);
    }
  }

  lemma {:induction false} RunAddsOnlyCommanded(st: ChainState, ops: seq<Op>, x: Rule)
    requires AllOnChains(ops) && RunChain(st, ops).Ok? && x in Rules(RunChain(st, ops).value)
    ensures x in Rules(st) || exists op :: op in ops && (op.Append? || op.Insert?) && op.rule == x
    decreases |ops|
  {
    if ops != [] {
      var next := ChainStep(st, ops[0]).value;
      RunAddsOnlyCommanded(next, ops[1..], x);
      if x in Rules(next) && x !in Rules(st) {
        if ops[0].Delete? {
          DeleteFirstMembers(Rules(st), ops[0].rule);
        }
        assert ops[0] in ops && (ops[0].Append? || ops[0].Insert?) && ops[0].rule == x;
      }
    }
  }

  lemma {:induction false} CompilePatchAdds(chain: string, ordered: seq<PatchRule>, existing: seq<Rule>, op: Op)
    requires op in CompilePatch(chain, ordered, existing) && (op.Append? || op.Insert?)
    ensures exists p :: p in ordered && !p.option.PatchDelete? && p.rule == op.rule
  {
    var emit := EmitPatch(chain, ordered[0], KeyCount(existing, Key(ordered[0].rule)) % 256);
    if op in emit {
      assert ordered[0] in ordered;
    } else {
      CompilePatchAdds(chain, ordered[1..], existing, op);
    }
  }

  /** True of every prefix of a chain's plan, not only of its end. */
  lemma PrefixAddsOnlyModelRules(m: ChainModel, chain: string, st: ChainState, n: nat, x: Rule)
    requires n <= |ChainPlan(m, chain, st)|
    requires AllOnChains(ChainPlan(m, chain, st)) && RunChain(st, ChainPlan(m, chain, st)[..n]).Ok?
    requires x in Rules(RunChain(st, ChainPlan(m, chain, st)[..n]).value)
    ensures FromBeforeOrModel(m, st, x)
  {
    var plan := ChainPlan(m, chain, st);
    RunAddsOnlyCommanded(st, plan[..n], x);
    if x !in Rules(st) {
      var op :| op in plan[..n] && (op.Append? || op.Insert?) && op.rule == x;
      assert op in plan;
      CommandAddsModelRule(m, chain, st, op);
    }
  }

  lemma CommandAddsModelRule(m: ChainModel, chain: string, st: ChainState, op: Op)
    requires op in ChainPlan(m, chain, st) && (op.Append? || op.Insert?)
    ensures FromBeforeOrModel(m, st, op.rule)
  {
    assert op in CompileChain(m, chain, st).commands;
    if m.PatchModel? {
      CompilePatchAdds(chain, m.ordered, Rules(st), op);
    }
  }

  lemma AfterCommitIsClean(m: ChainModel, chain: string, st: ChainState)
    requires GoodModel(m) && CleanState(st)
    ensures CleanState(AfterCommit(m, chain, st))
  {
    PlanRuns(m, chain, st);
    var plan := ChainPlan(m, chain, st);
    var out := Rules(AfterCommit(m, chain, st));
    assert plan[..|plan|] == plan;
    forall i | 0 <= i < |out|
      ensures CleanRule(out[i])
    {
      PrefixAddsOnlyModelRules(m, chain, st, |plan|, out[i]);
    }
  }

  lemma {:induction false} SettledPatchIsQuiet(chain: string, ordered: seq<PatchRule>, existing: seq<Rule>,
                                               before: seq<Rule>)
    requires GoodModel(PatchModel(ordered)) && CleanRules(existing)
    requires AllSettled(ordered, existing, before)
    ensures CompilePatch(chain, ordered, existing) == []
  {
    if ordered != [] {
      KeyCountIsCount(existing, ordered[0].rule);
      assert Count(existing, ordered[0].rule) % 256 == if ordered[0].option.PatchDelete? then 0 else 1;
      SettledPatchIsQuiet(chain, ordered[1..], existing, before);
    }
  }

  /** Nothing is left to do after a commit, whatever the counts were before it. */
  lemma SecondCommitIsEmpty(m: ChainModel, chain: string, st: ChainState)
    requires GoodModel(m) && CleanState(st)
    ensures ChainPlan(m, chain, AfterCommit(m, chain, st)) == []
  {
    AfterCommitIsClean(m, chain, st);
    match m
    case DeleteModel => DeleteConverges(chain, st);
    case OverrideModel(rules) => OverrideConverges(chain, rules, st);
    case PatchModel(ordered) =>
      PatchConverges(chain, ordered, st);
      SettledPatchIsQuiet(chain, ordered, Rules(AfterCommit(m, chain, st)), Rules(st));
  }

  // ---- Order in a patch chain that holds none of our rules yet ----

  function Inserted(ordered: seq<PatchRule>): seq<Rule>
  {
    if ordered == [] then []
    else Inserted(ordered[1..]) + if ordered[0].option.PatchInsert? then [ordered[0].rule] else []
  }

  function Appended(ordered: seq<PatchRule>): seq<Rule>
  {
    if ordered == [] then []
    else (if ordered[0].option.PatchAppend? then [ordered[0].rule] else []) + Appended(ordered[1..])
  }

  ghost predicate FreshPatch(ordered: seq<PatchRule>, existing: seq<Rule>)
  {
    forall i | 0 <= i < |ordered| ::
      && Count(existing, ordered[i].rule) == 0
      && (ordered[i].option.PatchInsert? ==> ordered[i].ruleNum == 1)
  }

  function PutFresh(p: PatchRule, st: seq<Rule>): seq<Rule>
  {
    match p.option
    case PatchAppend => st + [p.rule]
    case PatchInsert => [p.rule] + st
    case PatchDelete => st
  }

  lemma RunPutFresh(chain: string, p: PatchRule, st: seq<Rule>)
    requires p.option.PatchInsert? ==> p.ruleNum == 1
    ensures RunChain(Some(st), SettleLast(chain, p, false)) == Ok(Some(PutFresh(p, st)))
  {
    match p.option {
      case PatchAppend => RunOne(Some(st), Append(chain, p.rule));
      case PatchInsert =>
        RunOne(Some(st), Insert(chain, p.ruleNum, p.rule));
        assert InsertAt(st, 1, p.rule) == [p.rule] + st;
      case PatchDelete =>
    }
  }

  lemma ShiftRight(i: seq<Rule>, st: seq<Rule>, r: Rule, a: seq<Rule>)
    ensures i + (st + [r]) + a == i + st + ([r] + a)
  {
  }

  lemma ShiftLeft(i: seq<Rule>, r: Rule, st: seq<Rule>, a: seq<Rule>)
    ensures i + ([r] + st) + a == (i + [r]) + st + a
  {
  }

  lemma FreshOrderStep(ordered: seq<PatchRule>, st: seq<Rule>)
    requires ordered != []
    ensures Inserted(ordered[1..]) + PutFresh(ordered[0], st) + Appended(ordered[1..]) ==
            Inserted(ordered) + st + Appended(ordered)
  {
    var i, a := Inserted(ordered[1..]), Appended(ordered[1..]);
    var r := ordered[0].rule;
    match ordered[0].option {
      case PatchAppend =>
        ShiftRight(i, st, r, a);
        assert Inserted(ordered) == i && Appended(ordered) == [r] + a;
      case PatchInsert =>
        ShiftLeft(i, r, st, a);
        assert Inserted(ordered) == i + [r] && Appended(ordered) == a;
      case PatchDelete =>
        assert Inserted(ordered) == i && Appended(ordered) == a;
    }
  }

  lemma CompileFresh(chain: string, ordered: seq<PatchRule>, counted: seq<Rule>)
    requires ordered != [] && CleanRule(ordered[0].rule) && CleanRules(counted) && Count(counted, ordered[0].rule) == 0
    ensures CompilePatch(chain, ordered, counted) ==
            SettleLast(chain, ordered[0], false) + CompilePatch(chain, ordered[1..], counted)
  {
    KeyCountIsCount(counted, ordered[0].rule);
    assert EmitPatch(chain, ordered[0], 0) == SettleLast(chain, ordered[0], false);
  }

  lemma {:induction false} RunFreshPatch(chain: string, ordered: seq<PatchRule>, counted: seq<Rule>, st: seq<Rule>)
    requires GoodModel(PatchModel(ordered)) && CleanRules(counted) && FreshPatch(ordered, counted)
    ensures AllOnChains(CompilePatch(chain, ordered, counted))
    ensures RunChain(Some(st), CompilePatch(chain, ordered, counted)) ==
            Ok(Some(Inserted(ordered) + st + Appended(ordered)))
    decreases |ordered|
  {
    CompilePatchNames(chain, ordered, counted);
    if ordered == [] {
      assert [] + st + [] == st;
    } else {
      var p, rest := ordered[0], ordered[1..];
      FreshTail(ordered, counted);
      CompileFresh(chain, ordered, counted);
      CompilePatchNames(chain, rest, counted);
      RunFreshPatch(chain, rest, counted, PutFresh(p, st));
      RunFreshHead(chain, p, st, CompilePatch(chain, rest, counted));
      FreshOrderStep(ordered, st);
    }
  }

  lemma FreshTail(ordered: seq<PatchRule>, counted: seq<Rule>)
    requires GoodModel(PatchModel(ordered)) && FreshPatch(ordered, counted) && ordered != []
    ensures GoodModel(PatchModel(ordered[1..])) && FreshPatch(ordered[1..], counted)
    ensures CleanRule(ordered[0].rule) && Count(counted, ordered[0].rule) == 0
    ensures ordered[0].option.PatchInsert? ==> ordered[0].ruleNum == 1
  {
  }

  lemma RunFreshHead(chain: string, p: PatchRule, st: seq<Rule>, rest: seq<Op>)
    requires (p.option.PatchInsert? ==> p.ruleNum == 1) && AllOnChains(rest)
    ensures AllOnChains(SettleLast(chain, p, false) + rest)
    ensures RunChain(Some(st), SettleLast(chain, p, false) + rest) == RunChain(Some(PutFresh(p, st)), rest)
  {
    RunPutFresh(chain, p, st);
    RunChainAppend(Some(st), SettleLast(chain, p, false), rest);
  }

  /** Rules inserted at 1 come out in front, last inserted first; appended ones at the end,
      in their order; foreign rules in between. */
  lemma FreshPatchOrder(chain: string, ordered: seq<PatchRule>, existing: seq<Rule>)
    requires GoodModel(PatchModel(ordered)) && CleanRules(existing)
    requires FreshPatch(ordered, existing)
    ensures AfterCommit(PatchModel(ordered), chain, Some(existing)) ==
            Some(Inserted(ordered) + existing + Appended(ordered))
  {
    RunFreshPatch(chain, ordered, existing, existing);
    DeclareIsNoEdit(chain, Some(existing), CompilePatch(chain, ordered, existing));
  }
}

/**
  The jumps between chains. The kernel refuses a rule that jumps to a missing chain and does
  not drop a chain that is jumped to. Registering a chain together with its jump, and taking
  both out together, keeps a registry in a form whose commits never meet these refusals,
  on every kernel that such commits, whole or cut off, have led to.
 */
module GroupJumps {
  import opened Text
  import opened Netfilter
  import opened Chains
  import opened Convergence
  import opened Reconciler
  import opened Teardown
  import opened IPTables
  import opened GroupRules
  import opened GroupRegistry
  import RefSafety
  import Preamble

  type Users = RefSafety.Users

  /** The chain is the preamble or a group's, and the joint is one of its joints. */
  ghost predicate Jointed(places: seq<Place>, chain: string, at: Joint)
  {
    || (chain == Preamble.PREAMBLE && at == PREAMBLE_JOINT)
    || exists j | 0 <= j < |places| :: chain == places[j].chain && at in Joints(places[j])
  }

  ghost predicate Ours(places: seq<Place>, chain: string)
  {
    chain == Preamble.PREAMBLE || exists j | 0 <= j < |places| :: chain == places[j].chain
  }

  // ---- Jump targets ----

  lemma {:induction false} TargetFollows(r: Rule, d: string)
    ensures d in RefSafety.Targets(r) <==> exists i | 0 <= i < |r| - 1 :: r[i] == "-j" && r[i + 1] == d
  {
    if |r| >= 2 {
      TargetFollows(r[1..], d);
      if i :| 0 <= i < |r[1..]| - 1 && r[1..][i] == "-j" && r[1..][i + 1] == d {
        assert r[i + 1] == "-j" && r[i + 2] == d;
      }
      if i :| 0 <= i < |r| - 1 && r[i] == "-j" && r[i + 1] == d {
        assert i > 0 ==> r[1..][i - 1] == "-j" && r[1..][i] == d;
      }
    }
  }

  lemma BuiltInTargets(r: Rule, d: string)
    requires StaysBuiltIn(r) && d in RefSafety.Targets(r)
    ensures IsBuiltIn(d)
  {
    TargetFollows(r, d);
  }

  lemma JumpTargets(chain: string, d: string)
    ensures d in RefSafety.Targets(Preamble.JumpTo(chain)) <==> d == chain
    ensures d in RefSafety.Targets(["-j", chain]) <==> d == chain
  {
    TargetFollows(Preamble.JumpTo(chain), d);
    TargetFollows(["-j", chain], d);
    assert Preamble.JumpTo(chain)[3] == "-j" && Preamble.JumpTo(chain)[4] == chain;
    assert ["-j", chain][0] == "-j" && ["-j", chain][1] == chain;
  }

  // ---- Joints ----

  lemma JointedIsGood(places: seq<Place>, bypass: string, chain: string, at: Joint)
    requires GoodPlaces(places, bypass) && Jointed(places, chain, at)
    ensures GoodJoint(at, chain) && !IsBuiltIn(chain)
    ensures forall d :: d in RefSafety.Targets(at.jump) <==> d == chain
  {
    forall d
      ensures d in RefSafety.Targets(Preamble.JumpTo(chain)) <==> d == chain
      ensures d in RefSafety.Targets(["-j", chain]) <==> d == chain
    {
      JumpTargets(chain, d);
    }
    if chain == Preamble.PREAMBLE && at == PREAMBLE_JOINT {
      JumpNames(Preamble.PREAMBLE);
    } else {
      var j :| 0 <= j < |places| && chain == places[j].chain && at in Joints(places[j]);
      assert GoodPlace(places[j]);
      JointsAreGood(places[j]);
      JumpForms(places[j], at);
    }
  }

  lemma JumpForms(p: Place, at: Joint)
    requires at in Joints(p)
    ensures at.jump == Preamble.JumpTo(p.chain) || at.jump == ["-j", p.chain]
  {
  }

  /** A chain has one joint in a table. */
  lemma OneJointPerTable(places: seq<Place>, bypass: string, chain: string, a: Joint, b: Joint)
    requires GoodPlaces(places, bypass) && Jointed(places, chain, a) && Jointed(places, chain, b) && a.table == b.table
    ensures a == b
  {
    if chain != Preamble.PREAMBLE {
      var i :| 0 <= i < |places| && chain == places[i].chain && a in Joints(places[i]);
      var j :| 0 <= j < |places| && chain == places[j].chain && b in Joints(places[j]);
      assert i == j;
      TablesDiffer(places[i]);
    } else if j :| 0 <= j < |places| && chain == places[j].chain {
      assert GoodPlace(places[j]);
    }
  }

  lemma OneChainPerJump(places: seq<Place>, bypass: string, c: string, a: Joint, d: string, b: Joint)
    requires GoodPlaces(places, bypass) && Jointed(places, c, a) && Jointed(places, d, b) && a.jump == b.jump
    ensures c == d
  {
    JointedIsGood(places, bypass, c, a);
    JointedIsGood(places, bypass, d, b);
  }

  // ---- The registry ----

  /** The chain has its joint in the table, and is registered with rules. */
  ghost predicate Standing(m: Model, t: string, chain: string)
  {
    Has(m, t, chain) && m[t][chain].OverrideModel? && m[t][chain].rules != []
  }

  /** A jump is registered while its chain is, and taken out with it. */
  ghost predicate FineEntry(m: Model, places: seq<Place>, t: string, c: string, e: PatchRule)
  {
    exists chain, at ::
      && Jointed(places, chain, at) && at.table == t && at.hook == c && at.jump == e.rule
      && (!e.option.PatchDelete? ==> Standing(m, t, chain))
  }

  ghost predicate TakenOut(m: Model, at: Joint)
  {
    && Has(m, at.table, at.hook) && m[at.table][at.hook].PatchModel?
    && PatchRule(PatchDelete, 0, at.jump) in m[at.table][at.hook].ordered
  }

  ghost predicate FineChain(m: Model, places: seq<Place>, t: string, c: string)
    requires Has(m, t, c)
  {
    match m[t][c]
    case OverrideModel(rules) => rules != [] && Ours(places, c) && forall r | r in rules :: StaysBuiltIn(r)
    case DeleteModel => exists at :: Jointed(places, c, at) && at.table == t && TakenOut(m, at)
    case PatchModel(ordered) => IsHook(t, c) && forall e | e in ordered :: FineEntry(m, places, t, c, e)
  }

  ghost predicate FineJumps(m: Model, places: seq<Place>)
  {
    forall t, c {:trigger FineChain(m, places, t, c)} | Has(m, t, c) :: FineChain(m, places, t, c)
  }

  lemma StartIsFine(places: seq<Place>)
    ensures FineJumps(Start(), places)
  {
    forall t, c | Has(Start(), t, c)
      ensures FineChain(Start(), places, t, c)
    {
      StartAt(t, c);
    }
  }

  // ---- Placing and clearing ----

  /** A chain registered as `x` and its jump as `e`, nothing else touched. */
  ghost predicate Edited(m: Model, out: Model, chain: string, at: Joint, x: ChainModel, e: PatchRule)
    requires Hooked(m) && IsHook(at.table, at.hook)
  {
    && e.rule == at.jump
    && At(out, at.table, chain) == Some(x)
    && At(out, at.table, at.hook) == Some(PatchModel(Without(m[at.table][at.hook].ordered, at.jump) + [e]))
    && forall u, d | (u, d) != (at.table, chain) && (u, d) != (at.table, at.hook) :: At(out, u, d) == At(m, u, d)
  }

  lemma PlacedIsEdited(m: Model, chain: string, rules: seq<Rule>, at: Joint, front: bool)
    requires Hooked(m) && GoodJoint(at, chain)
    ensures Edited(m, Placed(m, chain, rules, at, front), chain, at, OverrideModel(rules), JumpEntry(at, front))
    ensures Edited(m, Cleared(m, chain, at), chain, at, DeleteModel, PatchRule(PatchDelete, 0, at.jump))
  {
    assert chain != at.hook;
  }

  /** What a chain and its jump may be registered as, together. */
  predicate Together(x: ChainModel, e: PatchRule)
  {
    match x
    case OverrideModel(rules) => rules != [] && !e.option.PatchDelete?
    case DeleteModel => e.option.PatchDelete? && e.ruleNum == 0
    case PatchModel(_) => false
  }

  lemma EntryStays(m: Model, out: Model, places: seq<Place>, bypass: string, chain: string, at: Joint, x: ChainModel,
                   e: PatchRule, t: string, c: string, kept: PatchRule)
    requires GoodPlaces(places, bypass) && Jointed(places, chain, at) && Hooked(m) && IsHook(at.table, at.hook)
    requires Edited(m, out, chain, at, x, e) && FineEntry(m, places, t, c, kept)
    requires (t, c) != (at.table, at.hook) || kept.rule != at.jump
    ensures FineEntry(out, places, t, c, kept)
  {
    var chain0, at0 :| Jointed(places, chain0, at0) && at0.table == t && at0.hook == c && at0.jump == kept.rule
                       && (!kept.option.PatchDelete? ==> Standing(m, t, chain0));
    JointedIsGood(places, bypass, chain0, at0);
    if chain0 == chain && t == at.table {
      OneJointPerTable(places, bypass, chain, at, at0);
    }
    assert At(out, t, chain0) == At(m, t, chain0);
    assert !kept.option.PatchDelete? ==> Standing(out, t, chain0);
  }

  lemma EntriesOfHook(ordered: seq<PatchRule>, jump: Rule, e: PatchRule, kept: PatchRule)
    ensures kept in Without(ordered, jump) + [e] <==> kept == e || (kept in ordered && kept.rule != jump)
  {
    WithoutMembers(ordered, jump);
  }

  lemma TakenOutStays(m: Model, out: Model, chain: string, at: Joint, x: ChainModel, e: PatchRule, other: Joint)
    requires Hooked(m) && IsHook(at.table, at.hook) && Edited(m, out, chain, at, x, e) && TakenOut(m, other)
    requires other.jump != at.jump || (other.table, other.hook) != (at.table, at.hook)
    requires !IsHook(other.table, chain) && IsHook(other.table, other.hook)
    ensures TakenOut(out, other)
  {
    if (other.table, other.hook) == (at.table, at.hook) {
      EntriesOfHook(m[at.table][at.hook].ordered, at.jump, e, PatchRule(PatchDelete, 0, other.jump));
      assert At(out, at.table, at.hook).value.PatchModel?;
    } else {
      assert At(out, other.table, other.hook) == At(m, other.table, other.hook);
    }
  }

  lemma OtherChainStaysFine(m: Model, out: Model, places: seq<Place>, bypass: string, chain: string, at: Joint,
                            x: ChainModel, e: PatchRule, t: string, c: string)
    requires GoodPlaces(places, bypass) && Jointed(places, chain, at) && GoodJoint(at, chain) && Hooked(m)
    requires Edited(m, out, chain, at, x, e) && Has(m, t, c) && FineChain(m, places, t, c)
    requires (t, c) != (at.table, chain) && (t, c) != (at.table, at.hook)
    ensures Has(out, t, c) && FineChain(out, places, t, c)
  {
    assert At(out, t, c) == At(m, t, c);
    match m[t][c]
    case OverrideModel(rules) =>
    case DeleteModel =>
      var at0 :| Jointed(places, c, at0) && at0.table == t && TakenOut(m, at0);
      JointedIsGood(places, bypass, c, at0);
      if at0.jump == at.jump {
        OneChainPerJump(places, bypass, c, at0, chain, at);
      }
      TakenOutStays(m, out, chain, at, x, e, at0);
    case PatchModel(ordered) =>
      forall kept | kept in ordered
        ensures FineEntry(out, places, t, c, kept)
      {
        EntryStays(m, out, places, bypass, chain, at, x, e, t, c, kept);
      }
  }

  lemma EditedHookIsFine(m: Model, out: Model, places: seq<Place>, bypass: string, chain: string, at: Joint,
                         x: ChainModel, e: PatchRule)
    requires GoodPlaces(places, bypass) && Jointed(places, chain, at) && GoodJoint(at, chain) && Hooked(m)
    requires Edited(m, out, chain, at, x, e) && Together(x, e) && FineChain(m, places, at.table, at.hook)
    ensures Has(out, at.table, at.hook) && FineChain(out, places, at.table, at.hook)
  {
    var before := m[at.table][at.hook].ordered;
    forall kept | kept in Without(before, at.jump) + [e]
      ensures FineEntry(out, places, at.table, at.hook, kept)
    {
      EntriesOfHook(before, at.jump, e, kept);
      if kept == e {
        assert x.OverrideModel? ==> Standing(out, at.table, chain);
      } else {
        EntryStays(m, out, places, bypass, chain, at, x, e, at.table, at.hook, kept);
      }
    }
  }

  lemma EditedChainIsFine(m: Model, out: Model, places: seq<Place>, chain: string, at: Joint, x: ChainModel,
                          e: PatchRule)
    requires Jointed(places, chain, at) && GoodJoint(at, chain) && Hooked(m)
    requires Edited(m, out, chain, at, x, e) && Together(x, e)
    requires x.OverrideModel? ==> forall r | r in x.rules :: StaysBuiltIn(r)
    ensures Has(out, at.table, chain) && FineChain(out, places, at.table, chain)
  {
    if x.DeleteModel? {
      EntriesOfHook(m[at.table][at.hook].ordered, at.jump, e, e);
      assert TakenOut(out, at);
    }
  }

  lemma EditKeepsFine(m: Model, out: Model, places: seq<Place>, bypass: string, chain: string, at: Joint, x: ChainModel,
                      e: PatchRule)
    requires GoodPlaces(places, bypass) && Jointed(places, chain, at) && GoodJoint(at, chain) && Hooked(m)
    requires FineJumps(m, places) && Edited(m, out, chain, at, x, e) && Together(x, e)
    requires x.OverrideModel? ==> forall r | r in x.rules :: StaysBuiltIn(r)
    ensures FineJumps(out, places)
  {
    EditedChainIsFine(m, out, places, chain, at, x, e);
    assert FineChain(m, places, at.table, at.hook);
    EditedHookIsFine(m, out, places, bypass, chain, at, x, e);
    forall t, c | Has(out, t, c)
      ensures FineChain(out, places, t, c)
    {
      if (t, c) != (at.table, chain) && (t, c) != (at.table, at.hook) {
        assert At(out, t, c) == At(m, t, c);
        assert FineChain(m, places, t, c);
        OtherChainStaysFine(m, out, places, bypass, chain, at, x, e, t, c);
      }
    }
  }

  lemma {:induction false} PlacingKeepsFine(m: Model, places: seq<Place>, j: nat, mode: Mode, joints: seq<Joint>)
    requires GoodPlaces(places, mode.bypass) && j < |places| && Hooked(m) && FineJumps(m, places)
    requires forall i | 0 <= i < |joints| :: joints[i] in Joints(places[j])
    ensures FineJumps(PlacedAt(m, places[j], mode, joints), places) && Hooked(PlacedAt(m, places[j], mode, joints))
  {
    if joints != [] {
      var p, rest, last := places[j], joints[..|joints| - 1], joints[|joints| - 1];
      var mid, rules := PlacedAt(m, p, mode, rest), [Guard(mode.bypass)] + RulesIn(p, last.table, mode.mark);
      PlacingKeepsFine(m, places, j, mode, rest);
      assert Jointed(places, p.chain, last);
      JointedIsGood(places, mode.bypass, p.chain, last);
      GuardedStayBuiltIn(p, mode.bypass, RulesIn(p, last.table, mode.mark)) by {
        RulesAreOwn(p, last.table, mode.mark);
      }
      PlacedIsEdited(mid, p.chain, rules, last, InFront(p, mode.byOrder));
      PlacedHangs(mid, p.chain, rules, last, InFront(p, mode.byOrder));
      EditKeepsFine(mid, Placed(mid, p.chain, rules, last, InFront(p, mode.byOrder)), places, mode.bypass,
                    p.chain, last, OverrideModel(rules), JumpEntry(last, InFront(p, mode.byOrder)));
    }
  }

  lemma GuardedStayBuiltIn(p: Place, bypass: string, rules: seq<Rule>)
    requires AllOwn(p, rules) && IsToken(bypass) && IsName(bypass)
    ensures forall r | r in [Guard(bypass)] + rules :: StaysBuiltIn(r)
  {
    GuardNames(bypass);
  }

  lemma ClearedKeepsFine(m: Model, places: seq<Place>, bypass: string, chain: string, at: Joint)
    requires GoodPlaces(places, bypass) && Jointed(places, chain, at) && Hooked(m) && FineJumps(m, places)
    ensures FineJumps(Cleared(m, chain, at), places) && Hooked(Cleared(m, chain, at))
  {
    JointedIsGood(places, bypass, chain, at);
    PlacedIsEdited(m, chain, [], at, false);
    PlacedHangs(m, chain, [], at, false);
    EditKeepsFine(m, Cleared(m, chain, at), places, bypass, chain, at, DeleteModel, PatchRule(PatchDelete, 0, at.jump));
  }

  lemma {:induction false} ClearingKeepsFine(m: Model, places: seq<Place>, bypass: string, j: nat, joints: seq<Joint>)
    requires GoodPlaces(places, bypass) && j < |places| && Hooked(m) && FineJumps(m, places)
    requires forall i | 0 <= i < |joints| :: joints[i] in Joints(places[j])
    ensures FineJumps(ClearedAt(m, places[j].chain, joints), places) && Hooked(ClearedAt(m, places[j].chain, joints))
  {
    if joints != [] {
      var rest, last := joints[..|joints| - 1], joints[|joints| - 1];
      ClearingKeepsFine(m, places, bypass, j, rest);
      assert Jointed(places, places[j].chain, last);
      ClearedKeepsFine(ClearedAt(m, places[j].chain, rest), places, bypass, places[j].chain, last);
    }
  }

  lemma PreambleKeepsFine(m: Model, places: seq<Place>, bypass: string)
    requires GoodPlaces(places, bypass) && Hooked(m) && FineJumps(m, places)
    ensures FineJumps(PreamblePlaced(m, bypass), places) && FineJumps(PreambleCleared(m), places)
  {
    var rules := PreambleRules(bypass);
    assert Jointed(places, Preamble.PREAMBLE, PREAMBLE_JOINT);
    JointedIsGood(places, bypass, Preamble.PREAMBLE, PREAMBLE_JOINT);
    GuardNames(bypass);
    RestoreMarkNames();
    MarkedPassNames();
    PlacedIsEdited(m, Preamble.PREAMBLE, rules, PREAMBLE_JOINT, false);
    EditKeepsFine(m, PreamblePlaced(m, bypass), places, bypass, Preamble.PREAMBLE, PREAMBLE_JOINT, OverrideModel(rules),
                  JumpEntry(PREAMBLE_JOINT, false));
    ClearedKeepsFine(m, places, bypass, Preamble.PREAMBLE, PREAMBLE_JOINT);
  }

  // ---- The kernel ----

  function RulesAt(k: Kernel, t: string, c: string): seq<Rule> { Rules(ChainAt(k, t, c)) }

  ghost predicate JumpsToOurs(r: Rule, places: seq<Place>)
  {
    exists d :: d in RefSafety.Targets(r) && Ours(places, d)
  }

  /** A kernel rule that jumps to a chain of ours is that chain's jump, in the built-in chain
      it belongs to, while the chain is registered; and there are few copies of it. */
  ghost predicate FineJump(k: Kernel, m: Model, places: seq<Place>, t: string, c: string, r: Rule)
  {
    exists d, at ::
      && Jointed(places, d, at) && at.table == t && at.hook == c && at.jump == r && Has(m, t, d)
      && Count(RulesAt(k, t, c), r) < 256
  }

  ghost predicate FineKernel(k: Kernel, m: Model, places: seq<Place>)
  {
    forall t, c, r {:trigger FineJump(k, m, places, t, c, r)} | r in RulesAt(k, t, c) && JumpsToOurs(r, places) ::
      FineJump(k, m, places, t, c, r)
  }

  ghost predicate NoJumpsToOurs(k: Kernel, places: seq<Place>)
  {
    forall t, c, r | r in RulesAt(k, t, c) :: !JumpsToOurs(r, places)
  }

  /** None of the names the kernel takes for chains is a built-in target. */
  ghost predicate GoodUsers(users: Users) { forall t, d | d in users(t) :: !IsBuiltIn(d) }

  lemma EntryTargets(m: Model, places: seq<Place>, bypass: string, t: string, c: string, e: PatchRule, d: string)
    requires GoodPlaces(places, bypass) && FineEntry(m, places, t, c, e) && d in RefSafety.Targets(e.rule)
    ensures exists at :: Jointed(places, d, at) && at.table == t && at.hook == c && at.jump == e.rule
    ensures !e.option.PatchDelete? ==> Standing(m, t, d)
    ensures !IsBuiltIn(d)
  {
    var chain, at :| Jointed(places, chain, at) && at.table == t && at.hook == c && at.jump == e.rule
                     && (!e.option.PatchDelete? ==> Standing(m, t, chain));
    JointedIsGood(places, bypass, chain, at);
  }

  lemma AddsGoWhereChainsLast(m: Model, k: Kernel, places: seq<Place>, bypass: string, t: string, c: string, r: Rule,
                              d: string)
    requires GoodPlaces(places, bypass) && FineJumps(m, places) && Has(m, t, c)
    requires RefSafety.Adds(m[t][c], r) && d in RefSafety.Targets(r)
    ensures IsBuiltIn(d) || (Standing(m, t, d) && RefSafety.Lasting(m[t], TableOf(k, t), d))
  {
    assert FineChain(m, places, t, c);
    match m[t][c]
    case OverrideModel(rules) => BuiltInTargets(r, d);
    case PatchModel(ordered) =>
      var e :| e in ordered && !e.option.PatchDelete? && e.rule == r;
      assert FineEntry(m, places, t, c, e);
      EntryTargets(m, places, bypass, t, c, e, d);
      var rules := m[t][d].rules;
      if d !in TableOf(k, t) {
        assert CompileOverride(d, rules, None).commands != [];
      }
  }

  lemma DeletedIsOurs(m: Model, places: seq<Place>, t: string, d: string)
    requires FineJumps(m, places) && Has(m, t, d) && m[t][d].DeleteModel?
    ensures Ours(places, d)
    ensures exists at :: Jointed(places, d, at) && at.table == t && TakenOut(m, at)
  {
    assert FineChain(m, places, t, d);
    var at :| Jointed(places, d, at) && at.table == t && TakenOut(m, at);
  }

  lemma JumpsAreTakenOut(m: Model, k: Kernel, places: seq<Place>, bypass: string, t: string, c: string, r: Rule,
                         d: string)
    requires GoodPlaces(places, bypass) && FineJumps(m, places) && FineKernel(k, m, places)
    requires r in RulesAt(k, t, c) && d in RefSafety.Targets(r) && Has(m, t, d) && m[t][d].DeleteModel?
    ensures Has(m, t, c) && m[t][c].PatchModel? && Count(RulesAt(k, t, c), r) < 256
    ensures PatchRule(PatchDelete, 0, r) in m[t][c].ordered
  {
    DeletedIsOurs(m, places, t, d);
    assert JumpsToOurs(r, places) && FineJump(k, m, places, t, c, r);
    var d0, at0 :| Jointed(places, d0, at0) && at0.table == t && at0.hook == c && at0.jump == r;
    JointedIsGood(places, bypass, d0, at0);
    assert d0 == d;
    var at :| Jointed(places, d, at) && at.table == t && TakenOut(m, at);
    OneJointPerTable(places, bypass, d, at, at0);
  }

  /** Commits of such a registry on such a kernel are ones the strict kernel accepts. */
  lemma CommitIsSafe(m: Model, k: Kernel, places: seq<Place>, bypass: string, users: Users)
    requires GoodPlaces(places, bypass) && FineJumps(m, places) && FineKernel(k, m, places)
    requires GoodUsers(users) && RefSafety.KernelRefSafe(k, users)
    ensures RefSafety.SafeCommit(m, k, users)
  {
    forall t | t in m
      ensures RefSafety.AddsSafeJumps(m[t], TableOf(k, t), users(t)) && RefSafety.TakesJumpsOut(m[t], TableOf(k, t))
    {
      TableIsSafe(m, k, places, bypass, users, t);
    }
  }

  lemma TableIsSafe(m: Model, k: Kernel, places: seq<Place>, bypass: string, users: Users, t: string)
    requires GoodPlaces(places, bypass) && FineJumps(m, places) && FineKernel(k, m, places) && GoodUsers(users)
             && t in m
    ensures RefSafety.AddsSafeJumps(m[t], TableOf(k, t), users(t)) && RefSafety.TakesJumpsOut(m[t], TableOf(k, t))
  {
    var cur := TableOf(k, t);
    forall c, r, d | c in m[t] && RefSafety.Adds(m[t][c], r) && d in RefSafety.Targets(r)
      ensures d in users(t) ==> RefSafety.Lasting(m[t], cur, d)
      ensures !(d in m[t] && m[t][d].DeleteModel?)
    {
      assert Has(m, t, c);
      AddsGoWhereChainsLast(m, k, places, bypass, t, c, r, d);
      if d in m[t] && m[t][d].DeleteModel? {
        DeletedIsNoTarget(m, places, bypass, t, d);
      }
    }
    forall c, r, d | c in cur && r in cur[c] && d in RefSafety.Targets(r) && d in m[t] && m[t][d].DeleteModel?
      ensures c in m[t] && m[t][c].PatchModel? && Count(cur[c], r) < 256
              && PatchRule(PatchDelete, 0, r) in m[t][c].ordered
    {
      assert RulesAt(k, t, c) == cur[c];
      JumpsAreTakenOut(m, k, places, bypass, t, c, r, d);
    }
  }

  lemma DeletedIsNoTarget(m: Model, places: seq<Place>, bypass: string, t: string, d: string)
    requires GoodPlaces(places, bypass) && FineJumps(m, places) && Has(m, t, d) && m[t][d].DeleteModel?
    ensures !IsBuiltIn(d) && !Standing(m, t, d)
  {
    DeletedIsOurs(m, places, t, d);
    var at :| Jointed(places, d, at) && at.table == t && TakenOut(m, at);
    JointedIsGood(places, bypass, d, at);
  }

  // ---- What commits make of the kernel ----

  lemma SettledIsFew(option: PatchOption, n: nat)
    ensures n < 256 ==> Settled(option, n) < 256 && (option.PatchDelete? ==> Settled(option, n) == 0)
  {
  }

  /** A rule of ours in a patched chain, after the commit: there are few, and it was wanted. */
  lemma SettledJumps(m: Model, k: Kernel, t: string, c: string, i: nat)
    requires GoodConfig(m) && CleanKernel(k) && Has(m, t, c) && m[t][c].PatchModel? && i < |m[t][c].ordered|
    requires Count(RulesAt(k, t, c), m[t][c].ordered[i].rule) < 256
    requires m[t][c].ordered[i].rule in RulesAt(AfterKernel(m, k), t, c)
    ensures Count(RulesAt(AfterKernel(m, k), t, c), m[t][c].ordered[i].rule) < 256
    ensures !m[t][c].ordered[i].option.PatchDelete?
  {
    var e, before, after := m[t][c].ordered[i], RulesAt(k, t, c), RulesAt(AfterKernel(m, k), t, c);
    AfterCommitHolds(m, k, t, c);
    assert Count(after, e.rule) == Settled(e.option, Count(before, e.rule));
    CountedIsMember(after, e.rule);
    SettledIsFew(e.option, Count(before, e.rule));
  }

  lemma SettledJumpIsFine(m: Model, k: Kernel, places: seq<Place>, bypass: string, t: string, c: string, r: Rule)
    requires GoodPlaces(places, bypass) && GoodConfig(m) && CleanKernel(k)
    requires FineJumps(m, places) && FineKernel(k, m, places)
    requires Has(m, t, c) && m[t][c].PatchModel? && r in OurRules(m[t][c].ordered)
    requires r in RulesAt(AfterKernel(m, k), t, c)
    ensures FineJump(AfterKernel(m, k), m, places, t, c, r)
  {
    var ordered := m[t][c].ordered;
    var i :| 0 <= i < |ordered| && ordered[i].rule == r;
    assert FineChain(m, places, t, c) && ordered[i] in ordered;
    EntryJumps(m, places, bypass, t, c, ordered[i]);
    FewBefore(k, m, places, t, c, r);
    SettledJumps(m, k, t, c, i);
    var d, at :| Jointed(places, d, at) && at.table == t && at.hook == c && at.jump == r && Standing(m, t, d);
    assert Has(m, t, d);
  }

  lemma EntryJumps(m: Model, places: seq<Place>, bypass: string, t: string, c: string, e: PatchRule)
    requires GoodPlaces(places, bypass) && FineEntry(m, places, t, c, e)
    ensures JumpsToOurs(e.rule, places)
    ensures !e.option.PatchDelete? ==> exists d, at ::
              Jointed(places, d, at) && at.table == t && at.hook == c && at.jump == e.rule && Standing(m, t, d)
  {
    var d, at :| Jointed(places, d, at) && at.table == t && at.hook == c && at.jump == e.rule
                 && (!e.option.PatchDelete? ==> Standing(m, t, d));
    JointedIsGood(places, bypass, d, at);
    JointedIsOurs(places, d, at);
  }

  lemma JointedIsOurs(places: seq<Place>, d: string, at: Joint)
    requires Jointed(places, d, at)
    ensures Ours(places, d)
  {
  }

  lemma FewBefore(k: Kernel, m: Model, places: seq<Place>, t: string, c: string, r: Rule)
    requires FineKernel(k, m, places) && JumpsToOurs(r, places)
    ensures Count(RulesAt(k, t, c), r) < 256
  {
    CountedIsMember(RulesAt(k, t, c), r);
    if r in RulesAt(k, t, c) {
      assert FineJump(k, m, places, t, c, r);
    }
  }

  lemma OtherRulesAsBefore(m: Model, k: Kernel, t: string, c: string, r: Rule)
    requires GoodConfig(m) && CleanKernel(k)
    requires Has(m, t, c) ==> m[t][c].PatchModel? && r !in OurRules(m[t][c].ordered)
    requires r in RulesAt(AfterKernel(m, k), t, c)
    ensures r in RulesAt(k, t, c) && Count(RulesAt(AfterKernel(m, k), t, c), r) == Count(RulesAt(k, t, c), r)
  {
    AfterCommitHolds(m, k, t, c);
    var before, after := RulesAt(k, t, c), RulesAt(AfterKernel(m, k), t, c);
    if Has(m, t, c) {
      var ours := OurRules(m[t][c].ordered);
      AgreeOutside(after, before, ours, ours);
    }
    CountedIsMember(after, r);
    CountedIsMember(before, r);
  }

  lemma JumpAfterIsFine(m: Model, k: Kernel, places: seq<Place>, bypass: string, t: string, c: string, r: Rule)
    requires GoodPlaces(places, bypass) && GoodConfig(m) && CleanKernel(k)
    requires FineJumps(m, places) && FineKernel(k, m, places)
    requires r in RulesAt(AfterKernel(m, k), t, c) && JumpsToOurs(r, places)
    ensures FineJump(AfterKernel(m, k), m, places, t, c, r)
  {
    if Has(m, t, c) && !(m[t][c].PatchModel? && r !in OurRules(m[t][c].ordered)) {
      AfterCommitHolds(m, k, t, c);
      if m[t][c].PatchModel? {
        SettledJumpIsFine(m, k, places, bypass, t, c, r);
      } else {
        assert FineChain(m, places, t, c);
        var d :| d in RefSafety.Targets(r) && Ours(places, d);
        OursAreNotBuiltIn(places, bypass, d);
        BuiltInTargets(r, d);
        assert false;
      }
    } else {
      OtherRulesAsBefore(m, k, t, c, r);
      assert FineJump(k, m, places, t, c, r);
    }
  }

  lemma OursAreNotBuiltIn(places: seq<Place>, bypass: string, d: string)
    requires GoodPlaces(places, bypass) && Ours(places, d)
    ensures !IsBuiltIn(d)
  {
    if d != Preamble.PREAMBLE {
      var j :| 0 <= j < |places| && d == places[j].chain;
      assert GoodPlace(places[j]);
    }
  }

  lemma CommitKeepsFine(m: Model, k: Kernel, places: seq<Place>, bypass: string, visited: set<string>)
    requires GoodPlaces(places, bypass) && GoodConfig(m) && CleanKernel(k)
    requires FineJumps(m, places) && FineKernel(k, m, places)
    ensures FineKernel(AfterKernel(m, k), m, places) && FineKernel(Partly(visited, m, k), m, places)
  {
    forall t, c, r | r in RulesAt(AfterKernel(m, k), t, c) && JumpsToOurs(r, places)
      ensures FineJump(AfterKernel(m, k), m, places, t, c, r)
    {
      JumpAfterIsFine(m, k, places, bypass, t, c, r);
    }
    CutOffKeepsFine(m, k, places, visited);
  }

  lemma CutOffKeepsFine(m: Model, k: Kernel, places: seq<Place>, visited: set<string>)
    requires GoodConfig(m) && CleanKernel(k) && FineKernel(k, m, places) && FineKernel(AfterKernel(m, k), m, places)
    ensures FineKernel(Partly(visited, m, k), m, places)
  {
    forall t, c, r | r in RulesAt(Partly(visited, m, k), t, c) && JumpsToOurs(r, places)
      ensures FineJump(Partly(visited, m, k), m, places, t, c, r)
    {
      PartlyByChain(visited, m, k, t, c);
      var from := if t in visited then AfterKernel(m, k) else k;
      assert RulesAt(Partly(visited, m, k), t, c) == RulesAt(from, t, c);
      assert FineJump(from, m, places, t, c, r);
    }
  }

  /** The registry grows. */
  lemma FineKernelGrows(k: Kernel, m: Model, more: Model, places: seq<Place>)
    requires FineKernel(k, m, places) && Grows(m, more)
    ensures FineKernel(k, more, places)
  {
    forall t, c, r | r in RulesAt(k, t, c) && JumpsToOurs(r, places)
      ensures FineJump(k, more, places, t, c, r)
    {
      assert FineJump(k, m, places, t, c, r);
    }
  }

  /** Rules that jump to chains of ours become fewer, if anything. */
  ghost predicate JumpsLess(k: Kernel, before: Kernel, places: seq<Place>)
  {
    forall t, c, r {:trigger Count(RulesAt(k, t, c), r)} | JumpsToOurs(r, places) ::
      Count(RulesAt(k, t, c), r) <= Count(RulesAt(before, t, c), r)
  }

  lemma LossKeepsFine(k: Kernel, before: Kernel, m: Model, places: seq<Place>)
    requires FineKernel(before, m, places) && JumpsLess(k, before, places)
    ensures FineKernel(k, m, places)
  {
    forall t, c, r | r in RulesAt(k, t, c) && JumpsToOurs(r, places)
      ensures FineJump(k, m, places, t, c, r)
    {
      CountedIsMember(RulesAt(k, t, c), r);
      assert Count(RulesAt(k, t, c), r) <= Count(RulesAt(before, t, c), r);
      CountedIsMember(RulesAt(before, t, c), r);
      assert FineJump(before, m, places, t, c, r);
    }
  }

  // ---- No rule jumps to a missing chain ----

  /** Some visit of all tables and chains. */
  lemma {:induction false} SomeOrder(keys: set<string>) returns (order: seq<string>)
    ensures Enumerates(order, keys)
    decreases |keys|
  {
    if keys == {} {
      order := [];
    } else {
      var x :| x in keys;
      var rest := SomeOrder(keys - {x});
      order := rest + [x];
      assert keys - {x} == keys - ({} + {x}) && keys - {} == keys;
      EnumeratesSnoc(rest, keys, {}, x);
    }
  }

  ghost function OrderOf(keys: set<string>): (order: seq<string>)
    ensures Enumerates(order, keys)
  {
    OrderExists(keys);
    var order :| Enumerates(order, keys);
    order
  }

  lemma OrderExists(keys: set<string>)
    ensures exists order :: Enumerates(order, keys)
  {
    var order := SomeOrder(keys);
  }

  ghost function SomeVisit(m: Model): (v: Visit)
    ensures v.Covers(m)
  {
    Visit(OrderOf(m.Keys), map t | t in m :: OrderOf(m[t].Keys))
  }

  lemma TargetsWhenCutOff(m: Model, k: Kernel, users: Users, visited: set<string>)
    requires GoodConfig(m) && CleanKernel(k)
    requires RefSafety.KernelRefSafe(k, users) && RefSafety.KernelRefSafe(AfterKernel(m, k), users)
    ensures RefSafety.KernelRefSafe(Partly(visited, m, k), users)
  {
    forall t | t in Partly(visited, m, k)
      ensures RefSafety.RefSafe(Partly(visited, m, k)[t], users(t))
    {
      PartlyAt(visited, m, k, t);
      PartlyAt(m.Keys, m, k, t);
    }
  }

  /** A commit, whole or cut off, leaves every jump target present. */
  lemma CommitKeepsTargets(m: Model, k: Kernel, users: Users, visited: set<string>)
    requires GoodConfig(m) && CleanKernel(k) && RefSafety.SafeCommit(m, k, users)
    ensures RefSafety.KernelRefSafe(AfterKernel(m, k), users)
    ensures RefSafety.KernelRefSafe(Partly(visited, m, k), users)
  {
    var v := SomeVisit(m);
    var script := CommitScript(v, m, k);
    RefSafety.CommitIsRefSafe(v, m, k, users);
    CommitConverges(v, m, k);
    assert script[..|script|] == script;
    TargetsWhenCutOff(m, k, users, visited);
  }
}

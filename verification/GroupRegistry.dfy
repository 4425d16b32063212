/**
  The groups' chains in one family's registry and in its kernel. Whatever order groups are
  enabled and disabled in, and however commits end, a registered chain that names a
  group's set is the group's own, and so is every kernel chain that does. So once the rules
  of a group are taken out of the registry and committed, nothing names its sets.
 */
module GroupRegistry {
  import opened Text
  import opened Netfilter
  import opened Chains
  import opened Convergence
  import opened Reconciler
  import opened Teardown
  import opened IPTables
  import opened GroupRules
  import Preamble

  function At(m: Model, t: string, c: string): Option<ChainModel> { if Has(m, t, c) then Some(m[t][c]) else None }

  lemma RegisteredAt(m: Model, t: string, c: string, x: ChainModel)
    ensures forall u, d :: At(Registered(m, t, c, x), u, d) == if (u, d) == (t, c) then Some(x) else At(m, u, d)
  {
  }

  // ---- The calls of one chain ----

  /** Registers a chain with its rules, then the jump that leads to it. */
  function Placed(m: Model, chain: string, rules: seq<Rule>, at: Joint, front: bool): Model
  {
    var own := Registered(m, at.table, chain, OverrideModel(rules));
    if !Has(own, at.table, at.hook) then own
    else
      var hook := own[at.table][at.hook];
      Registered(own, at.table, at.hook, if front then Inserting(hook, 1, at.jump) else Appending(hook, at.jump))
  }

  /** Registers a chain for deletion and takes the jump out. */
  function Cleared(m: Model, chain: string, at: Joint): Model
  {
    var own := Registered(m, at.table, chain, DeleteModel);
    if !Has(own, at.table, at.hook) then own
    else Registered(own, at.table, at.hook, Deleting(own[at.table][at.hook], at.jump))
  }

  // ---- What stays true ----

  ghost predicate StandsIn(p: Place, t: string)
  {
    exists i | 0 <= i < |Joints(p)| :: Joints(p)[i].table == t
  }

  /** A registered chain that is a group's name no other group's set, is not added to a
      foreign chain, and has rules only while the group may have rules. */
  ghost predicate SoundChain(x: ChainModel, t: string, c: string, places: seq<Place>, up: set<nat>)
  {
    match x
    case DeleteModel => true
    case PatchModel(ordered) =>
      && (forall i | 0 <= i < |ordered| :: Silent(ordered[i].rule))
      && (forall j | 0 <= j < |places| :: c != places[j].chain)
    case OverrideModel(rules) =>
      && (forall j | 0 <= j < |places| && c == places[j].chain :: j in up && StandsIn(places[j], t))
      && (forall j, name | 0 <= j < |places| && c != places[j].chain && name in places[j].owned ::
            !SomeMentions(rules, name))
  }

  /** The built-in chains are registered, to be patched. */
  ghost predicate Hooked(m: Model)
  {
    forall t, c | IsHook(t, c) :: Has(m, t, c) && m[t][c].PatchModel?
  }

  ghost predicate Sound(m: Model, places: seq<Place>, up: set<nat>)
  {
    && GoodConfig(m)
    && Hooked(m)
    && (forall t, c | Has(m, t, c) :: SoundChain(m[t][c], t, c, places, up))
  }

  /** Every kernel rule that names a set of the group is in a registered chain of the group. */
  ghost predicate TracedTo(k: Kernel, m: Model, p: Place)
  {
    forall t, c, name | Referenced(k, t, c, name) && name in p.owned :: c == p.chain && Has(m, t, c)
  }

  ghost predicate Traced(k: Kernel, m: Model, places: seq<Place>)
  {
    CleanKernel(k) && forall j | 0 <= j < |places| :: TracedTo(k, m, places[j])
  }

  /** The registry the program starts with. */
  function Start(): Model
  {
    var filter := Registered(map[], "filter", "FORWARD", PatchModel([]));
    var mangle := Registered(filter, "mangle", "PREROUTING", PatchModel([]));
    Registered(Registered(mangle, "nat", "PREROUTING", PatchModel([])), "nat", "POSTROUTING", PatchModel([]))
  }

  lemma StartAt(t: string, c: string)
    ensures At(Start(), t, c) == if IsHook(t, c) then Some(PatchModel([])) else None
  {
  }

  lemma StartIsSound(places: seq<Place>, bypass: string)
    requires GoodPlaces(places, bypass)
    ensures Sound(Start(), places, {})
  {
    forall t, c
      ensures At(Start(), t, c) == if IsHook(t, c) then Some(PatchModel([])) else None
    {
      StartAt(t, c);
    }
    HooksOnlyIsSound(Start(), places);
  }

  lemma HooksOnlyIsSound(m: Model, places: seq<Place>)
    requires forall t, c :: At(m, t, c) == if IsHook(t, c) then Some(PatchModel([])) else None
    requires m.Keys == {"filter", "mangle", "nat"} && forall j | 0 <= j < |places| :: GoodPlace(places[j])
    ensures Sound(m, places, {})
  {
    forall t, c | Has(m, t, c)
      ensures IsHook(t, c) && m[t][c] == PatchModel([])
    {
      assert At(m, t, c) == Some(m[t][c]);
    }
    forall t, c | IsHook(t, c)
      ensures Has(m, t, c) && m[t][c] == PatchModel([])
    {
      assert At(m, t, c) == Some(PatchModel([]));
    }
    assert forall t | t in m :: GoodTableModel(m[t]) by {
      assert forall t, c | t in m && c in m[t] :: Has(m, t, c);
    }
  }

  lemma RegisterSound(m: Model, places: seq<Place>, up: set<nat>, t: string, c: string, x: ChainModel)
    requires Sound(m, places, up) && t != "" && GoodModel(x) && SoundChain(x, t, c, places, up)
    requires IsHook(t, c) ==> x.PatchModel?
    ensures Sound(Registered(m, t, c, x), places, up)
  {
    RegisteredAt(m, t, c, x);
    var out := Registered(m, t, c, x);
    forall u, d | Has(out, u, d)
      ensures GoodModel(out[u][d]) && SoundChain(out[u][d], u, d, places, up)
    {
      assert At(out, u, d) == if (u, d) == (t, c) then Some(x) else At(m, u, d);
    }
    forall u, d | IsHook(u, d)
      ensures Has(out, u, d) && out[u][d].PatchModel?
    {
      assert At(out, u, d) == if (u, d) == (t, c) then Some(x) else At(m, u, d);
    }
  }

  /** Adding, inserting or taking out a jump leaves a built-in chain's model in order. */
  lemma EditHook(x: ChainModel, jump: Rule, t: string, c: string, places: seq<Place>, up: set<nat>)
    requires x.PatchModel? && GoodModel(x) && SoundChain(x, t, c, places, up) && Silent(jump)
    ensures forall y | y in {Appending(x, jump), Inserting(x, 1, jump), Deleting(x, jump)} ::
              y.PatchModel? && GoodModel(y) && SoundChain(y, t, c, places, up)
  {
    var kept := Without(x.ordered, jump);
    WithoutKeepsDistinct(x.ordered, jump);
    forall i | 0 <= i < |kept|
      ensures kept[i].rule != jump && kept[i] in x.ordered
    {
      WithoutMembers(x.ordered, jump);
      assert kept[i] in kept;
    }
  }

  // ---- One group's calls ----

  /** What a group is enabled with: the bypass set, its mark, and the direct-group priority. */
  datatype Mode = Mode(bypass: string, mark: nat, byOrder: bool)

  /** The group's chain registered at each joint in turn. */
  function PlacedAt(m: Model, p: Place, mode: Mode, joints: seq<Joint>): Model
  {
    if joints == [] then m
    else
      var rest, last := joints[..|joints| - 1], joints[|joints| - 1];
      Placed(PlacedAt(m, p, mode, rest), p.chain, [Guard(mode.bypass)] + RulesIn(p, last.table, mode.mark), last,
             InFront(p, mode.byOrder))
  }

  function ClearedAt(m: Model, chain: string, joints: seq<Joint>): Model
  {
    if joints == [] then m else Cleared(ClearedAt(m, chain, joints[..|joints| - 1]), chain, joints[|joints| - 1])
  }

  const PREAMBLE_JOINT := Joint("mangle", "PREROUTING", Preamble.JumpTo(Preamble.PREAMBLE))

  function PreambleRules(bypass: string): seq<Rule> { [Guard(bypass), RESTORE_MARK, MARKED_PASS] }

  function PreamblePlaced(m: Model, bypass: string): Model
  {
    Placed(m, Preamble.PREAMBLE, PreambleRules(bypass), PREAMBLE_JOINT, false)
  }

  function PreambleCleared(m: Model): Model { Cleared(m, Preamble.PREAMBLE, PREAMBLE_JOINT) }

  // ---- They keep the registry sound ----

  predicate LeadsTo(jump: Rule, chain: string) { jump != [] && jump[|jump| - 1] == chain }

  /** A joint hangs a chain of ours under a built-in one. */
  ghost predicate GoodJoint(at: Joint, chain: string)
  {
    && IsHook(at.table, at.hook) && (forall t :: !IsHook(t, chain))
    && Silent(at.jump) && LeadsTo(at.jump, chain)
  }

  ghost predicate GoodJoints(joints: seq<Joint>, chain: string)
  {
    forall i | 0 <= i < |joints| :: GoodJoint(joints[i], chain)
  }

  lemma JointsAreGood(p: Place)
    requires GoodPlace(p)
    ensures GoodJoints(Joints(p), p.chain)
  {
    JumpNames(p.chain);
  }

  lemma HookSound(m: Model, places: seq<Place>, up: set<nat>, at: Joint, x: ChainModel)
    requires Sound(m, places, up) && IsHook(at.table, at.hook) && Silent(at.jump)
    requires Has(m, at.table, at.hook)
    requires var hook := m[at.table][at.hook];
             x in {Appending(hook, at.jump), Inserting(hook, 1, at.jump), Deleting(hook, at.jump)}
    ensures Sound(Registered(m, at.table, at.hook, x), places, up)
  {
    EditHook(m[at.table][at.hook], at.jump, at.table, at.hook, places, up);
    RegisterSound(m, places, up, at.table, at.hook, x);
  }

  lemma PlacedSound(m: Model, places: seq<Place>, up: set<nat>, chain: string, rules: seq<Rule>, at: Joint, front: bool)
    requires Sound(m, places, up) && GoodJoint(at, chain)
    requires CleanRules(rules) && SoundChain(OverrideModel(rules), at.table, chain, places, up)
    ensures Sound(Placed(m, chain, rules, at, front), places, up)
  {
    RegisterSound(m, places, up, at.table, chain, OverrideModel(rules));
    var own := Registered(m, at.table, chain, OverrideModel(rules));
    var hook := own[at.table][at.hook];
    HookSound(own, places, up, at, if front then Inserting(hook, 1, at.jump) else Appending(hook, at.jump));
  }

  lemma ClearedSound(m: Model, places: seq<Place>, up: set<nat>, chain: string, at: Joint)
    requires Sound(m, places, up) && GoodJoint(at, chain)
    ensures Sound(Cleared(m, chain, at), places, up)
  {
    RegisterSound(m, places, up, at.table, chain, DeleteModel);
    var own := Registered(m, at.table, chain, DeleteModel);
    HookSound(own, places, up, at, Deleting(own[at.table][at.hook], at.jump));
  }

  /** A guarded chain that names one group's sets besides the bypass set. */
  lemma OwnChainIsSound(places: seq<Place>, bypass: string, j: nat, rules: seq<Rule>, t: string, up: set<nat>)
    requires GoodPlaces(places, bypass) && j < |places| && j in up && StandsIn(places[j], t) && AllOwn(places[j], rules)
    ensures CleanRules([Guard(bypass)] + rules)
    ensures SoundChain(OverrideModel([Guard(bypass)] + rules), t, places[j].chain, places, up)
  {
    var all := [Guard(bypass)] + rules;
    GuardNames(bypass);
    forall i, name | 0 <= i < |places| && places[j].chain != places[i].chain && name in places[i].owned
      ensures !SomeMentions(all, name)
    {
      assert IsName(name) && name !in places[j].owned && name != bypass;
      forall n | 0 <= n < |all|
        ensures !Mentions(all[n], name)
      {
        assert all[n] == if n == 0 then Guard(bypass) else rules[n - 1];
      }
    }
  }

  lemma {:induction false} PlacingKeepsSound(m: Model, places: seq<Place>, up: set<nat>, mode: Mode, j: nat,
                                             joints: seq<Joint>)
    requires GoodPlaces(places, mode.bypass) && j < |places| && j in up && Sound(m, places, up)
    requires GoodJoints(joints, places[j].chain) && forall i | 0 <= i < |joints| :: StandsIn(places[j], joints[i].table)
    ensures Sound(PlacedAt(m, places[j], mode, joints), places, up)
  {
    if joints != [] {
      var p, rest, last := places[j], joints[..|joints| - 1], joints[|joints| - 1];
      PlacingKeepsSound(m, places, up, mode, j, rest);
      RulesAreOwn(p, last.table, mode.mark);
      OwnChainIsSound(places, mode.bypass, j, RulesIn(p, last.table, mode.mark), last.table, up);
      PlacedSound(PlacedAt(m, p, mode, rest), places, up, p.chain,
                  [Guard(mode.bypass)] + RulesIn(p, last.table, mode.mark), last, InFront(p, mode.byOrder));
    }
  }

  lemma {:induction false} ClearingKeepsSound(m: Model, places: seq<Place>, up: set<nat>, chain: string,
                                              joints: seq<Joint>)
    requires Sound(m, places, up) && GoodJoints(joints, chain)
    ensures Sound(ClearedAt(m, chain, joints), places, up)
  {
    if joints != [] {
      ClearingKeepsSound(m, places, up, chain, joints[..|joints| - 1]);
      ClearedSound(ClearedAt(m, chain, joints[..|joints| - 1]), places, up, chain, joints[|joints| - 1]);
    }
  }

  lemma {:induction false} ClearedIsDeleted(m: Model, chain: string, joints: seq<Joint>, i: nat)
    requires GoodJoints(joints, chain) && i < |joints|
    ensures At(ClearedAt(m, chain, joints), joints[i].table, chain) == Some(DeleteModel)
  {
    var rest := joints[..|joints| - 1];
    ClearedChainIsDeleted(ClearedAt(m, chain, rest), chain, joints[|joints| - 1]);
    if i < |rest| {
      ClearedIsDeleted(m, chain, rest, i);
    }
  }

  lemma ClearedChainIsDeleted(m: Model, chain: string, at: Joint)
    requires GoodJoint(at, chain)
    ensures At(Cleared(m, chain, at), at.table, chain) == Some(DeleteModel)
    ensures forall t | At(m, t, chain) == Some(DeleteModel) :: At(Cleared(m, chain, at), t, chain) == Some(DeleteModel)
  {
    var own := Registered(m, at.table, chain, DeleteModel);
    RegisteredAt(m, at.table, chain, DeleteModel);
    assert chain != at.hook;
    if Has(own, at.table, at.hook) {
      RegisteredAt(own, at.table, at.hook, Deleting(own[at.table][at.hook], at.jump));
    }
  }

  /** A group whose rules are cleared has no rules left in the registry: every chain of its
      name that is registered is to be deleted. */
  lemma ClearingTakesDown(m: Model, places: seq<Place>, up: set<nat>, j: nat)
    requires j < |places| && GoodPlace(places[j]) && Sound(m, places, up)
    ensures var out := ClearedAt(m, places[j].chain, Joints(places[j]));
            && Sound(out, places, up - {j})
            && forall t | StandsIn(places[j], t) :: At(out, t, places[j].chain) == Some(DeleteModel)
  {
    var p := places[j];
    var out := ClearedAt(m, p.chain, Joints(p));
    JointsAreGood(p);
    ClearingKeepsSound(m, places, up, p.chain, Joints(p));
    forall t | StandsIn(p, t)
      ensures At(out, t, p.chain) == Some(DeleteModel)
    {
      var i :| 0 <= i < |Joints(p)| && Joints(p)[i].table == t;
      ClearedIsDeleted(m, p.chain, Joints(p), i);
    }
    DownIsSound(out, places, up, j);
  }

  lemma DownIsSound(m: Model, places: seq<Place>, up: set<nat>, j: nat)
    requires j < |places| && Sound(m, places, up)
    requires forall t | StandsIn(places[j], t) :: At(m, t, places[j].chain) == Some(DeleteModel)
    ensures Sound(m, places, up - {j})
  {
    forall t | StandsIn(places[j], t)
      ensures Has(m, t, places[j].chain) && m[t][places[j].chain] == DeleteModel
    {
      assert At(m, t, places[j].chain) == Some(DeleteModel);
    }
    forall t, c | Has(m, t, c)
      ensures SoundChain(m[t][c], t, c, places, up - {j})
    {
      assert SoundChain(m[t][c], t, c, places, up);
    }
  }

  lemma PreambleKeepsSound(m: Model, places: seq<Place>, up: set<nat>, bypass: string)
    requires GoodPlaces(places, bypass) && Sound(m, places, up)
    ensures Sound(PreamblePlaced(m, bypass), places, up) && Sound(PreambleCleared(m), places, up)
  {
    JumpNames(Preamble.PREAMBLE);
    PreambleChainIsSound(places, up, bypass);
    PlacedSound(m, places, up, Preamble.PREAMBLE, PreambleRules(bypass), PREAMBLE_JOINT, false);
    ClearedSound(m, places, up, Preamble.PREAMBLE, PREAMBLE_JOINT);
  }

  lemma PreambleChainIsSound(places: seq<Place>, up: set<nat>, bypass: string)
    requires GoodPlaces(places, bypass)
    ensures var rules := PreambleRules(bypass);
            CleanRules(rules) && SoundChain(OverrideModel(rules), "mangle", Preamble.PREAMBLE, places, up)
  {
    GuardNames(bypass);
    RestoreMarkNames();
    MarkedPassNames();
    var rules := PreambleRules(bypass);
    forall i, name | 0 <= i < |places| && name in places[i].owned
      ensures !SomeMentions(rules, name)
    {
      assert IsName(name) && name != bypass;
    }
  }

  // ---- The kernel ----

  /** Chains are registered, never forgotten. */
  ghost predicate Grows(m: Model, more: Model)
  {
    forall t, c | Has(m, t, c) :: Has(more, t, c)
  }

  lemma PlacedGrows(m: Model, chain: string, rules: seq<Rule>, at: Joint, front: bool)
    ensures Grows(m, Placed(m, chain, rules, at, front)) && Grows(m, Cleared(m, chain, at))
  {
  }

  lemma {:induction false} PlacingGrows(m: Model, p: Place, mode: Mode, joints: seq<Joint>)
    ensures Grows(m, PlacedAt(m, p, mode, joints))
  {
    if joints != [] {
      var rest, last := joints[..|joints| - 1], joints[|joints| - 1];
      PlacingGrows(m, p, mode, rest);
      PlacedGrows(PlacedAt(m, p, mode, rest), p.chain, [Guard(mode.bypass)] + RulesIn(p, last.table, mode.mark), last,
                  InFront(p, mode.byOrder));
    }
  }

  lemma {:induction false} ClearingGrows(m: Model, chain: string, joints: seq<Joint>)
    ensures Grows(m, ClearedAt(m, chain, joints))
  {
    if joints != [] {
      ClearingGrows(m, chain, joints[..|joints| - 1]);
      PlacedGrows(ClearedAt(m, chain, joints[..|joints| - 1]), chain, [], joints[|joints| - 1], false);
    }
  }

  lemma PreambleGrows(m: Model, bypass: string)
    ensures Grows(m, PreamblePlaced(m, bypass)) && Grows(m, PreambleCleared(m))
  {
    PlacedGrows(m, Preamble.PREAMBLE, PreambleRules(bypass), PREAMBLE_JOINT, false);
  }

  lemma TracedGrows(k: Kernel, m: Model, more: Model, places: seq<Place>)
    requires Traced(k, m, places) && Grows(m, more)
    ensures Traced(k, more, places)
  {
    forall j | 0 <= j < |places|
      ensures TracedTo(k, more, places[j])
    {
      assert TracedTo(k, m, places[j]);
    }
  }

  lemma SilentPatches(m: Model, places: seq<Place>, up: set<nat>, name: string)
    requires Sound(m, places, up) && IsName(name)
    ensures PatchesSilent(m, name)
  {
    forall t, c | t in m && c in m[t] && m[t][c].PatchModel?
      ensures forall i | 0 <= i < |m[t][c].ordered| :: !Mentions(m[t][c].ordered[i].rule, name)
    {
      assert Has(m, t, c) && SoundChain(m[t][c], t, c, places, up);
    }
  }

  lemma CommitKeepsTracedTo(k: Kernel, m: Model, places: seq<Place>, up: set<nat>, j: nat)
    requires Sound(m, places, up) && CleanKernel(k) && j < |places| && GoodPlace(places[j]) && TracedTo(k, m, places[j])
    ensures TracedTo(AfterKernel(m, k), m, places[j])
  {
    forall t, c, name | Referenced(AfterKernel(m, k), t, c, name) && name in places[j].owned
      ensures c == places[j].chain && Has(m, t, c)
    {
      SilentPatches(m, places, up, name);
      ReferencedAfter(m, k, t, c, name);
      if Has(m, t, c) {
        assert SoundChain(m[t][c], t, c, places, up);
      }
    }
  }

  lemma CutOffKeepsTracedTo(k: Kernel, m: Model, p: Place, visited: set<string>)
    requires GoodConfig(m) && CleanKernel(k) && TracedTo(k, m, p) && TracedTo(AfterKernel(m, k), m, p)
    ensures TracedTo(Partly(visited, m, k), m, p)
  {
    forall t, c, name | Referenced(Partly(visited, m, k), t, c, name) && name in p.owned
      ensures c == p.chain && Has(m, t, c)
    {
      PartlyByChain(visited, m, k, t, c);
      assert Referenced(AfterKernel(m, k), t, c, name) || Referenced(k, t, c, name);
    }
  }

  /** A commit moves no group's set into a chain that is not the group's, and neither does
      one that was cut off after some of the tables. */
  lemma CommitKeepsTraced(k: Kernel, m: Model, places: seq<Place>, bypass: string, up: set<nat>, visited: set<string>)
    requires GoodPlaces(places, bypass) && Sound(m, places, up) && Traced(k, m, places)
    ensures Traced(AfterKernel(m, k), m, places) && Traced(Partly(visited, m, k), m, places)
  {
    AfterKernelIsClean(m, k);
    PartlyIsClean(visited, m, k);
    forall j | 0 <= j < |places|
      ensures TracedTo(AfterKernel(m, k), m, places[j]) && TracedTo(Partly(visited, m, k), m, places[j])
    {
      CommitKeepsTracedTo(k, m, places, up, j);
      CutOffKeepsTracedTo(k, m, places[j], visited);
    }
  }

  /** The kernel may lose rules at any time, as when the firmware rewrites its tables. */
  ghost predicate NamesLess(k: Kernel, before: Kernel)
  {
    CleanKernel(k) && forall t, c, name | Referenced(k, t, c, name) :: Referenced(before, t, c, name)
  }

  lemma LossKeepsTraced(k: Kernel, before: Kernel, m: Model, places: seq<Place>)
    requires Traced(before, m, places) && NamesLess(k, before)
    ensures Traced(k, m, places)
  {
    forall j | 0 <= j < |places|
      ensures TracedTo(k, m, places[j])
    {
      assert TracedTo(before, m, places[j]);
    }
  }

  lemma SoundWithMore(m: Model, places: seq<Place>, up: set<nat>, more: set<nat>)
    requires Sound(m, places, up) && up <= more
    ensures Sound(m, places, more)
  {
    forall t, c | Has(m, t, c)
      ensures SoundChain(m[t][c], t, c, places, more)
    {
      assert SoundChain(m[t][c], t, c, places, up);
    }
  }

  /** No kernel rule names a set of the group. */
  ghost predicate FreeIn(k: Kernel, p: Place)
  {
    forall t, c, name | Referenced(k, t, c, name) :: name !in p.owned
  }

  lemma DownIsSilent(m: Model, places: seq<Place>, up: set<nat>, j: nat, name: string)
    requires Sound(m, places, up) && j < |places| && j !in up && name in places[j].owned
    ensures forall t, c | t in m && c in m[t] && m[t][c].OverrideModel? :: !SomeMentions(m[t][c].rules, name)
  {
    forall t, c | t in m && c in m[t] && m[t][c].OverrideModel?
      ensures !SomeMentions(m[t][c].rules, name)
    {
      assert Has(m, t, c) && SoundChain(m[t][c], t, c, places, up);
    }
  }

  lemma OwnChainsHold(k: Kernel, m: Model, places: seq<Place>, up: set<nat>, j: nat, name: string)
    requires Sound(m, places, up) && j < |places| && TracedTo(k, m, places[j]) && name in places[j].owned
    ensures forall t, c | Referenced(k, t, c, name) :: t in m && c in m[t] && !m[t][c].PatchModel?
  {
    forall t, c | Referenced(k, t, c, name)
      ensures t in m && c in m[t] && !m[t][c].PatchModel?
    {
      assert c == places[j].chain && Has(m, t, c) && SoundChain(m[t][c], t, c, places, up);
    }
  }

  /** After a commit no kernel rule names a set of a group that has no rules. */
  lemma DownIsFree(k: Kernel, m: Model, places: seq<Place>, bypass: string, up: set<nat>, j: nat)
    requires GoodPlaces(places, bypass) && Sound(m, places, up) && Traced(k, m, places)
    requires j < |places| && j !in up
    ensures FreeIn(AfterKernel(m, k), places[j])
  {
    assert GoodPlace(places[j]) && TracedTo(k, m, places[j]);
    forall t, c, name | Referenced(AfterKernel(m, k), t, c, name)
      ensures name !in places[j].owned
    {
      if name in places[j].owned {
        SilentPatches(m, places, up, name);
        DownIsSilent(m, places, up, j, name);
        OwnChainsHold(k, m, places, up, j, name);
        SetIsFreeIff(m, k, name);
        assert false;
      }
    }
  }

  // ---- The jumps ----

  /** A direct group's jump is put in front unless direct groups keep their order. */
  predicate InFront(p: Place, byOrder: bool) { p.route.Direct? && !byOrder }

  function JumpEntry(at: Joint, front: bool): PatchRule
  {
    PatchRule(if front then PatchInsert else PatchAppend, if front then 1 else 0, at.jump)
  }

  /** The built-in chain is to get the jump: in front, or at the end. */
  ghost predicate Hangs(m: Model, at: Joint, front: bool)
  {
    && Has(m, at.table, at.hook) && m[at.table][at.hook].PatchModel?
    && JumpEntry(at, front) in m[at.table][at.hook].ordered
  }

  lemma EditedEntries(x: ChainModel, jump: Rule, e: PatchRule)
    requires x.PatchModel?
    ensures PatchRule(PatchAppend, 0, jump) in Appending(x, jump).ordered
    ensures PatchRule(PatchInsert, 1, jump) in Inserting(x, 1, jump).ordered
    ensures e in x.ordered && e.rule != jump ==>
              e in Appending(x, jump).ordered && e in Inserting(x, 1, jump).ordered && e in Deleting(x, jump).ordered
  {
    WithoutMembers(x.ordered, jump);
  }

  lemma PlacedHangs(m: Model, chain: string, rules: seq<Rule>, at: Joint, front: bool)
    requires GoodJoint(at, chain) && Hooked(m)
    ensures Hangs(Placed(m, chain, rules, at, front), at, front)
    ensures Hooked(Placed(m, chain, rules, at, front)) && Hooked(Cleared(m, chain, at))
  {
    assert chain != at.hook;
    EditedEntries(m[at.table][at.hook], at.jump, JumpEntry(at, front));
  }

  /** No other chain's jump is touched. */
  lemma OthersHang(m: Model, chain: string, rules: seq<Rule>, at: Joint, front: bool, other: Joint, there: bool)
    requires GoodJoint(at, chain) && IsHook(other.table, other.hook) && Hangs(m, other, there)
    requires (other.table, other.hook) != (at.table, at.hook) || other.jump != at.jump
    ensures Hangs(Placed(m, chain, rules, at, front), other, there) && Hangs(Cleared(m, chain, at), other, there)
  {
    assert chain != at.hook && chain != other.hook;
    if (other.table, other.hook) == (at.table, at.hook) {
      EditedEntries(m[at.table][at.hook], at.jump, JumpEntry(other, there));
    }
  }

  lemma {:induction false} PlacingHangs(m: Model, p: Place, mode: Mode, joints: seq<Joint>, i: nat)
    requires GoodJoints(joints, p.chain) && Hooked(m) && i < |joints|
    requires forall a, b | 0 <= a < b < |joints| :: joints[a].table != joints[b].table
    ensures Hangs(PlacedAt(m, p, mode, joints), joints[i], InFront(p, mode.byOrder))
  {
    var rest, last := joints[..|joints| - 1], joints[|joints| - 1];
    PlacingKeepsHooks(m, p, mode, rest);
    if i < |rest| {
      PlacingHangs(m, p, mode, rest, i);
    }
    PlacedOrStays(PlacedAt(m, p, mode, rest), p.chain, [Guard(mode.bypass)] + RulesIn(p, last.table, mode.mark), last,
                  InFront(p, mode.byOrder), joints[i]);
  }

  lemma PlacedOrStays(m: Model, chain: string, rules: seq<Rule>, at: Joint, front: bool, other: Joint)
    requires GoodJoint(at, chain) && GoodJoint(other, chain) && Hooked(m)
    requires other == at || (other.table != at.table && Hangs(m, other, front))
    ensures Hangs(Placed(m, chain, rules, at, front), other, front)
  {
    if other == at {
      PlacedHangs(m, chain, rules, at, front);
    } else {
      OthersHang(m, chain, rules, at, front, other, front);
    }
  }

  lemma {:induction false} PlacingKeepsHooks(m: Model, p: Place, mode: Mode, joints: seq<Joint>)
    requires GoodJoints(joints, p.chain) && Hooked(m)
    ensures Hooked(PlacedAt(m, p, mode, joints))
  {
    if joints != [] {
      var rest, last := joints[..|joints| - 1], joints[|joints| - 1];
      PlacingKeepsHooks(m, p, mode, rest);
      PlacedHangs(PlacedAt(m, p, mode, rest), p.chain, [Guard(mode.bypass)] + RulesIn(p, last.table, mode.mark), last,
                  InFront(p, mode.byOrder));
    }
  }

  lemma {:induction false} PlacingLeavesJumps(m: Model, p: Place, mode: Mode, joints: seq<Joint>, chain: string,
                                              other: Joint, there: bool)
    requires GoodJoints(joints, p.chain) && GoodJoint(other, chain) && chain != p.chain && Hangs(m, other, there)
    ensures Hangs(PlacedAt(m, p, mode, joints), other, there)
  {
    if joints != [] {
      var rest, last := joints[..|joints| - 1], joints[|joints| - 1];
      PlacingLeavesJumps(m, p, mode, rest, chain, other, there);
      OthersHang(PlacedAt(m, p, mode, rest), p.chain, [Guard(mode.bypass)] + RulesIn(p, last.table, mode.mark), last,
                 InFront(p, mode.byOrder), other, there);
    }
  }

  lemma {:induction false} ClearingLeavesJumps(m: Model, cleared: string, joints: seq<Joint>, chain: string,
                                               other: Joint, there: bool)
    requires GoodJoints(joints, cleared) && GoodJoint(other, chain) && chain != cleared && Hangs(m, other, there)
    ensures Hangs(ClearedAt(m, cleared, joints), other, there)
  {
    if joints != [] {
      var rest, last := joints[..|joints| - 1], joints[|joints| - 1];
      ClearingLeavesJumps(m, cleared, rest, chain, other, there);
      OthersHang(ClearedAt(m, cleared, rest), cleared, [], last, false, other, there);
    }
  }

  // ---- A group with its rules ----

  /** Each chain is registered with its rules, and jumped to from where the mode puts the jump. */
  ghost predicate HasRulesWith(m: Model, p: Place, bypass: string, mark: nat, byOrder: bool)
  {
    forall i | 0 <= i < |Joints(p)| ::
      && At(m, Joints(p)[i].table, p.chain)
        == Some(OverrideModel([Guard(bypass)] + RulesIn(p, Joints(p)[i].table, mark)))
      && Hangs(m, Joints(p)[i], InFront(p, byOrder))
  }

  /** All the group's chains are registered with their rules, under some mark, and all jumps
      to them are registered as the mode asks. */
  ghost predicate HasRules(m: Model, p: Place, bypass: string, byOrder: bool)
  {
    exists mark: nat :: HasRulesWith(m, p, bypass, mark, byOrder)
  }

  /** A name that is no built-in chain's. */
  ghost predicate IsOurs(chain: string) { forall t :: !IsHook(t, chain) }

  lemma PlacedElsewhere(m: Model, chain: string, rules: seq<Rule>, at: Joint, front: bool)
    requires GoodJoint(at, chain)
    ensures At(Placed(m, chain, rules, at, front), at.table, chain) == Some(OverrideModel(rules))
    ensures forall t, c | IsOurs(c) && (t, c) != (at.table, chain) ::
              At(Placed(m, chain, rules, at, front), t, c) == At(m, t, c)
  {
    assert chain != at.hook;
  }

  lemma ClearedElsewhere(m: Model, chain: string, at: Joint)
    requires GoodJoint(at, chain)
    ensures forall t, c | IsOurs(c) && c != chain :: At(Cleared(m, chain, at), t, c) == At(m, t, c)
  {
  }

  lemma {:induction false} PlacedIsThere(m: Model, p: Place, mode: Mode, joints: seq<Joint>, i: nat)
    requires GoodJoints(joints, p.chain) && IsOurs(p.chain) && i < |joints|
    requires forall a, b | 0 <= a < b < |joints| :: joints[a].table != joints[b].table
    ensures At(PlacedAt(m, p, mode, joints), joints[i].table, p.chain) ==
            Some(OverrideModel([Guard(mode.bypass)] + RulesIn(p, joints[i].table, mode.mark)))
  {
    var rest, last := joints[..|joints| - 1], joints[|joints| - 1];
    PlacedElsewhere(PlacedAt(m, p, mode, rest), p.chain, [Guard(mode.bypass)] + RulesIn(p, last.table, mode.mark), last,
                    InFront(p, mode.byOrder));
    if i < |rest| {
      PlacedIsThere(m, p, mode, rest, i);
    }
  }

  lemma {:induction false} PlacingLeavesOthers(m: Model, p: Place, mode: Mode, joints: seq<Joint>)
    requires GoodJoints(joints, p.chain)
    ensures forall t, c | IsOurs(c) && c != p.chain :: At(PlacedAt(m, p, mode, joints), t, c) == At(m, t, c)
  {
    if joints != [] {
      var rest, last := joints[..|joints| - 1], joints[|joints| - 1];
      PlacingLeavesOthers(m, p, mode, rest);
      PlacedElsewhere(PlacedAt(m, p, mode, rest), p.chain, [Guard(mode.bypass)] + RulesIn(p, last.table, mode.mark),
                      last, InFront(p, mode.byOrder));
    }
  }

  lemma {:induction false} ClearingLeavesOthers(m: Model, chain: string, joints: seq<Joint>)
    requires GoodJoints(joints, chain)
    ensures forall t, c | IsOurs(c) && c != chain :: At(ClearedAt(m, chain, joints), t, c) == At(m, t, c)
  {
    if joints != [] {
      ClearingLeavesOthers(m, chain, joints[..|joints| - 1]);
      ClearedElsewhere(ClearedAt(m, chain, joints[..|joints| - 1]), chain, joints[|joints| - 1]);
    }
  }

  lemma SameChainSameRules(m: Model, other: Model, p: Place, bypass: string, byOrder: bool)
    requires forall t :: At(m, t, p.chain) == At(other, t, p.chain)
    requires forall i | 0 <= i < |Joints(p)| && Hangs(m, Joints(p)[i], InFront(p, byOrder)) ::
               Hangs(other, Joints(p)[i], InFront(p, byOrder))
    requires HasRules(m, p, bypass, byOrder)
    ensures HasRules(other, p, bypass, byOrder)
    ensures forall mark: nat | HasRulesWith(m, p, bypass, mark, byOrder) ::
              HasRulesWith(other, p, bypass, mark, byOrder)
  {
    var mark: nat :| HasRulesWith(m, p, bypass, mark, byOrder);
    assert HasRulesWith(other, p, bypass, mark, byOrder);
  }

  /** Placing gives a group its rules and its jumps, in the mode it is placed in ... */
  lemma PlacingGivesRules(m: Model, p: Place, mode: Mode)
    requires GoodPlace(p) && Hooked(m)
    ensures HasRulesWith(PlacedAt(m, p, mode, Joints(p)), p, mode.bypass, mode.mark, mode.byOrder)
    ensures HasRules(PlacedAt(m, p, mode, Joints(p)), p, mode.bypass, mode.byOrder)
  {
    JointsAreGood(p);
    TablesDiffer(p);
    var joints := Joints(p);
    forall i | 0 <= i < |joints|
      ensures At(PlacedAt(m, p, mode, joints), joints[i].table, p.chain) ==
              Some(OverrideModel([Guard(mode.bypass)] + RulesIn(p, joints[i].table, mode.mark)))
      ensures Hangs(PlacedAt(m, p, mode, joints), joints[i], InFront(p, mode.byOrder))
    {
      PlacedIsThere(m, p, mode, joints, i);
      PlacingHangs(m, p, mode, joints, i);
    }
    assert HasRulesWith(PlacedAt(m, p, mode, joints), p, mode.bypass, mode.mark, mode.byOrder);
  }

  /** ... and takes nobody's, nor does clearing another group. */
  lemma OthersKeepRules(m: Model, p: Place, mode: Mode, q: Place, bypass: string, byOrder: bool)
    requires GoodPlace(p) && GoodPlace(q) && p.chain != q.chain && HasRules(m, q, bypass, byOrder)
    ensures HasRules(PlacedAt(m, p, mode, Joints(p)), q, bypass, byOrder)
    ensures HasRules(ClearedAt(m, p.chain, Joints(p)), q, bypass, byOrder)
    ensures forall mark: nat | HasRulesWith(m, q, bypass, mark, byOrder) ::
              && HasRulesWith(PlacedAt(m, p, mode, Joints(p)), q, bypass, mark, byOrder)
              && HasRulesWith(ClearedAt(m, p.chain, Joints(p)), q, bypass, mark, byOrder)
  {
    JointsAreGood(p);
    JointsAreGood(q);
    PlacingLeavesOthers(m, p, mode, Joints(p));
    ClearingLeavesOthers(m, p.chain, Joints(p));
    forall i | 0 <= i < |Joints(q)| && Hangs(m, Joints(q)[i], InFront(q, byOrder))
      ensures Hangs(PlacedAt(m, p, mode, Joints(p)), Joints(q)[i], InFront(q, byOrder))
      ensures Hangs(ClearedAt(m, p.chain, Joints(p)), Joints(q)[i], InFront(q, byOrder))
    {
      PlacingLeavesJumps(m, p, mode, Joints(p), q.chain, Joints(q)[i], InFront(q, byOrder));
      ClearingLeavesJumps(m, p.chain, Joints(p), q.chain, Joints(q)[i], InFront(q, byOrder));
    }
    SameChainSameRules(m, PlacedAt(m, p, mode, Joints(p)), q, bypass, byOrder);
    SameChainSameRules(m, ClearedAt(m, p.chain, Joints(p)), q, bypass, byOrder);
  }

  lemma PreambleKeepsRules(m: Model, q: Place, bypass: string, own: string, byOrder: bool)
    requires GoodPlace(q) && HasRules(m, q, bypass, byOrder) && IsToken(own)
    ensures HasRules(PreamblePlaced(m, own), q, bypass, byOrder) && HasRules(PreambleCleared(m), q, bypass, byOrder)
    ensures forall mark: nat | HasRulesWith(m, q, bypass, mark, byOrder) ::
              HasRulesWith(PreamblePlaced(m, own), q, bypass, mark, byOrder)
  {
    JumpNames(Preamble.PREAMBLE);
    JointsAreGood(q);
    var rules := PreambleRules(own);
    PlacedElsewhere(m, Preamble.PREAMBLE, rules, PREAMBLE_JOINT, false);
    ClearedElsewhere(m, Preamble.PREAMBLE, PREAMBLE_JOINT);
    forall i | 0 <= i < |Joints(q)| && Hangs(m, Joints(q)[i], InFront(q, byOrder))
      ensures Hangs(PreamblePlaced(m, own), Joints(q)[i], InFront(q, byOrder))
      ensures Hangs(PreambleCleared(m), Joints(q)[i], InFront(q, byOrder))
    {
      OthersHang(m, Preamble.PREAMBLE, rules, PREAMBLE_JOINT, false, Joints(q)[i], InFront(q, byOrder));
    }
    SameChainSameRules(m, PreamblePlaced(m, own), q, bypass, byOrder);
    SameChainSameRules(m, PreambleCleared(m), q, bypass, byOrder);
  }

  // ---- The preamble ----

  /** The preamble's chain and jump are registered; or the chain has no rules, and so no jump. */
  ghost predicate PreambleIs(m: Model, bypass: string, there: bool)
  {
    var at := At(m, "mangle", Preamble.PREAMBLE);
    if there then at == Some(OverrideModel(PreambleRules(bypass))) && Hangs(m, PREAMBLE_JOINT, false)
    else at == None || !at.value.OverrideModel?
  }

  lemma PreambleMoves(m: Model, bypass: string)
    requires Hooked(m)
    ensures PreambleIs(PreamblePlaced(m, bypass), bypass, true) && PreambleIs(PreambleCleared(m), bypass, false)
  {
    JumpNames(Preamble.PREAMBLE);
    PlacedElsewhere(m, Preamble.PREAMBLE, PreambleRules(bypass), PREAMBLE_JOINT, false);
    PlacedHangs(m, Preamble.PREAMBLE, PreambleRules(bypass), PREAMBLE_JOINT, false);
    ClearedChainIsDeleted(m, Preamble.PREAMBLE, PREAMBLE_JOINT);
  }

  /** No group touches it. */
  lemma PreambleStays(m: Model, p: Place, mode: Mode, bypass: string, there: bool)
    requires GoodPlace(p) && PreambleIs(m, bypass, there)
    ensures PreambleIs(PlacedAt(m, p, mode, Joints(p)), bypass, there)
    ensures PreambleIs(ClearedAt(m, p.chain, Joints(p)), bypass, there)
  {
    JointsAreGood(p);
    JumpNames(Preamble.PREAMBLE);
    PlacingLeavesOthers(m, p, mode, Joints(p));
    ClearingLeavesOthers(m, p.chain, Joints(p));
    if there {
      PlacingLeavesJumps(m, p, mode, Joints(p), Preamble.PREAMBLE, PREAMBLE_JOINT, false);
      ClearingLeavesJumps(m, p.chain, Joints(p), Preamble.PREAMBLE, PREAMBLE_JOINT, false);
    }
  }

  ghost predicate PreambleInKernel(k: Kernel, bypass: string)
  {
    && ChainAt(k, "mangle", Preamble.PREAMBLE) == Some(PreambleRules(bypass))
    && PREAMBLE_JOINT.jump in Rules(ChainAt(k, "mangle", "PREROUTING"))
  }

  lemma PreambleReachesKernel(k: Kernel, m: Model, bypass: string)
    requires GoodConfig(m) && CleanKernel(k) && PreambleIs(m, bypass, true)
    ensures PreambleInKernel(AfterKernel(m, k), bypass)
  {
    AfterCommitHolds(m, k, "mangle", Preamble.PREAMBLE);
    JumpReachesKernel(k, m, PREAMBLE_JOINT, false);
  }

  lemma TablesDiffer(p: Place)
    ensures forall a, b | 0 <= a < b < |Joints(p)| :: Joints(p)[a].table != Joints(p)[b].table
    ensures exists i | 0 <= i < |Joints(p)| :: Joints(p)[i].table == "mangle"
  {
    assert Joints(p)[0].table == "mangle" || Joints(p)[1].table == "mangle";
  }

  /** The kernel has each of the group's chains rule for rule, and the jumps to them. */
  ghost predicate CarriesWith(k: Kernel, p: Place, bypass: string, mark: nat)
  {
    forall i | 0 <= i < |Joints(p)| ::
      && ChainAt(k, Joints(p)[i].table, p.chain) == Some([Guard(bypass)] + RulesIn(p, Joints(p)[i].table, mark))
      && Joints(p)[i].jump in Rules(ChainAt(k, Joints(p)[i].table, Joints(p)[i].hook))
  }

  ghost predicate Carries(k: Kernel, p: Place, bypass: string)
  {
    exists mark: nat :: CarriesWith(k, p, bypass, mark)
  }

  /** A commit takes these chains to the kernel as they are, and the jumps to them ... */
  lemma RulesReachKernel(k: Kernel, m: Model, p: Place, bypass: string, mark: nat, byOrder: bool)
    requires GoodConfig(m) && CleanKernel(k) && HasRulesWith(m, p, bypass, mark, byOrder)
    ensures CarriesWith(AfterKernel(m, k), p, bypass, mark)
  {
    forall i | 0 <= i < |Joints(p)|
      ensures ChainAt(AfterKernel(m, k), Joints(p)[i].table, p.chain)
           == Some([Guard(bypass)] + RulesIn(p, Joints(p)[i].table, mark))
      ensures Joints(p)[i].jump in Rules(ChainAt(AfterKernel(m, k), Joints(p)[i].table, Joints(p)[i].hook))
    {
      AfterCommitHolds(m, k, Joints(p)[i].table, p.chain);
      JumpReachesKernel(k, m, Joints(p)[i], InFront(p, byOrder));
    }
  }

  lemma JumpReachesKernel(k: Kernel, m: Model, at: Joint, front: bool)
    requires GoodConfig(m) && CleanKernel(k) && Hangs(m, at, front)
    ensures at.jump in Rules(ChainAt(AfterKernel(m, k), at.table, at.hook))
  {
    AfterCommitHolds(m, k, at.table, at.hook);
    WantedIsThere(m[at.table][at.hook].ordered, Rules(ChainAt(AfterKernel(m, k), at.table, at.hook)),
                  Rules(ChainAt(k, at.table, at.hook)), JumpEntry(at, front));
  }

  lemma WantedIsThere(ordered: seq<PatchRule>, after: seq<Rule>, before: seq<Rule>, e: PatchRule)
    requires AllSettled(ordered, after, before) && e in ordered && !e.option.PatchDelete?
    ensures e.rule in after
  {
    var i :| 0 <= i < |ordered| && ordered[i] == e;
    CountedIsMember(after, e.rule);
  }

  lemma CommitCarries(k: Kernel, m: Model, p: Place, bypass: string, byOrder: bool)
    requires GoodConfig(m) && CleanKernel(k) && HasRules(m, p, bypass, byOrder)
    ensures Carries(AfterKernel(m, k), p, bypass)
  {
    var mark: nat :| HasRulesWith(m, p, bypass, mark, byOrder);
    RulesReachKernel(k, m, p, bypass, mark, byOrder);
  }

  lemma MangleReachesKernel(k: Kernel, m: Model, p: Place, bypass: string, mark: nat, byOrder: bool)
    requires GoodConfig(m) && CleanKernel(k) && HasRulesWith(m, p, bypass, mark, byOrder)
    ensures ChainAt(AfterKernel(m, k), "mangle", p.chain) == Some([Guard(bypass)] + RulesIn(p, "mangle", mark))
  {
    RulesReachKernel(k, m, p, bypass, mark, byOrder);
    TablesDiffer(p);
  }

  /** ... and from then on the group's set is in use. */
  lemma RulesUseSet(k: Kernel, m: Model, p: Place, bypass: string, byOrder: bool)
    requires GoodConfig(m) && CleanKernel(k) && GoodPlace(p) && HasRules(m, p, bypass, byOrder)
    ensures Referenced(AfterKernel(m, k), "mangle", p.chain, p.main) && !FreeIn(AfterKernel(m, k), p)
  {
    MangleInUse(k, m, p, bypass, byOrder);
    assert p.main in p.owned;
  }

  lemma MangleInUse(k: Kernel, m: Model, p: Place, bypass: string, byOrder: bool)
    requires GoodConfig(m) && CleanKernel(k) && GoodPlace(p) && HasRules(m, p, bypass, byOrder)
    ensures Referenced(AfterKernel(m, k), "mangle", p.chain, p.main)
  {
    var mark: nat :| HasRulesWith(m, p, bypass, mark, byOrder);
    var rules := RulesIn(p, "mangle", mark);
    MangleReachesKernel(k, m, p, bypass, mark, byOrder);
    MangleNamesSet(p, mark);
    NamedBehindGuard(Guard(bypass), rules, p.main);
    HeldIsReferenced(AfterKernel(m, k), "mangle", p.chain, [Guard(bypass)] + rules, p.main);
  }

  lemma HeldIsReferenced(k: Kernel, t: string, c: string, rules: seq<Rule>, name: string)
    requires ChainAt(k, t, c) == Some(rules) && SomeMentions(rules, name)
    ensures Referenced(k, t, c, name)
  {
  }

  lemma NamedBehindGuard(first: Rule, rules: seq<Rule>, name: string)
    requires SomeMentions(rules, name)
    ensures SomeMentions([first] + rules, name)
  {
    var i :| 0 <= i < |rules| && Mentions(rules[i], name);
    assert ([first] + rules)[i + 1] == rules[i];
  }

  // ---- On the registry object ----

  lemma RegisteredAgain(m: Model, t: string, c: string, x: ChainModel, d: string, y: ChainModel)
    ensures Registered(Registered(m, t, c, x), t, d, y) == m[t := (if t in m then m[t] else map[])[c := x][d := y]]
  {
    var chains := if t in m then m[t] else map[];
    assert m[t := chains[c := x]][t := chains[c := x][d := y]] == m[t := chains[c := x][d := y]];
  }

  lemma RegisteredTwice(m: Model, t: string, c: string, x: ChainModel, y: ChainModel)
    ensures Registered(Registered(m, t, c, x), t, c, y) == Registered(m, t, c, y)
  {
    RegisteredAgain(m, t, c, x, c, y);
    var chains := if t in m then m[t] else map[];
    assert chains[c := x][c := y] == chains[c := y];
  }

  lemma RegisteredInAnyOrder(m: Model, t: string, c: string, x: ChainModel, d: string, y: ChainModel)
    requires c != d
    ensures Registered(Registered(m, t, c, x), t, d, y) == Registered(Registered(m, t, d, y), t, c, x)
  {
    RegisteredAgain(m, t, c, x, d, y);
    RegisteredAgain(m, t, d, y, c, x);
    var chains := if t in m then m[t] else map[];
    assert chains[c := x][d := y] == chains[d := y][c := x];
  }

  lemma AppendedNext(m: Model, t: string, c: string, rules: seq<Rule>, i: nat)
    requires i < |rules|
    ensures var now := Registered(m, t, c, OverrideModel(rules[..i]));
            && Has(now, t, c)
            && Registered(now, t, c, Appending(now[t][c], rules[i]))
              == Registered(m, t, c, OverrideModel(rules[..i + 1]))
  {
    assert rules[..i] + [rules[i]] == rules[..i + 1];
    RegisteredTwice(m, t, c, OverrideModel(rules[..i]), OverrideModel(rules[..i + 1]));
  }

  method FillChain(ipt: IPTables, t: string, chain: string, rules: seq<Rule>)
    requires ipt.Valid()
    modifies ipt`rules, ipt`model, ipt`Repr, ipt.Repr
    ensures ipt.Valid() && fresh(ipt.Repr - old(ipt.Repr))
    ensures ipt.model == Registered(old(ipt.model), t, chain, OverrideModel(rules))
  {
    ipt.RegisterChainOverride(t, chain);
    for i := 0 to |rules|
      invariant ipt.Valid() && fresh(ipt.Repr - old(ipt.Repr))
      invariant ipt.model == Registered(old(ipt.model), t, chain, OverrideModel(rules[..i]))
    {
      AppendedNext(old(ipt.model), t, chain, rules, i);
      var _ := ipt.Append(t, chain, rules[i]);
    }
    assert rules[..|rules|] == rules;
  }

  /** Fails when the built-in chain is not registered. */
  method PlaceChain(ipt: IPTables, chain: string, rules: seq<Rule>, at: Joint, front: bool) returns (ok: bool)
    requires ipt.Valid()
    modifies ipt`rules, ipt`model, ipt`Repr, ipt.Repr
    ensures ipt.Valid() && fresh(ipt.Repr - old(ipt.Repr))
    ensures ipt.model == Placed(old(ipt.model), chain, rules, at, front)
    ensures Has(old(ipt.model), at.table, at.hook) ==> ok
  {
    FillChain(ipt, at.table, chain, rules);
    if front {
      ok := ipt.Insert(at.table, at.hook, 1, at.jump);
    } else {
      ok := ipt.Append(at.table, at.hook, at.jump);
    }
  }

  method ClearChain(ipt: IPTables, chain: string, at: Joint) returns (ok: bool)
    requires ipt.Valid()
    modifies ipt`rules, ipt`model, ipt`Repr, ipt.Repr
    ensures ipt.Valid() && fresh(ipt.Repr - old(ipt.Repr)) && ipt.model == Cleared(old(ipt.model), chain, at)
  {
    ipt.RegisterChainDelete(at.table, chain);
    ok := ipt.Delete(at.table, at.hook, at.jump);
  }

  ghost predicate AllHooked(m: Model, all: seq<Joint>)
  {
    forall i | 0 <= i < |all| :: Has(m, all[i].table, all[i].hook)
  }

  lemma HookedLater(m: Model, p: Place, mode: Mode, all: seq<Joint>, i: nat)
    requires i < |all|
    ensures AllHooked(m, all) ==> Has(PlacedAt(m, p, mode, all[..i]), all[i].table, all[i].hook)
  {
    PlacingGrows(m, p, mode, all[..i]);
  }

  /** Stops at the first joint that fails. */
  method PlaceChains(ipt: IPTables, p: Place, mode: Mode, all: seq<Joint>) returns (ok: bool, ghost done: seq<Joint>)
    requires ipt.Valid()
    modifies ipt`rules, ipt`model, ipt`Repr, ipt.Repr
    ensures ipt.Valid() && done <= all && ipt.model == PlacedAt(old(ipt.model), p, mode, done)
    ensures ok ==> done == all
    ensures AllHooked(old(ipt.model), all) ==> ok
  {
    ghost var m := ipt.model;
    ok, done := true, [];
    var i := 0;
    while i < |all| && ok
      invariant 0 <= i <= |all| && done == all[..i]
      invariant ipt.Valid() && fresh(ipt.Repr - old(ipt.Repr))
      invariant ipt.model == PlacedAt(m, p, mode, done) && (AllHooked(m, all) ==> ok)
    {
      HookedLater(m, p, mode, all, i);
      ok := PlaceNext(ipt, p, mode, all[i], m, done);
      done := done + [all[i]];
      i := i + 1;
    }
  }

  method PlaceNext(ipt: IPTables, p: Place, mode: Mode, at: Joint, ghost m: Model, ghost done: seq<Joint>)
    returns (ok: bool)
    requires ipt.Valid() && ipt.model == PlacedAt(m, p, mode, done)
    modifies ipt`rules, ipt`model, ipt`Repr, ipt.Repr
    ensures ipt.Valid() && fresh(ipt.Repr - old(ipt.Repr)) && ipt.model == PlacedAt(m, p, mode, done + [at])
    ensures Has(old(ipt.model), at.table, at.hook) ==> ok
  {
    assert (done + [at])[..|done|] == done;
    ok := PlaceChain(ipt, p.chain, [Guard(mode.bypass)] + RulesIn(p, at.table, mode.mark), at,
                     InFront(p, mode.byOrder));
  }

  method ClearChains(ipt: IPTables, chain: string, all: seq<Joint>) returns (ok: bool)
    requires ipt.Valid()
    modifies ipt`rules, ipt`model, ipt`Repr, ipt.Repr
    ensures ipt.Valid() && ipt.model == ClearedAt(old(ipt.model), chain, all)
  {
    ok := true;
    for i := 0 to |all|
      invariant ipt.Valid() && fresh(ipt.Repr - old(ipt.Repr))
      invariant ipt.model == ClearedAt(old(ipt.model), chain, all[..i])
    {
      var cleared := ClearChain(ipt, chain, all[i]);
      ok := ok && cleared;
      assert all[..i + 1][..i] == all[..i];
    }
    assert all[..|all|] == all;
  }

  /** The group's chains in one family; under a batch the kernel does not see them yet. */
  method InsertIPTablesRules(ipt: IPTables, p: Place, mode: Mode) returns (ok: bool, ghost done: seq<Joint>)
    requires ipt.Valid()
    modifies ipt`rules, ipt`model, ipt`Repr, ipt.Repr, ipt.kernel
    ensures ipt.Valid() && done <= Joints(p) && ipt.model == PlacedAt(old(ipt.model), p, mode, done)
    ensures ok ==> done == Joints(p)
    ensures ipt.deferred ==> ipt.kernel.rules == old(ipt.kernel.rules)
    ensures ipt.deferred && (forall t, c | IsHook(t, c) :: Has(old(ipt.model), t, c)) ==> ok
  {
    JointsAtHooks(p);
    ok, done := PlaceChains(ipt, p, mode, Joints(p));
    if ok {
      ok := ipt.Commit();
    }
  }

  lemma JointsAtHooks(p: Place)
    ensures forall i | 0 <= i < |Joints(p)| :: IsHook(Joints(p)[i].table, Joints(p)[i].hook)
  {
  }

  /** Every chain is tried, and then committed. */
  method DeleteIPTablesRules(ipt: IPTables, p: Place) returns (ok: bool)
    requires ipt.Valid()
    modifies ipt`rules, ipt`model, ipt`Repr, ipt.Repr, ipt.kernel
    ensures ipt.Valid() && ipt.model == ClearedAt(old(ipt.model), p.chain, Joints(p))
    ensures ipt.deferred ==> ipt.kernel.rules == old(ipt.kernel.rules)
  {
    ok := ClearChains(ipt, p.chain, Joints(p));
    var committed := ipt.Commit();
    ok := ok && committed;
  }

  method InstallInterfacePreamble(ipt: IPTables, bypass: string) returns (ok: bool)
    requires ipt.Valid()
    modifies ipt`rules, ipt`model, ipt`Repr, ipt.Repr, ipt.kernel
    ensures ipt.Valid() && ipt.model == PreamblePlaced(old(ipt.model), bypass)
    ensures ipt.deferred ==> ipt.kernel.rules == old(ipt.kernel.rules)
  {
    ok := PlaceChain(ipt, Preamble.PREAMBLE, PreambleRules(bypass), PREAMBLE_JOINT, false);
    if ok {
      ok := ipt.Commit();
    }
  }

  /** The jump goes before the chain is registered for deletion. */
  method RemoveInterfacePreamble(ipt: IPTables) returns (ok: bool)
    requires ipt.Valid()
    modifies ipt`rules, ipt`model, ipt`Repr, ipt.Repr, ipt.kernel
    ensures ipt.Valid() && ipt.model == PreambleCleared(old(ipt.model))
    ensures ipt.deferred ==> ipt.kernel.rules == old(ipt.kernel.rules)
  {
    ghost var before := ipt.model;
    ok := ipt.Delete("mangle", "PREROUTING", PREAMBLE_JOINT.jump);
    ipt.RegisterChainDelete("mangle", Preamble.PREAMBLE);
    if Has(before, "mangle", "PREROUTING") {
      RegisteredInAnyOrder(before, "mangle", "PREROUTING",
                           Deleting(before["mangle"]["PREROUTING"], PREAMBLE_JOINT.jump),
                           Preamble.PREAMBLE, DeleteModel);
    }
    var committed := ipt.Commit();
    ok := ok && committed;
  }
}

/**
  Why the priorities are -128, 0 and 127. The real kernel refuses two things the plain
  table semantics accepts: adding a rule whose jump target does not exist, and dropping a
  chain that a rule still jumps to. `StrictRun` adds both refusals. A commit whose model
  takes out the jumps to each chain it deletes never meets them, and in between its
  commands no rule ever points at a missing chain.
 */
module RefSafety {
  import opened Text
  import opened Netfilter
  import opened Chains
  import opened Convergence
  import opened Reconciler

  /** The chains a rule jumps to. */
  function Targets(r: Rule): set<string>
  {
    if |r| < 2 then {} else (if r[0] == "-j" then {r[1]} else {}) + Targets(r[1..])
  }

  /** Names in `user` are chains; other targets (ACCEPT, MARK, ...) are built in. */
  ghost predicate RefSafe(t: Table, user: set<string>)
  {
    forall c, r, d | c in t && r in t[c] && d in Targets(r) && d in user :: d in t
  }

  ghost predicate Referenced(t: Table, d: string)
  {
    exists c, r :: c in t && r in t[c] && d in Targets(r)
  }

  /** What the strict kernel asks of an op besides what the plain one does. */
  ghost predicate Accepts(t: Table, op: Op, user: set<string>)
  {
    match op
    case Append(_, r) => Targets(r) * user <= t.Keys
    case Insert(_, _, r) => Targets(r) * user <= t.Keys
    case DropChain(d) => !Referenced(t, d)
    case _ => true
  }

  ghost function StrictStep(t: Table, op: Op, user: set<string>): Result<Table>
    requires op.OnChain()
  {
    if Accepts(t, op, user) then TableStep(t, op) else Failed
  }

  ghost function StrictRun(t: Table, ops: seq<Op>, user: set<string>): Result<Table>
    requires AllOnChains(ops)
    decreases |ops|
  {
    if ops == [] then Ok(t)
    else
      match StrictRun(t, ops[..|ops| - 1], user)
      case Failed => Failed
      case Ok(mid) => StrictStep(mid, ops[|ops| - 1], user)
  }

  // ---- What the caller owes ----

  /** A chain that will be there from the declarations on: one that is there and stays, or
      one that has commands, for it is declared first. */
  predicate Lasting(tm: TableModel, cur: Table, d: string)
  {
    if d in tm then !tm[d].DeleteModel? && (d in cur || Commands(tm, cur, d).commands != []) else d in cur
  }

  ghost predicate Adds(m: ChainModel, r: Rule)
  {
    || (m.OverrideModel? && r in m.rules)
    || (m.PatchModel? && exists p :: p in m.ordered && !p.option.PatchDelete? && p.rule == r)
  }

  /** The rules we add jump to chains that last. */
  ghost predicate AddsSafeJumps(tm: TableModel, cur: Table, user: set<string>)
  {
    forall c, r, d | c in tm && Adds(tm[c], r) && d in Targets(r) && d in user :: Lasting(tm, cur, d)
  }

  /** We do not add jumps to a chain we delete, and every such jump now in the kernel sits
      in an override chain, or in a patch chain that deletes it. */
  ghost predicate TakesJumpsOut(tm: TableModel, cur: Table)
  {
    && (forall c, r, d | c in tm && Adds(tm[c], r) && d in Targets(r) :: !(d in tm && tm[d].DeleteModel?))
    && forall c, r, d | c in cur && r in cur[c] && d in Targets(r) && d in tm && tm[d].DeleteModel? ::
         && c in tm
         && (tm[c].OverrideModel?
             || (tm[c].PatchModel? && Count(cur[c], r) < 256
                 && PatchRule(PatchDelete, 0, r) in tm[c].ordered))
  }

  ghost predicate SafePlan(tm: TableModel, cur: Table, user: set<string>)
  {
    RefSafe(cur, user) && AddsSafeJumps(tm, cur, user) && TakesJumpsOut(tm, cur)
  }

  // ---- The three phases of a script ----

  lemma {:induction false} DeclaresOnlyDeclare(order: seq<string>, tm: TableModel, cur: Table)
    requires forall c | c in order :: c in tm
    ensures forall i | 0 <= i < |Declares(order, tm, cur)| :: Declares(order, tm, cur)[i].Declare?
  {
    if order != [] {
      DeclaresOnlyDeclare(order[1..], tm, cur);
    }
  }

  lemma {:induction false} ClassIsOf(order: seq<string>, tm: TableModel, cur: Table, priority: int, op: Op)
    requires forall c | c in order :: c in tm
    requires op in ClassOf(order, tm, cur, priority)
    ensures op.OnChain() && !op.Declare? && op.chain in tm
    ensures Commands(tm, cur, op.chain).priority == priority && op in Commands(tm, cur, op.chain).commands
  {
    CompileNames(tm[order[0]], order[0], Lookup(cur, order[0]));
    if op !in Commands(tm, cur, order[0]).commands || Commands(tm, cur, order[0]).priority != priority {
      ClassIsOf(order[1..], tm, cur, priority, op);
    }
  }

  /** Where the commands of the delete chains begin. */
  function LastPhase(order: seq<string>, tm: TableModel, cur: Table): nat
    requires forall c | c in order :: c in tm
  {
    |Declares(order, tm, cur)| + |ClassOf(order, tm, cur, -128)| + |ClassOf(order, tm, cur, 0)|
  }

  lemma PartAt(d: seq<Op>, first: seq<Op>, next: seq<Op>, last: seq<Op>, i: nat)
    requires i < |d + first + next + last|
    ensures var op := (d + first + next + last)[i];
            if i < |d| then op == d[i]
            else if i < |d| + |first| then op in first
            else if i < |d| + |first| + |next| then op in next
            else op in last
  {
    var op := (d + first + next + last)[i];
    if |d| <= i < |d| + |first| {
      assert op == first[i - |d|];
    } else if |d| + |first| <= i < |d| + |first| + |next| {
      assert op == next[i - |d| - |first|];
    } else if i >= |d| + |first| + |next| {
      assert op == last[i - |d| - |first| - |next|];
    }
  }

  lemma Phases(order: seq<string>, tm: TableModel, cur: Table, i: nat)
    requires Enumerates(order, tm.Keys) && i < |TableScript(order, tm, cur)|
    ensures var op := TableScript(order, tm, cur)[i];
            if i < |Declares(order, tm, cur)| then op.Declare?
            else
              && !op.Declare? && op.chain in tm && op in Commands(tm, cur, op.chain).commands
              && (i < LastPhase(order, tm, cur) ==> !tm[op.chain].DeleteModel? && !op.DropChain?)
              && (i >= LastPhase(order, tm, cur) ==> tm[op.chain].DeleteModel?)
  {
    var d, first, next, last := Declares(order, tm, cur), ClassOf(order, tm, cur, -128),
                                ClassOf(order, tm, cur, 0), ClassOf(order, tm, cur, 127);
    var op := TableScript(order, tm, cur)[i];
    PartAt(d, first, next, last, i);
    if i < |d| {
      DeclaresOnlyDeclare(order, tm, cur);
    } else if i < |d| + |first| {
      ClassIsOf(order, tm, cur, -128, op);
    } else if i < |d| + |first| + |next| {
      ClassIsOf(order, tm, cur, 0, op);
      CompileNames(tm[op.chain], op.chain, Lookup(cur, op.chain));
      NoDropOutsideDelete(tm[op.chain], op.chain, Lookup(cur, op.chain), op);
    } else {
      ClassIsOf(order, tm, cur, 127, op);
    }
  }

  lemma {:induction false} PatchNeverDrops(chain: string, ordered: seq<PatchRule>, existing: seq<Rule>, op: Op)
    requires op in CompilePatch(chain, ordered, existing)
    ensures !op.DropChain?
  {
    if op !in EmitPatch(chain, ordered[0], KeyCount(existing, Key(ordered[0].rule)) % 256) {
      PatchNeverDrops(chain, ordered[1..], existing, op);
    }
  }

  lemma NoDropOutsideDelete(m: ChainModel, chain: string, st: ChainState, op: Op)
    requires !m.DeleteModel? && op in CompileChain(m, chain, st).commands
    ensures !op.DropChain?
  {
    if m.PatchModel? {
      PatchNeverDrops(chain, m.ordered, Rules(st), op);
    }
  }

  // ---- A chain after a prefix of the script ----

  ghost function Prefix(order: seq<string>, tm: TableModel, cur: Table, n: nat): (ops: seq<Op>)
    requires Enumerates(order, tm.Keys) && n <= |TableScript(order, tm, cur)|
    ensures AllOnChains(ops)
  {
    TableScript(order, tm, cur)[..n]
  }

  /** The table after `n` ops. */
  ghost function At(order: seq<string>, tm: TableModel, cur: Table, n: nat): Table
    requires Enumerates(order, tm.Keys) && GoodTableModel(tm) && CleanTable(cur)
    requires n <= |TableScript(order, tm, cur)|
  {
    PrefixRuns(order, tm, cur, n);
    RunTable(cur, Prefix(order, tm, cur, n)).value
  }

  lemma PrefixRuns(order: seq<string>, tm: TableModel, cur: Table, n: nat)
    requires Enumerates(order, tm.Keys) && GoodTableModel(tm) && CleanTable(cur)
    requires n <= |TableScript(order, tm, cur)|
    ensures RunTable(cur, Prefix(order, tm, cur, n)).Ok?
  {
    var ops := TableScript(order, tm, cur);
    TableConverges(order, tm, cur);
    assert ops == ops[..n] + ops[n..];
    RunTableAppend(cur, ops[..n], ops[n..]);
  }

  function PlanOf(tm: TableModel, cur: Table, c: string): seq<Op>
  {
    if c in tm then ChainPlan(tm[c], c, Lookup(cur, c)) else []
  }

  lemma PrefixOn(t: Table, ops: seq<Op>, n: nat, c: string)
    requires AllOnChains(ops) && RunTable(t, ops).Ok? && n <= |ops|
    ensures RunTable(t, ops[..n]).Ok?
    ensures |On(ops[..n], c)| <= |On(ops, c)| && On(ops[..n], c) == On(ops, c)[..|On(ops[..n], c)|]
    ensures RunChain(Lookup(t, c), On(ops[..n], c)) == Ok(Lookup(RunTable(t, ops[..n]).value, c))
  {
    var a, b := ops[..n], ops[n..];
    assert ops == a + b;
    RunTableAppend(t, a, b);
    OnAppend(a, b, c);
    RunTableByChain(t, a, c);
  }

  lemma PrefixHasAll(ops: seq<Op>, n: nat, c: string)
    requires AllOnChains(ops) && n <= |ops| && forall i | n <= i < |ops| :: ops[i].chain != c
    ensures On(ops[..n], c) == On(ops, c)
  {
    var a, b := ops[..n], ops[n..];
    assert ops == a + b;
    OnAppend(a, b, c);
    OnSameChain(b, c);
    assert forall i | 0 <= i < |b| :: b[i].chain == ops[n + i].chain;
  }

  /** Each chain has run through the first part of its own plan. */
  lemma ChainInPrefix(order: seq<string>, tm: TableModel, cur: Table, n: nat, c: string) returns (k: nat)
    requires Enumerates(order, tm.Keys) && GoodTableModel(tm) && CleanTable(cur)
    requires n <= |TableScript(order, tm, cur)|
    ensures k <= |PlanOf(tm, cur, c)| && On(Prefix(order, tm, cur, n), c) == PlanOf(tm, cur, c)[..k]
    ensures RunChain(Lookup(cur, c), On(Prefix(order, tm, cur, n), c)) == Ok(Lookup(At(order, tm, cur, n), c))
    ensures n >= LastPhase(order, tm, cur) && c in tm && !tm[c].DeleteModel? ==> k == |PlanOf(tm, cur, c)|
  {
    TableConverges(order, tm, cur);
    OnTableScript(order, tm, cur, c);
    PrefixOn(cur, TableScript(order, tm, cur), n, c);
    k := |On(Prefix(order, tm, cur, n), c)|;
    if n >= LastPhase(order, tm, cur) && c in tm && !tm[c].DeleteModel? {
      LastPhaseIsForDeletes(order, tm, cur, n, c);
    }
  }

  lemma LastPhaseIsForDeletes(order: seq<string>, tm: TableModel, cur: Table, n: nat, c: string)
    requires Enumerates(order, tm.Keys) && LastPhase(order, tm, cur) <= n <= |TableScript(order, tm, cur)|
    requires c in tm && !tm[c].DeleteModel?
    ensures On(Prefix(order, tm, cur, n), c) == On(TableScript(order, tm, cur), c)
  {
    forall i | n <= i < |TableScript(order, tm, cur)|
      ensures TableScript(order, tm, cur)[i].chain != c
    {
      Phases(order, tm, cur, i);
    }
    PrefixHasAll(TableScript(order, tm, cur), n, c);
  }

  lemma {:induction false} KeptWithoutDrop(st: ChainState, ops: seq<Op>)
    requires AllOnChains(ops) && RunChain(st, ops).Ok?
    requires st.Some? || (ops != [] && ops[0].Declare?)
    requires forall i | 0 <= i < |ops| :: !ops[i].DropChain?
    ensures RunChain(st, ops).value.Some?
    decreases |ops|
  {
    if ops != [] {
      KeptWithoutDrop(ChainStep(st, ops[0]).value, ops[1..]);
    }
  }

  lemma NoDropInPlan(tm: TableModel, cur: Table, c: string)
    requires c in tm ==> !tm[c].DeleteModel?
    ensures forall i | 0 <= i < |PlanOf(tm, cur, c)| :: !PlanOf(tm, cur, c)[i].DropChain?
  {
    if c in tm {
      forall op | op in CompileChain(tm[c], c, Lookup(cur, c)).commands
        ensures !op.DropChain?
      {
        NoDropOutsideDelete(tm[c], c, Lookup(cur, c), op);
      }
    }
  }

  /** Once everything is declared, a lasting chain is there; one that was there all along
      does not even need that. */
  lemma LastingIsThere(order: seq<string>, tm: TableModel, cur: Table, n: nat, d: string)
    requires Enumerates(order, tm.Keys) && GoodTableModel(tm) && CleanTable(cur)
    requires n <= |TableScript(order, tm, cur)|
    requires d in tm ==> !tm[d].DeleteModel?
    requires d in cur || (Lasting(tm, cur, d) && n >= |Declares(order, tm, cur)|)
    ensures d in At(order, tm, cur, n)
  {
    var k := ChainInPrefix(order, tm, cur, n, d);
    var plan := PlanOf(tm, cur, d);
    NoDropInPlan(tm, cur, d);
    if d !in cur {
      DeclaredByThen(order, tm, cur, n, d);
    }
    KeptWithoutDrop(Lookup(cur, d), On(Prefix(order, tm, cur, n), d));
  }

  lemma OnPast(d: seq<Op>, first: seq<Op>, next: seq<Op>, last: seq<Op>, n: nat, c: string)
    requires AllOnChains(d) && AllOnChains(first) && AllOnChains(next) && AllOnChains(last)
    requires |d| <= n <= |d + first + next + last| && On(d, c) != []
    ensures var ops := (d + first + next + last)[..n];
            AllOnChains(ops) && On(ops, c) != [] && On(ops, c)[0] == On(d, c)[0]
  {
    var rest := first + next + last;
    assert d + first + next + last == d + rest;
    assert (d + rest)[..n] == d + rest[..n - |d|];
    OnAppend(d, rest[..n - |d|], c);
  }

  lemma DeclaredByThen(order: seq<string>, tm: TableModel, cur: Table, n: nat, d: string)
    requires Enumerates(order, tm.Keys)
    requires |Declares(order, tm, cur)| <= n <= |TableScript(order, tm, cur)|
    requires d in tm && Commands(tm, cur, d).commands != []
    ensures On(Prefix(order, tm, cur, n), d) != [] && On(Prefix(order, tm, cur, n), d)[0] == Declare(d)
  {
    var declared := Declares(order, tm, cur);
    var first, next, last := ClassOf(order, tm, cur, -128), ClassOf(order, tm, cur, 0), ClassOf(order, tm, cur, 127);
    OnDeclares(order, tm, cur, d);
    OnPast(declared, first, next, last, n, d);
  }

  /** Rules found midway were there before or are ours. */
  lemma RuleInPrefix(order: seq<string>, tm: TableModel, cur: Table, n: nat, c: string, r: Rule)
    requires Enumerates(order, tm.Keys) && GoodTableModel(tm) && CleanTable(cur)
    requires n <= |TableScript(order, tm, cur)|
    requires c in At(order, tm, cur, n) && r in At(order, tm, cur, n)[c]
    ensures (c in cur && r in cur[c]) || (c in tm && Adds(tm[c], r))
    ensures !(c in cur && r in cur[c]) ==> n >= |Declares(order, tm, cur)|
  {
    var k := ChainInPrefix(order, tm, cur, n, c);
    var st := Lookup(cur, c);
    assert Lookup(At(order, tm, cur, n), c) == Some(At(order, tm, cur, n)[c]);
    if c in tm {
      PlanRuns(tm[c], c, st);
      PrefixAddsOnlyModelRules(tm[c], c, st, k, r);
    }
    if !(c in cur && r in cur[c]) {
      RunAddsOnlyCommanded(st, PlanOf(tm, cur, c)[..k], r);
      var op :| op in On(Prefix(order, tm, cur, n), c) && (op.Append? || op.Insert?);
      var i :| 0 <= i < n && TableScript(order, tm, cur)[i] == op;
      Phases(order, tm, cur, i);
    }
  }

  lemma PatchTakesJumpOut(ordered: seq<PatchRule>, chain: string, st: ChainState, r: Rule)
    requires GoodModel(PatchModel(ordered)) && CleanState(st)
    requires PatchRule(PatchDelete, 0, r) in ordered && Count(Rules(st), r) < 256
    ensures r !in Rules(AfterCommit(PatchModel(ordered), chain, st))
  {
    PatchConverges(chain, ordered, st);
    var after := Rules(AfterCommit(PatchModel(ordered), chain, st));
    var i :| 0 <= i < |ordered| && ordered[i] == PatchRule(PatchDelete, 0, r);
    assert Count(after, ordered[i].rule) == Settled(ordered[i].option, Count(Rules(st), ordered[i].rule)) == 0;
    CountedIsMember(after, r);
  }

  lemma PatchAddsNoJump(tm: TableModel, cur: Table, c: string, r: Rule, d: string)
    requires GoodTableModel(tm) && CleanTable(cur) && TakesJumpsOut(tm, cur)
    requires c in tm && tm[c].PatchModel? && d in tm && tm[d].DeleteModel? && d in Targets(r)
    requires r in Rules(AfterCommit(tm[c], c, Lookup(cur, c)))
    ensures r in Rules(Lookup(cur, c))
  {
    var st := Lookup(cur, c);
    var plan := ChainPlan(tm[c], c, st);
    PatchConverges(c, tm[c].ordered, st);
    assert plan[..|plan|] == plan;
    PrefixAddsOnlyModelRules(tm[c], c, st, |plan|, r);
    assert !Adds(tm[c], r);
  }

  /** After its plan has run, a chain that stays holds no jump to a chain that goes. */
  lemma NoJumpsLeft(tm: TableModel, cur: Table, c: string, r: Rule, d: string)
    requires GoodTableModel(tm) && CleanTable(cur) && TakesJumpsOut(tm, cur)
    requires c in tm && !tm[c].DeleteModel? && d in tm && tm[d].DeleteModel?
    requires r in Rules(AfterCommit(tm[c], c, Lookup(cur, c)))
    ensures d !in Targets(r)
  {
    var st := Lookup(cur, c);
    match tm[c]
    case OverrideModel(rules) => OverrideConverges(c, rules, st);
    case PatchModel(ordered) =>
      if d in Targets(r) {
        PatchAddsNoJump(tm, cur, c, r, d);
        PatchTakesJumpOut(ordered, c, st, r);
        assert false;
      }
  }

  /** From the last phase on, nothing jumps to a chain that is to be deleted. */
  lemma NotReferencedAtTheEnd(order: seq<string>, tm: TableModel, cur: Table, n: nat, d: string)
    requires Enumerates(order, tm.Keys) && GoodTableModel(tm) && CleanTable(cur) && TakesJumpsOut(tm, cur)
    requires LastPhase(order, tm, cur) <= n <= |TableScript(order, tm, cur)|
    requires d in tm && tm[d].DeleteModel?
    ensures !Referenced(At(order, tm, cur, n), d)
  {
    var t := At(order, tm, cur, n);
    forall c, r | c in t && r in t[c]
      ensures d !in Targets(r)
    {
      NoJumpAtTheEnd(order, tm, cur, n, c, r, d);
    }
  }

  lemma NoJumpAtTheEnd(order: seq<string>, tm: TableModel, cur: Table, n: nat, c: string, r: Rule, d: string)
    requires Enumerates(order, tm.Keys) && GoodTableModel(tm) && CleanTable(cur) && TakesJumpsOut(tm, cur)
    requires LastPhase(order, tm, cur) <= n <= |TableScript(order, tm, cur)|
    requires d in tm && tm[d].DeleteModel? && c in At(order, tm, cur, n) && r in At(order, tm, cur, n)[c]
    ensures d !in Targets(r)
  {
    RuleInPrefix(order, tm, cur, n, c, r);
    if c in tm && !tm[c].DeleteModel? {
      ChainIsDone(order, tm, cur, n, c);
      NoJumpsLeft(tm, cur, c, r, d);
    }
  }

  /** From the last phase on, a chain that stays is as after the commit. */
  lemma ChainIsDone(order: seq<string>, tm: TableModel, cur: Table, n: nat, c: string)
    requires Enumerates(order, tm.Keys) && GoodTableModel(tm) && CleanTable(cur)
    requires LastPhase(order, tm, cur) <= n <= |TableScript(order, tm, cur)|
    requires c in tm && !tm[c].DeleteModel?
    ensures Lookup(At(order, tm, cur, n), c) == AfterCommit(tm[c], c, Lookup(cur, c))
  {
    var k := ChainInPrefix(order, tm, cur, n, c);
    assert PlanOf(tm, cur, c)[..k] == PlanOf(tm, cur, c);
    PlanRuns(tm[c], c, Lookup(cur, c));
  }

  // ---- A table's part of the script under the strict kernel ----

  lemma StrictStepAgrees(order: seq<string>, tm: TableModel, cur: Table, n: nat, user: set<string>)
    requires Enumerates(order, tm.Keys) && GoodTableModel(tm) && CleanTable(cur) && SafePlan(tm, cur, user)
    requires n < |TableScript(order, tm, cur)|
    ensures var op := TableScript(order, tm, cur)[n];
            StrictStep(At(order, tm, cur, n), op, user) == TableStep(At(order, tm, cur, n), op)
  {
    var op := TableScript(order, tm, cur)[n];
    Phases(order, tm, cur, n);
    if op.DropChain? {
      NotReferencedAtTheEnd(order, tm, cur, n, op.chain);
    } else if op.Append? || op.Insert? {
      var m := tm[op.chain];
      if m.PatchModel? {
        CompilePatchAdds(op.chain, m.ordered, Rules(Lookup(cur, op.chain)), op);
      }
      assert Adds(m, op.rule);
      forall d | d in Targets(op.rule) && d in user
        ensures d in At(order, tm, cur, n)
      {
        LastingIsThere(order, tm, cur, n, d);
      }
    }
  }

  lemma LastStep(t: Table, ops: seq<Op>, n: nat)
    requires AllOnChains(ops) && 0 < n <= |ops| && RunTable(t, ops[..n]).Ok?
    ensures ops[..n][..n - 1] == ops[..n - 1]
    ensures RunTable(t, ops[..n - 1]).Ok?
    ensures RunTable(t, ops[..n]) == TableStep(RunTable(t, ops[..n - 1]).value, ops[n - 1])
  {
    assert ops[..n] == ops[..n - 1] + [ops[n - 1]];
    RunTableAppend(t, ops[..n - 1], [ops[n - 1]]);
    assert [ops[n - 1]][1..] == [];
  }

  lemma {:induction false} StrictRunAgrees(order: seq<string>, tm: TableModel, cur: Table, n: nat, user: set<string>)
    requires Enumerates(order, tm.Keys) && GoodTableModel(tm) && CleanTable(cur) && SafePlan(tm, cur, user)
    requires n <= |TableScript(order, tm, cur)|
    ensures StrictRun(cur, Prefix(order, tm, cur, n), user) == Ok(At(order, tm, cur, n))
  {
    if n > 0 {
      StrictRunAgrees(order, tm, cur, n - 1, user);
      StrictStepAgrees(order, tm, cur, n - 1, user);
      AtNext(order, tm, cur, n);
      StrictRunNext(cur, TableScript(order, tm, cur), n, user);
    }
  }

  lemma AtNext(order: seq<string>, tm: TableModel, cur: Table, n: nat)
    requires Enumerates(order, tm.Keys) && GoodTableModel(tm) && CleanTable(cur)
    requires 0 < n <= |TableScript(order, tm, cur)|
    ensures TableStep(At(order, tm, cur, n - 1), TableScript(order, tm, cur)[n - 1]) == Ok(At(order, tm, cur, n))
  {
    PrefixRuns(order, tm, cur, n);
    LastStep(cur, TableScript(order, tm, cur), n);
  }

  lemma StrictRunNext(t: Table, ops: seq<Op>, n: nat, user: set<string>)
    requires AllOnChains(ops) && 0 < n <= |ops| && StrictRun(t, ops[..n - 1], user).Ok?
    ensures StrictRun(t, ops[..n], user) == StrictStep(StrictRun(t, ops[..n - 1], user).value, ops[n - 1], user)
  {
    assert ops[..n][..n - 1] == ops[..n - 1];
  }

  /** The strict kernel accepts a table's part of the script and ends up in the same table. */
  lemma TableIsRefSafe(order: seq<string>, tm: TableModel, cur: Table, user: set<string>)
    requires Enumerates(order, tm.Keys) && GoodTableModel(tm) && CleanTable(cur) && SafePlan(tm, cur, user)
    ensures StrictRun(cur, TableScript(order, tm, cur), user) == Ok(AfterTable(tm, cur))
  {
    var ops := TableScript(order, tm, cur);
    StrictRunAgrees(order, tm, cur, |ops|, user);
    assert ops[..|ops|] == ops;
    TableConverges(order, tm, cur);
  }

  // ---- The whole script ----

  /** The chains of each table. */
  type Users = string -> set<string>

  ghost predicate KernelRefSafe(k: Kernel, users: Users)
  {
    forall t | t in k :: RefSafe(k[t], users(t))
  }

  /** The strict kernel carries out a script to its end. */
  ghost predicate StrictAccepts(at: Cursor, ops: seq<Op>, users: Users)
    decreases |ops|
  {
    ops == [] ||
    (&& (ops[0].OnChain() ==> Accepts(TableOf(at.kernel, at.current), ops[0], users(at.current)))
     && ApplyOp(at, ops[0]).Ok?
     && StrictAccepts(ApplyOp(at, ops[0]).value, ops[1..], users))
  }

  lemma {:induction false} StrictAppend(at: Cursor, a: seq<Op>, mid: Cursor, b: seq<Op>, users: Users)
    requires StrictAccepts(at, a, users) && RunOps(at, a) == Ran(mid, true) && StrictAccepts(mid, b, users)
    ensures StrictAccepts(at, a + b, users)
    decreases |a|
  {
    if a == [] {
      assert a + b == b;
    } else {
      assert (a + b)[1..] == a[1..] + b;
      StrictAppend(ApplyOp(at, a[0]).value, a[1..], mid, b, users);
    }
  }

  lemma {:induction false} StrictRunIsRun(t: Table, ops: seq<Op>, user: set<string>)
    requires AllOnChains(ops) && StrictRun(t, ops, user).Ok?
    ensures RunTable(t, ops) == StrictRun(t, ops, user)
    decreases |ops|
  {
    if ops != [] {
      var front, last := ops[..|ops| - 1], ops[|ops| - 1];
      StrictRunIsRun(t, front, user);
      assert ops == front + [last];
      RunTableAppend(t, front, [last]);
      assert [last][1..] == [];
    }
  }

  lemma {:induction false} StrictInTable(at: Cursor, ops: seq<Op>, users: Users)
    requires at.current != "" && at.current in at.kernel && AllOnChains(ops)
    requires StrictRun(at.kernel[at.current], ops, users(at.current)).Ok?
    ensures StrictAccepts(at, ops, users)
    decreases |ops|
  {
    if ops != [] {
      var front, last := ops[..|ops| - 1], ops[|ops| - 1];
      StrictInTable(at, front, users);
      StrictRunIsRun(at.kernel[at.current], front, users(at.current));
      RunOpsInTable(at, front);
      StrictOne(RunOps(at, front).at, last, users);
      StrictAppend(at, front, RunOps(at, front).at, [last], users);
      assert ops == front + [last];
    }
  }

  lemma StrictOne(at: Cursor, op: Op, users: Users)
    requires at.current != "" && at.current in at.kernel && op.OnChain()
    requires StrictStep(at.kernel[at.current], op, users(at.current)).Ok?
    ensures StrictAccepts(at, [op], users)
  {
    assert [op][1..] == [];
  }

  lemma StrictSection(k: Kernel, t: string, ops: seq<Op>, users: Users)
    requires t != "" && AllOnChains(ops) && StrictRun(TableOf(k, t), ops, users(t)).Ok?
    ensures StrictAccepts(Cursor(k, ""), Section(t, ops), users)
  {
    if ops != [] {
      var inside := Cursor(k[t := TableOf(k, t)], t);
      StrictInTable(inside, ops, users);
      StrictRunIsRun(TableOf(k, t), ops, users(t));
      RunOpsInTable(inside, ops);
      assert StrictAccepts(RunOps(inside, ops).at, [Commit], users) by {
        assert [Commit][1..] == [];
      }
      StrictAppend(inside, ops, RunOps(inside, ops).at, [Commit], users);
      assert ([BeginTable(t)] + ops + [Commit])[1..] == ops + [Commit];
    }
  }

  /** What is asked of a model and a kernel, table by table. */
  ghost predicate SafeCommit(m: Model, k: Kernel, users: Users)
  {
    && KernelRefSafe(k, users)
    && forall t | t in m :: AddsSafeJumps(m[t], TableOf(k, t), users(t)) && TakesJumpsOut(m[t], TableOf(k, t))
  }

  lemma {:induction false} StrictTables(tables: seq<string>, chains: map<string, seq<string>>, m: Model, k: Kernel,
                                        users: Users)
    requires GoodConfig(m) && CleanKernel(k) && Visits(tables, chains, m) && SafeCommit(m, k, users)
    requires forall i, j | 0 <= i < j < |tables| :: tables[i] != tables[j]
    ensures StrictAccepts(Cursor(k, ""), Script(tables, chains, m, k), users)
    decreases |tables|
  {
    if tables != [] {
      var rest, t := tables[..|tables| - 1], tables[|tables| - 1];
      StrictTables(rest, chains, m, k, users);
      CommitTables(rest, chains, m, k);
      PartlyStep(SetOf(rest), m, k, t);
      var mid := Partly(SetOf(rest), m, k);
      TableIsRefSafe(chains[t], m[t], TableOf(k, t), users(t));
      StrictSection(mid, t, TableScript(chains[t], m[t], TableOf(k, t)), users);
      StrictAppend(Cursor(k, ""), Script(rest, chains, m, k), Cursor(mid, ""),
                   Section(t, TableScript(chains[t], m[t], TableOf(k, t))), users);
    }
  }

  /** One accepted op keeps a table reference-safe. */
  lemma StrictStepKeeps(t: Table, op: Op, user: set<string>)
    requires op.OnChain() && RefSafe(t, user) && StrictStep(t, op, user).Ok?
    ensures RefSafe(StrictStep(t, op, user).value, user)
  {
    var out := StrictStep(t, op, user).value;
    forall c, r, d | c in out && r in out[c] && d in Targets(r) && d in user
      ensures d in out
    {
      assert Lookup(out, c) == if c == op.chain then ChainStep(Lookup(t, c), op).value else Lookup(t, c);
      OldOrAdded(Lookup(t, op.chain), op, r);
      assert Lookup(out, d) == if d == op.chain then ChainStep(Lookup(t, d), op).value else Lookup(t, d);
    }
  }

  lemma OldOrAdded(st: ChainState, op: Op, r: Rule)
    requires op.OnChain() && ChainStep(st, op).Ok?
    ensures r in Rules(ChainStep(st, op).value) ==>
              r in Rules(st) || (op.Append? && op.rule == r) || (op.Insert? && op.rule == r)
  {
    if op.Delete? {
      DeleteFirstMembers(Rules(st), op.rule);
    }
  }

  lemma {:induction false} PrefixesRefSafe(at: Cursor, ops: seq<Op>, n: nat, users: Users)
    requires KernelRefSafe(at.kernel, users) && StrictAccepts(at, ops, users) && n <= |ops|
    ensures RunOps(at, ops[..n]).ok && KernelRefSafe(RunOps(at, ops[..n]).at.kernel, users)
    decreases n
  {
    if n > 0 {
      var next := ApplyOp(at, ops[0]).value;
      if ops[0].OnChain() {
        StrictStepKeeps(at.kernel[at.current], ops[0], users(at.current));
      }
      assert ops[..n][0] == ops[0] && ops[..n][1..] == ops[1..][..n - 1];
      PrefixesRefSafe(next, ops[1..], n - 1, users);
    }
  }

  /** A kernel that refuses jumps to missing chains and drops of chains still in use
      carries out the whole script of a commit, over all tables and under every visit, and
      after every prefix no rule jumps to a missing chain. */
  lemma CommitIsRefSafe(v: Visit, m: Model, k: Kernel, users: Users)
    requires GoodConfig(m) && CleanKernel(k) && v.Covers(m) && SafeCommit(m, k, users)
    ensures StrictAccepts(Cursor(k, ""), CommitScript(v, m, k), users)
    ensures forall n: nat | n <= |CommitScript(v, m, k)| ::
              var ran := RunOps(Cursor(k, ""), CommitScript(v, m, k)[..n]);
              ran.ok && KernelRefSafe(ran.at.kernel, users)
  {
    VisitsWhenCovers(v, m);
    StrictTables(v.tables, v.chains, m, k, users);
    forall n: nat | n <= |CommitScript(v, m, k)|
      ensures var ran := RunOps(Cursor(k, ""), CommitScript(v, m, k)[..n]);
              ran.ok && KernelRefSafe(ran.at.kernel, users)
    {
      PrefixesRefSafe(Cursor(k, ""), CommitScript(v, m, k), n, users);
    }
  }
}

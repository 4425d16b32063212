/**
  A commit over all tables. The registered tables and chains live in unordered maps, so a
  commit may visit them in any order; a visit is given here as sequences that enumerate
  the keys. Commands are grouped by priority: override chains first (-128), patch chains
  next (0), chains to delete last (127).

  `CommitConverges` is the main result: from any kernel state, under any visit, the script
  runs without an error and leads to `AfterKernel(m, k)`, which does not mention the visit.
 */
module Reconciler {
  import opened Text
  import opened Netfilter
  import opened Chains
  import opened Convergence

  type TableModel = map<string, ChainModel>
  type Model = map<string, TableModel>

  predicate Enumerates(order: seq<string>, keys: set<string>)
  {
    && (forall i, j | 0 <= i < j < |order| :: order[i] != order[j])
    && (forall x | x in order :: x in keys)
    && (forall x | x in keys :: x in order)
  }

  datatype Visit = Visit(tables: seq<string>, chains: map<string, seq<string>>)
  {
    predicate Covers(m: Model)
    {
      && Enumerates(tables, m.Keys)
      && forall t | t in m :: t in chains && Enumerates(chains[t], m[t].Keys)
    }
  }

  ghost predicate GoodTableModel(tm: TableModel)
  {
    forall c | c in tm :: GoodModel(tm[c])
  }

  ghost predicate CleanTable(t: Table)
  {
    forall c | c in t :: CleanRules(t[c])
  }

  // ---- The script for one table ----

  function Commands(tm: TableModel, cur: Table, c: string): Compiled
    requires c in tm
  {
    CompileChain(tm[c], c, Lookup(cur, c))
  }

  /** Each chain with something to do is declared as it is visited. */
  function Declares(order: seq<string>, tm: TableModel, cur: Table): (ops: seq<Op>)
    requires forall c | c in order :: c in tm
    ensures AllOnChains(ops)
  {
    if order == [] then []
    else (if Commands(tm, cur, order[0]).commands == [] then [] else [Declare(order[0])])
         + Declares(order[1..], tm, cur)
  }

  /** The commands of one priority, in visiting order. */
  function ClassOf(order: seq<string>, tm: TableModel, cur: Table, priority: int): (ops: seq<Op>)
    requires forall c | c in order :: c in tm
    ensures AllOnChains(ops)
  {
    if order == [] then []
    else
      CompileNames(tm[order[0]], order[0], Lookup(cur, order[0]));
      (if Commands(tm, cur, order[0]).priority == priority then Commands(tm, cur, order[0]).commands else [])
      + ClassOf(order[1..], tm, cur, priority)
  }

  function TableScript(order: seq<string>, tm: TableModel, cur: Table): (ops: seq<Op>)
    requires forall c | c in order :: c in tm
    ensures AllOnChains(ops)
  {
    Declares(order, tm, cur)
    + ClassOf(order, tm, cur, -128) + ClassOf(order, tm, cur, 0) + ClassOf(order, tm, cur, 127)
  }

  lemma MemberOfTail(order: seq<string>, c: string)
    requires order != [] && forall i, j | 0 <= i < j < |order| :: order[i] != order[j]
    ensures order[0] !in order[1..]
    ensures c in order <==> c == order[0] || c in order[1..]
  {
  }

  lemma {:induction false} OnDeclares(order: seq<string>, tm: TableModel, cur: Table, c: string)
    requires forall x | x in order :: x in tm
    requires forall i, j | 0 <= i < j < |order| :: order[i] != order[j]
    ensures On(Declares(order, tm, cur), c) ==
            if c in order && Commands(tm, cur, c).commands != [] then [Declare(c)] else []
  {
    if order != [] {
      OnDeclares(order[1..], tm, cur, c);
      MemberOfTail(order, c);
      var head: seq<Op> := if Commands(tm, cur, order[0]).commands == [] then [] else [Declare(order[0])];
      OnAppend(head, Declares(order[1..], tm, cur), c);
      OnSameChain(head, c);
    }
  }

  lemma {:induction false} OnClass(order: seq<string>, tm: TableModel, cur: Table, priority: int, c: string)
    requires forall x | x in order :: x in tm
    requires forall i, j | 0 <= i < j < |order| :: order[i] != order[j]
    ensures On(ClassOf(order, tm, cur, priority), c) ==
            if c in order && Commands(tm, cur, c).priority == priority then Commands(tm, cur, c).commands else []
  {
    if order != [] {
      OnClass(order[1..], tm, cur, priority, c);
      MemberOfTail(order, c);
      CompileNames(tm[order[0]], order[0], Lookup(cur, order[0]));
      var own := Commands(tm, cur, order[0]);
      var head := if own.priority == priority then own.commands else [];
      OnAppend(head, ClassOf(order[1..], tm, cur, priority), c);
      OnSameChain(head, c);
    }
  }

  lemma OneClass(d: seq<Op>, own: Compiled, first: seq<Op>, next: seq<Op>, last: seq<Op>)
    requires own.priority in {-128, 0, 127}
    requires first == if own.priority == -128 then own.commands else []
    requires next == if own.priority == 0 then own.commands else []
    requires last == if own.priority == 127 then own.commands else []
    ensures d + first + next + last == d + own.commands
  {
  }

  lemma OnParts(d: seq<Op>, first: seq<Op>, next: seq<Op>, last: seq<Op>, c: string)
    requires AllOnChains(d) && AllOnChains(first) && AllOnChains(next) && AllOnChains(last)
    ensures AllOnChains(d + first + next + last)
    ensures On(d + first + next + last, c) == On(d, c) + On(first, c) + On(next, c) + On(last, c)
  {
    OnAppend(d, first, c);
    OnAppend(d + first, next, c);
    OnAppend(d + first + next, last, c);
  }

  /** Whatever the visit, a chain's share of the script is its own plan. */
  lemma OnTableScript(order: seq<string>, tm: TableModel, cur: Table, c: string)
    requires Enumerates(order, tm.Keys)
    ensures On(TableScript(order, tm, cur), c) ==
            if c in tm then ChainPlan(tm[c], c, Lookup(cur, c)) else []
  {
    var d, first, next, last := Declares(order, tm, cur), ClassOf(order, tm, cur, -128),
                                ClassOf(order, tm, cur, 0), ClassOf(order, tm, cur, 127);
    OnParts(d, first, next, last, c);
    OnDeclares(order, tm, cur, c);
    OnClass(order, tm, cur, -128, c);
    OnClass(order, tm, cur, 0, c);
    OnClass(order, tm, cur, 127, c);
    if c in tm {
      OneClass(On(d, c), Commands(tm, cur, c), On(first, c), On(next, c), On(last, c));
    }
  }

  // ---- One table after a commit ----

  ghost function AfterChain(tm: TableModel, cur: Table, c: string): ChainState
    requires GoodTableModel(tm) && CleanTable(cur)
  {
    if c in tm then AfterCommit(tm[c], c, Lookup(cur, c)) else Lookup(cur, c)
  }

  ghost function AfterTable(tm: TableModel, cur: Table): (out: Table)
    requires GoodTableModel(tm) && CleanTable(cur)
    ensures forall c :: Lookup(out, c) == AfterChain(tm, cur, c)
  {
    map c | c in cur.Keys + tm.Keys && AfterChain(tm, cur, c).Some? :: AfterChain(tm, cur, c).value
  }

  lemma TableConverges(order: seq<string>, tm: TableModel, cur: Table)
    requires Enumerates(order, tm.Keys) && GoodTableModel(tm) && CleanTable(cur)
    ensures RunTable(cur, TableScript(order, tm, cur)) == Ok(AfterTable(tm, cur))
  {
    var ops := TableScript(order, tm, cur);
    forall c
      ensures RunChain(Lookup(cur, c), On(ops, c)) == Ok(AfterChain(tm, cur, c))
    {
      OnTableScript(order, tm, cur, c);
      if c in tm {
        PlanRuns(tm[c], c, Lookup(cur, c));
      }
    }
    RunTableIfChainsRun(cur, ops);
    var out := RunTable(cur, ops).value;
    forall c
      ensures Lookup(out, c) == Lookup(AfterTable(tm, cur), c)
    {
      RunTableByChain(cur, ops, c);
      assert RunChain(Lookup(cur, c), On(ops, c)) == Ok(AfterChain(tm, cur, c));
    }
    SameTable(out, AfterTable(tm, cur));
  }

  lemma {:induction false} NothingToDo(order: seq<string>, tm: TableModel, cur: Table)
    requires forall x | x in order :: x in tm
    requires forall c | c in order :: Commands(tm, cur, c).commands == []
    ensures TableScript(order, tm, cur) == []
  {
    if order != [] {
      NothingToDo(order[1..], tm, cur);
    }
  }

  // ---- The whole kernel ----

  ghost predicate GoodConfig(m: Model)
  {
    forall t | t in m :: t != "" && GoodTableModel(m[t])
  }

  ghost predicate CleanKernel(k: Kernel)
  {
    forall t | t in k :: CleanTable(k[t])
  }

  function Section(t: string, ops: seq<Op>): seq<Op>
  {
    if ops == [] then [] else [BeginTable(t)] + ops + [Commit]
  }

  predicate Visits(tables: seq<string>, chains: map<string, seq<string>>, m: Model)
  {
    forall i | 0 <= i < |tables| ::
      tables[i] in m && tables[i] in chains && Enumerates(chains[tables[i]], m[tables[i]].Keys)
  }

  function Script(tables: seq<string>, chains: map<string, seq<string>>, m: Model, k: Kernel): seq<Op>
    requires Visits(tables, chains, m)
    decreases |tables|
  {
    if tables == [] then []
    else
      var t := tables[|tables| - 1];
      Script(tables[..|tables| - 1], chains, m, k) + Section(t, TableScript(chains[t], m[t], TableOf(k, t)))
  }

  function CommitScript(v: Visit, m: Model, k: Kernel): seq<Op>
    requires v.Covers(m)
  {
    Script(v.tables, v.chains, m, k)
  }

  /** A table is touched when some chain of it has something to do. */
  predicate Touched(m: Model, k: Kernel, t: string)
  {
    t in m && exists c :: c in m[t] && Commands(m[t], TableOf(k, t), c).commands != []
  }

  /** A table, when those in `visited` have been committed. None: there is no such table. */
  ghost function TableWhen(visited: set<string>, m: Model, k: Kernel, t: string): Option<Table>
    requires GoodConfig(m) && CleanKernel(k)
  {
    if t in visited && Touched(m, k, t) then Some(AfterTable(m[t], TableOf(k, t)))
    else if t in k then Some(k[t])
    else None
  }

  ghost function Partly(visited: set<string>, m: Model, k: Kernel): Kernel
    requires GoodConfig(m) && CleanKernel(k)
  {
    map t | t in k.Keys + m.Keys && TableWhen(visited, m, k, t).Some? :: TableWhen(visited, m, k, t).value
  }

  function KernelAt(k: Kernel, t: string): Option<Table> { if t in k then Some(k[t]) else None }

  lemma PartlyAt(visited: set<string>, m: Model, k: Kernel, t: string)
    requires GoodConfig(m) && CleanKernel(k)
    ensures KernelAt(Partly(visited, m, k), t) == TableWhen(visited, m, k, t)
  {
  }

  lemma SameKernel(a: Kernel, b: Kernel)
    requires forall t :: KernelAt(a, t) == KernelAt(b, t)
    ensures a == b
  {
    assert forall t :: t in a ==> KernelAt(b, t) == Some(a[t]);
    assert forall t :: t in b ==> KernelAt(a, t) == Some(b[t]);
  }

  lemma PartlyStep(visited: set<string>, m: Model, k: Kernel, t: string)
    requires GoodConfig(m) && CleanKernel(k) && t !in visited
    ensures Partly(visited + {t}, m, k) ==
            if Touched(m, k, t) then Partly(visited, m, k)[t := AfterTable(m[t], TableOf(k, t))]
            else Partly(visited, m, k)
    ensures TableOf(Partly(visited, m, k), t) == TableOf(k, t)
  {
    PartlyAt(visited, m, k, t);
    var before, after := Partly(visited, m, k), Partly(visited + {t}, m, k);
    var expected := if Touched(m, k, t) then before[t := AfterTable(m[t], TableOf(k, t))] else before;
    forall x
      ensures KernelAt(after, x) == KernelAt(expected, x)
    {
      PartlyAt(visited, m, k, x);
      PartlyAt(visited + {t}, m, k, x);
    }
    SameKernel(after, expected);
  }

  ghost function AfterKernel(m: Model, k: Kernel): Kernel
    requires GoodConfig(m) && CleanKernel(k)
  {
    Partly(m.Keys, m, k)
  }

  lemma UntouchedTable(m: Model, k: Kernel, t: string)
    requires GoodConfig(m) && CleanKernel(k) && t in m && !Touched(m, k, t)
    ensures AfterTable(m[t], TableOf(k, t)) == TableOf(k, t)
  {
    var cur := TableOf(k, t);
    forall c
      ensures AfterChain(m[t], cur, c) == Lookup(cur, c)
    {
      if c in m[t] {
        assert Commands(m[t], cur, c).commands == [];
      }
    }
    SameTable(AfterTable(m[t], cur), cur);
  }

  lemma ScriptIsEmptyIffUntouched(order: seq<string>, m: Model, k: Kernel, t: string)
    requires t in m && Enumerates(order, m[t].Keys)
    ensures TableScript(order, m[t], TableOf(k, t)) == [] <==> !Touched(m, k, t)
  {
    var cur := TableOf(k, t);
    if Touched(m, k, t) {
      var c :| c in m[t] && Commands(m[t], cur, c).commands != [];
      OnTableScript(order, m[t], cur, c);
    } else {
      NothingToDo(order, m[t], cur);
    }
  }

  lemma CommitOneTable(order: seq<string>, visited: set<string>, m: Model, k: Kernel, t: string)
    requires GoodConfig(m) && CleanKernel(k)
    requires t in m && t !in visited && Enumerates(order, m[t].Keys)
    ensures RunOps(Cursor(Partly(visited, m, k), ""), Section(t, TableScript(order, m[t], TableOf(k, t)))) ==
            Ran(Cursor(Partly(visited + {t}, m, k), ""), true)
  {
    PartlyStep(visited, m, k, t);
    ScriptIsEmptyIffUntouched(order, m, k, t);
    if Touched(m, k, t) {
      TableConverges(order, m[t], TableOf(k, t));
      RunSection(Partly(visited, m, k), t, TableScript(order, m[t], TableOf(k, t)));
    }
  }

  function SetOf(tables: seq<string>): set<string> { set t | t in tables }

  lemma {:induction false} CommitTables(tables: seq<string>, chains: map<string, seq<string>>, m: Model, k: Kernel)
    requires GoodConfig(m) && CleanKernel(k) && Visits(tables, chains, m)
    requires forall i, j | 0 <= i < j < |tables| :: tables[i] != tables[j]
    ensures RunOps(Cursor(k, ""), Script(tables, chains, m, k)) ==
            Ran(Cursor(Partly(SetOf(tables), m, k), ""), true)
    decreases |tables|
  {
    if tables == [] {
      PartlyNone(m, k);
    } else {
      var rest, t := tables[..|tables| - 1], tables[|tables| - 1];
      CommitTables(rest, chains, m, k);
      LastIsNew(tables);
      CommitNext(Script(rest, chains, m, k), chains[t], SetOf(rest), m, k, t);
    }
  }

  lemma LastIsNew(tables: seq<string>)
    requires tables != [] && forall i, j | 0 <= i < j < |tables| :: tables[i] != tables[j]
    ensures var rest, t := tables[..|tables| - 1], tables[|tables| - 1];
            t !in SetOf(rest) && SetOf(tables) == SetOf(rest) + {t}
  {
    var rest, t := tables[..|tables| - 1], tables[|tables| - 1];
    SetOfSnoc(rest, t);
    assert tables == rest + [t];
  }

  lemma CommitNext(sofar: seq<Op>, order: seq<string>, visited: set<string>, m: Model, k: Kernel, t: string)
    requires GoodConfig(m) && CleanKernel(k)
    requires t in m && t !in visited && Enumerates(order, m[t].Keys)
    requires RunOps(Cursor(k, ""), sofar) == Ran(Cursor(Partly(visited, m, k), ""), true)
    ensures RunOps(Cursor(k, ""), sofar + Section(t, TableScript(order, m[t], TableOf(k, t)))) ==
            Ran(Cursor(Partly(visited + {t}, m, k), ""), true)
  {
    CommitOneTable(order, visited, m, k, t);
    RunBoth(Cursor(k, ""), sofar, Cursor(Partly(visited, m, k), ""),
            Section(t, TableScript(order, m[t], TableOf(k, t))), Cursor(Partly(visited + {t}, m, k), ""));
  }

  lemma SetOfSnoc(tables: seq<string>, t: string)
    ensures SetOf(tables + [t]) == SetOf(tables) + {t}
  {
  }

  lemma PartlyNone(m: Model, k: Kernel)
    requires GoodConfig(m) && CleanKernel(k)
    ensures Partly({}, m, k) == k
  {
    forall t
      ensures KernelAt(Partly({}, m, k), t) == KernelAt(k, t)
    {
      PartlyAt({}, m, k, t);
    }
    SameKernel(Partly({}, m, k), k);
  }

  /** Convergence: no kernel state makes the script fail, and no visit changes its outcome. */
  lemma CommitConverges(v: Visit, m: Model, k: Kernel)
    requires GoodConfig(m) && CleanKernel(k) && v.Covers(m)
    ensures RunOps(Cursor(k, ""), CommitScript(v, m, k)) == Ran(Cursor(AfterKernel(m, k), ""), true)
  {
    VisitsWhenCovers(v, m);
    CommitTables(v.tables, v.chains, m, k);
    assert SetOf(v.tables) == m.Keys;
  }

  lemma VisitsWhenCovers(v: Visit, m: Model)
    requires v.Covers(m)
    ensures Visits(v.tables, v.chains, m)
  {
  }

  // ---- What the kernel holds after a commit ----

  function ChainAt(k: Kernel, t: string, c: string): ChainState { Lookup(TableOf(k, t), c) }

  lemma AfterKernelByChain(m: Model, k: Kernel, t: string, c: string)
    requires GoodConfig(m) && CleanKernel(k)
    ensures ChainAt(AfterKernel(m, k), t, c) ==
            if t in m && c in m[t] then AfterCommit(m[t][c], c, ChainAt(k, t, c)) else ChainAt(k, t, c)
  {
    if t in m && t !in k && !Touched(m, k, t) {
      UntouchedTable(m, k, t);
      assert AfterChain(m[t], TableOf(k, t), c) == ChainAt(k, t, c);
    }
  }

  /** Override chains equal the model, deleted chains are gone, our patch rules settle,
      and everything else stays, in its order. */
  lemma AfterCommitHolds(m: Model, k: Kernel, t: string, c: string)
    requires GoodConfig(m) && CleanKernel(k)
    ensures var before, after := ChainAt(k, t, c), ChainAt(AfterKernel(m, k), t, c);
            if t !in m || c !in m[t] then after == before
            else match m[t][c]
              case DeleteModel => after == None
              case OverrideModel(rules) => after == Some(rules)
              case PatchModel(ordered) =>
                && Outside(Rules(after), OurRules(ordered)) == Outside(Rules(before), OurRules(ordered))
                && AllSettled(ordered, Rules(after), Rules(before))
  {
    AfterKernelByChain(m, k, t, c);
    if t in m && c in m[t] {
      var before := ChainAt(k, t, c);
      match m[t][c]
      case DeleteModel => DeleteConverges(c, before);
      case OverrideModel(rules) => OverrideConverges(c, rules, before);
      case PatchModel(ordered) => PatchConverges(c, ordered, before);
    }
  }

  lemma AfterKernelIsClean(m: Model, k: Kernel)
    requires GoodConfig(m) && CleanKernel(k)
    ensures CleanKernel(AfterKernel(m, k))
  {
    var out := AfterKernel(m, k);
    forall t, c | t in out && c in out[t]
      ensures CleanRules(out[t][c])
    {
      assert ChainAt(out, t, c) == Some(out[t][c]);
      AfterKernelByChain(m, k, t, c);
      if t in m && c in m[t] {
        AfterCommitIsClean(m[t][c], c, ChainAt(k, t, c));
      } else {
        assert ChainAt(k, t, c) == Some(k[t][c]);
      }
    }
  }

  lemma {:induction false} EmptyScript(tables: seq<string>, chains: map<string, seq<string>>, m: Model, k: Kernel)
    requires Visits(tables, chains, m) && forall i | 0 <= i < |tables| :: !Touched(m, k, tables[i])
    ensures Script(tables, chains, m, k) == []
  {
    if tables != [] {
      var rest, t := tables[..|tables| - 1], tables[|tables| - 1];
      ScriptIsEmptyIffUntouched(chains[t], m, k, t);
      EmptyScript(rest, chains, m, k);
    }
  }

  /** A second commit, under whatever visit, has nothing to send to the kernel. */
  lemma SecondCommitSendsNothing(v: Visit, m: Model, k: Kernel)
    requires GoodConfig(m) && CleanKernel(k) && v.Covers(m)
    ensures CommitScript(v, m, AfterKernel(m, k)) == []
  {
    var out := AfterKernel(m, k);
    forall t | t in m
      ensures !Touched(m, out, t)
    {
      forall c | c in m[t]
        ensures Commands(m[t], TableOf(out, t), c).commands == []
      {
        AfterKernelByChain(m, k, t, c);
        SecondCommitIsEmpty(m[t][c], c, ChainAt(k, t, c));
      }
    }
    EmptyScript(v.tables, v.chains, m, out);
  }
}

/**
  The objects: a kernel that saves and restores text, and the reconciler that keeps the
  registered chains and commits them. `CommitContext` reads the kernel, compiles every
  chain, prints a script and applies it; its contract is the convergence result of
  Reconciler.dfy on the real fields.
 */
module IPTables {
  import opened Text
  import opened Netfilter
  import opened Chains
  import opened Convergence
  import opened Reconciler
  import opened ScriptText

  class FakeKernel {
    var rules: Kernel
    var restoreCalls: nat

    constructor (initial: Kernel)
      ensures rules == initial && restoreCalls == 0
    {
      rules := initial;
      restoreCalls := 0;
    }

    /** Prints the tables in some order, and their chains in some order. */
    method Save() returns (text: string, ghost tables: seq<string>, ghost chains: map<string, seq<string>>)
      ensures Enumerates(tables, rules.Keys) && SaveVisits(tables, chains, rules)
      ensures text == Print(SavedOps(tables, chains, rules))
      ensures PrintableKernel(rules) ==> ParseSaved(text) == Ran(Cursor(rules, ""), true)
    {
      text, tables, chains := "", [], map[];
      var todo := rules.Keys;
      while todo != {}
        invariant todo <= rules.Keys && Enumerates(tables, rules.Keys - todo)
        invariant SaveVisits(tables, chains, rules)
        invariant chains.Keys == rules.Keys - todo
        invariant text == Print(SavedOps(tables, chains, rules))
      {
        var t :| t in todo;
        todo := todo - {t};
        var names := Listing(rules[t].Keys);
        SaveStep(tables, chains, rules, t, names);
        EnumeratesSnoc(tables, rules.Keys, todo, t);
        text := text + Print(SavedSection(t, names, rules[t]));
        chains := chains[t := names];
        tables := tables + [t];
      }
      assert rules.Keys - todo == rules.Keys;
      if PrintableKernel(rules) {
        ParseOfSaveIsIdentity(tables, chains, rules);
      }
    }

    /** Carries out the text line by line; stops at the first line it cannot carry out,
        keeping what it has done. */
    method Restore(text: string) returns (ok: bool)
      modifies this
      ensures RestoreText(old(rules), text) == Ran(Cursor(rules, RestoreText(old(rules), text).at.current), ok)
      ensures restoreCalls == old(restoreCalls) + 1
    {
      restoreCalls := restoreCalls + 1;
      var lines := RestoreLines(text);
      var current := "";
      var i := 0;
      while i < |lines|
        invariant 0 <= i <= |lines|
        invariant restoreCalls == old(restoreCalls) + 1
        invariant ReadLines(Cursor(rules, current), lines[i..]) == RestoreText(old(rules), text)
      {
        assert lines[i..][0] == lines[i] && lines[i..][1..] == lines[i + 1..];
        match lines[i] {
          case Blank =>
          case Bad => return false;
          case Does(op) =>
            current, ok := Execute(current, op);
            if !ok {
              return false;
            }
        }
        i := i + 1;
      }
      ok := true;
    }

    method Execute(current: string, op: Op) returns (next: string, ok: bool)
      modifies this`rules
      ensures ok ==> ApplyOp(Cursor(old(rules), current), op) == Ok(Cursor(rules, next))
      ensures !ok ==> ApplyOp(Cursor(old(rules), current), op) == Failed && rules == old(rules) && next == current
    {
      next, ok := current, true;
      match op {
        case BeginTable(t) =>
          if t !in rules {
            rules := rules[t := map[]];
          }
          assert old(rules)[t := TableOf(old(rules), t)] == rules;
          return t, true;
        case Commit =>
          return "", true;
        case _ =>
      }
      if current !in rules || (!op.Declare? && current == "") {
        return current, false;
      }
      var chains := rules[current];
      var have := if op.chain in chains then chains[op.chain] else [];
      match op {
        case Declare(c) => chains := chains[c := have];
        case Append(c, r) => chains := chains[c := have + [r]];
        case Insert(c, pos, r) =>
          if pos < 1 {
            return current, false;
          }
          var at := if pos > |have| + 1 then |have| + 1 else pos;
          chains := chains[c := have[..at - 1] + [r] + have[at - 1..]];
        case Delete(c, r) =>
          var found := false;
          for i := 0 to |have|
            invariant !found && r !in have[..i] && chains == rules[current] && rules == old(rules)
          {
            if have[i] == r {
              DeleteFirstAt(have, i, r);
              chains := chains[c := have[..i] + have[i + 1..]];
              found := true;
              break;
            }
          }
          assert have[..|have|] == have;
          if !found {
            return current, false;
          }
        case Flush(c) => chains := chains[c := []];
        case DropChain(c) =>
          if have != [] {
            return current, false;
          }
          chains := chains - {c};
      }
      rules := rules[current := chains];
    }
  }

  // ---- The reconciler ----

  datatype ChainRef =
    | DeleteRef
    | OverrideRef(over: ChainOverride)
    | PatchRef(patch: ChainPatch)
  {
    ghost function Objects(): set<object>
    {
      match this
      case DeleteRef => {}
      case OverrideRef(o) => {o}
      case PatchRef(p) => {p}
    }

    /** The object stands for chain `m`, registered as `c` of table `t`. */
    ghost predicate Holds(t: string, c: string, m: ChainModel)
      reads Objects()
    {
      match this
      case DeleteRef => m == DeleteModel
      case OverrideRef(o) => o.home == (t, c) && m == OverrideModel(o.rules)
      case PatchRef(p) => p.home == (t, c) && p.Valid() && m == PatchModel(p.orderedRules)
    }
  }

  /** The model with one chain replaced. */
  function Registered(m: Model, t: string, c: string, chain: ChainModel): Model
  {
    m[t := (if t in m then m[t] else map[])[c := chain]]
  }

  predicate Has(m: Model, t: string, c: string) { t in m && c in m[t] }

  /** What the three editing calls mean for a chain of each kind. */
  function Appending(m: ChainModel, r: Rule): ChainModel
  {
    match m
    case DeleteModel => m
    case OverrideModel(rules) => OverrideModel(rules + [r])
    case PatchModel(ordered) => PatchModel(Without(ordered, r) + [PatchRule(PatchAppend, 0, r)])
  }

  function Inserting(m: ChainModel, n: int, r: Rule): ChainModel
  {
    match m
    case DeleteModel => m
    case OverrideModel(rules) =>
      if 1 <= n <= |rules| + 1 then OverrideModel(rules[..n - 1] + [r] + rules[n - 1..]) else m
    case PatchModel(ordered) => PatchModel(Without(ordered, r) + [PatchRule(PatchInsert, n, r)])
  }

  function Deleting(m: ChainModel, r: Rule): ChainModel
  {
    match m
    case DeleteModel => m
    case OverrideModel(rules) => if r in rules then OverrideModel(DeleteFirst(rules, r)) else m
    case PatchModel(ordered) => PatchModel(Without(ordered, r) + [PatchRule(PatchDelete, 0, r)])
  }

  method AppendTo(ref: ChainRef, ghost t: string, ghost c: string, ghost m: ChainModel, r: Rule)
    requires ref.Holds(t, c, m)
    modifies ref.Objects()
    ensures ref.Holds(t, c, Appending(m, r))
  {
    match ref {
      case DeleteRef =>
      case OverrideRef(o) => o.AppendRule(r);
      case PatchRef(p) => p.AppendRule(r);
    }
  }

  method InsertTo(ref: ChainRef, ghost t: string, ghost c: string, ghost m: ChainModel, ruleNum: int, r: Rule)
    requires ref.Holds(t, c, m)
    modifies ref.Objects()
    ensures ref.Holds(t, c, Inserting(m, ruleNum, r))
  {
    match ref {
      case DeleteRef =>
      case OverrideRef(o) => o.InsertRule(ruleNum, r);
      case PatchRef(p) => p.InsertRule(ruleNum, r);
    }
  }

  method DeleteTo(ref: ChainRef, ghost t: string, ghost c: string, ghost m: ChainModel, r: Rule)
    requires ref.Holds(t, c, m)
    modifies ref.Objects()
    ensures ref.Holds(t, c, Deleting(m, r))
  {
    match ref {
      case DeleteRef =>
      case OverrideRef(o) => o.DeleteRule(r);
      case PatchRef(p) => p.DeleteRule(r);
    }
  }

  class IPTables {
    var rules: map<string, map<string, ChainRef>>
    var deferred: bool
    const kernel: FakeKernel

    /** What the registered objects stand for. */
    ghost var model: Model
    ghost var Repr: set<object>

    ghost predicate Stands(t: string, c: string)
      requires Has(model, t, c) && t in rules && c in rules[t]
      reads this, Repr
    {
      rules[t][c].Objects() <= Repr && rules[t][c].Holds(t, c, model[t][c])
    }

    ghost predicate Valid()
      reads this, Repr
    {
      && this !in Repr && (kernel as object) !in Repr
      && rules.Keys == model.Keys
      && (forall t | t in rules :: rules[t].Keys == model[t].Keys)
      && (forall t, c {:trigger Stands(t, c)} | t in rules && c in rules[t] :: Stands(t, c))
    }

    constructor (k: FakeKernel)
      ensures Valid() && model == map[] && kernel == k && !deferred && Repr == {}
    {
      rules, model, Repr := map[], map[], {};
      deferred := false;
      kernel := k;
    }

    method Register(t: string, c: string, ref: ChainRef, ghost m: ChainModel)
      requires Valid() && ref.Holds(t, c, m) && this !in ref.Objects() && (kernel as object) !in ref.Objects()
      modifies this`rules, this`model, this`Repr
      ensures Valid() && model == Registered(old(model), t, c, m) && Repr == old(Repr) + ref.Objects()
    {
      var chains := if t in rules then rules[t] else map[];
      rules := rules[t := chains[c := ref]];
      model := Registered(model, t, c, m);
      Repr := Repr + ref.Objects();
      forall u, d | u in rules && d in rules[u]
        ensures Stands(u, d)
      {
        if (u, d) != (t, c) {
          assert old(Stands(u, d));
        }
      }
    }

    method RegisterChainDelete(t: string, c: string)
      requires Valid()
      modifies this`rules, this`model, this`Repr
      ensures Valid() && model == Registered(old(model), t, c, DeleteModel) && fresh(Repr - old(Repr))
    {
      Register(t, c, DeleteRef, DeleteModel);
    }

    method RegisterChainPatch(t: string, c: string)
      requires Valid()
      modifies this`rules, this`model, this`Repr
      ensures Valid() && model == Registered(old(model), t, c, PatchModel([])) && fresh(Repr - old(Repr))
    {
      var p := new ChainPatch(t, c);
      Register(t, c, PatchRef(p), PatchModel([]));
    }

    method RegisterChainOverride(t: string, c: string)
      requires Valid()
      modifies this`rules, this`model, this`Repr
      ensures Valid() && model == Registered(old(model), t, c, OverrideModel([])) && fresh(Repr - old(Repr))
    {
      var o := new ChainOverride(t, c);
      Register(t, c, OverrideRef(o), OverrideModel([]));
    }

    lemma OthersApart(t: string, c: string)
      requires Valid() && t in rules && c in rules[t]
      ensures forall u, d | u in rules && d in rules[u] && (u != t || d != c) ::
                rules[u][d].Objects() !! rules[t][c].Objects()
    {
      forall u, d | u in rules && d in rules[u] && (u != t || d != c)
        ensures rules[u][d].Objects() !! rules[t][c].Objects()
      {
        assert Stands(u, d) && Stands(t, c);
      }
    }

    /** A chain that was never registered is an error; nothing changes then. */
    method Append(t: string, c: string, r: Rule) returns (ok: bool)
      requires Valid()
      modifies this`model, Repr
      ensures Valid()
      ensures ok == Has(old(model), t, c)
      ensures model == if ok then Registered(old(model), t, c, Appending(old(model)[t][c], r)) else old(model)
    {
      if t !in rules || c !in rules[t] {
        return false;
      }
      ghost var edited := Appending(model[t][c], r);
      OthersApart(t, c);
      assert Stands(t, c);
      AppendTo(rules[t][c], t, c, model[t][c], r);
      model := Registered(model, t, c, edited);
      forall u, d | u in rules && d in rules[u]
        ensures Stands(u, d)
      {
        if (u, d) != (t, c) {
          assert old(Stands(u, d));
        }
      }
      ok := true;
    }

    method Insert(t: string, c: string, ruleNum: int, r: Rule) returns (ok: bool)
      requires Valid()
      modifies this`model, Repr
      ensures Valid()
      ensures ok == Has(old(model), t, c)
      ensures model == if ok then Registered(old(model), t, c, Inserting(old(model)[t][c], ruleNum, r)) else old(model)
    {
      if t !in rules || c !in rules[t] {
        return false;
      }
      ghost var edited := Inserting(model[t][c], ruleNum, r);
      OthersApart(t, c);
      assert Stands(t, c);
      InsertTo(rules[t][c], t, c, model[t][c], ruleNum, r);
      model := Registered(model, t, c, edited);
      forall u, d | u in rules && d in rules[u]
        ensures Stands(u, d)
      {
        if (u, d) != (t, c) {
          assert old(Stands(u, d));
        }
      }
      ok := true;
    }

    method Delete(t: string, c: string, r: Rule) returns (ok: bool)
      requires Valid()
      modifies this`model, Repr
      ensures Valid()
      ensures ok == Has(old(model), t, c)
      ensures model == if ok then Registered(old(model), t, c, Deleting(old(model)[t][c], r)) else old(model)
    {
      if t !in rules || c !in rules[t] {
        return false;
      }
      ghost var edited := Deleting(model[t][c], r);
      OthersApart(t, c);
      assert Stands(t, c);
      DeleteTo(rules[t][c], t, c, model[t][c], r);
      model := Registered(model, t, c, edited);
      forall u, d | u in rules && d in rules[u]
        ensures Stands(u, d)
      {
        if (u, d) != (t, c) {
          assert old(Stands(u, d));
        }
      }
      ok := true;
    }

    /** Reads the kernel's own text. */
    method GetCurrentRules() returns (current: Kernel, ok: bool)
      ensures PrintableKernel(kernel.rules) ==> ok && current == kernel.rules
    {
      var data, _, _ := kernel.Save();
      var lines := SaveLines(data);
      var at := Cursor(map[], "");
      var i := 0;
      while i < |lines|
        invariant 0 <= i <= |lines| && ReadLines(at, lines[i..]) == ParseSaved(data)
      {
        assert lines[i..][0] == lines[i] && lines[i..][1..] == lines[i + 1..];
        match ReadLine(at, lines[i]) {
          case Failed => return at.kernel, false;
          case Ok(next) => at := next;
        }
        i := i + 1;
      }
      current, ok := at.kernel, true;
    }

    static method Compile(ref: ChainRef, t: string, c: string, existing: ChainState, ghost m: ChainModel)
      returns (out: Compiled)
      requires ref.Holds(t, c, m)
      ensures out == CompileChain(m, c, existing)
    {
      match ref {
        case DeleteRef => out := CompileDelete(c, existing);
        case OverrideRef(o) => out := o.Compile(c, existing);
        case PatchRef(p) => out := p.Compile(c, Rules(existing));
      }
    }

    /** The commands of each priority, in ascending order of priority. */
    static method PrintByPriority(buckets: map<int, seq<Op>>) returns (text: string)
      requires buckets.Keys <= {-128, 0, 127}
      ensures text == Print(Bucket(buckets, -128) + Bucket(buckets, 0) + Bucket(buckets, 127))
    {
      text := "";
      for p := -128 to 128
        invariant text == Print(Below(buckets, p))
      {
        BelowStep(buckets, p);
        if p in buckets {
          text := text + Print(buckets[p]);
        }
      }
    }

    /** Declares a chain with something to do and files its commands under their priority. */
    static method Collect(t: string, c: string, out: Compiled, header: string, buckets: map<int, seq<Op>>)
      returns (header': string, buckets': map<int, seq<Op>>)
      ensures header' == if out.commands == [] then header
                         else (if header == "" then Print([BeginTable(t)]) else header) + Print([Declare(c)])
      ensures buckets'.Keys == buckets.Keys + {out.priority}
      ensures forall p :: Bucket(buckets', p) ==
                          if out.priority == p then Bucket(buckets, p) + out.commands else Bucket(buckets, p)
    {
      header', buckets' := header, buckets;
      if out.priority !in buckets' {
        buckets' := buckets'[out.priority := []];
      }
      if |out.commands| > 0 {
        if header' == "" {
          header' := Print([BeginTable(t)]);
        }
        header' := header' + Print([Declare(c)]);
        buckets' := buckets'[out.priority := buckets'[out.priority] + out.commands];
      }
    }

    /** Visits the chains of a table: header and declarations, and the commands by priority. */
    method VisitChains(t: string, cur: Table)
      returns (header: string, buckets: map<int, seq<Op>>, ghost order: seq<string>)
      requires Valid() && t in rules
      ensures Enumerates(order, model[t].Keys) && Progress(t, order, model[t], cur, header, buckets)
    {
      var table := rules[t];
      header, buckets, order := "", map[], [];
      var todo := table.Keys;
      while todo != {}
        invariant todo <= table.Keys && Enumerates(order, table.Keys - todo)
        invariant Progress(t, order, model[t], cur, header, buckets)
      {
        var c :| c in todo;
        todo := todo - {c};
        var existing := if c in cur then Some(cur[c]) else None;
        assert Stands(t, c);
        var out := Compile(table[c], t, c, existing, model[t][c]);
        ghost var oldHeader, oldBuckets := header, buckets;
        header, buckets := Collect(t, c, out, header, buckets);
        VisitStep(t, order, model[t], cur, oldHeader, oldBuckets, c, header, buckets);
        EnumeratesSnoc(order, table.Keys, todo, c);
        order := order + [c];
      }
      assert table.Keys - todo == model[t].Keys;
    }

    /** The section of one table; nothing at all when no chain has anything to do. */
    method CompileTable(t: string, cur: Table) returns (text: string, ghost order: seq<string>)
      requires Valid() && t in rules
      ensures Enumerates(order, model[t].Keys)
      ensures text == Print(Section(t, TableScript(order, model[t], cur)))
    {
      var header, buckets;
      header, buckets, order := VisitChains(t, cur);
      SectionText(t, order, model[t], cur, header, buckets);
      if header == "" {
        return "", order;
      }
      var body := PrintByPriority(buckets);
      text := header + body + Print([Op.Commit]);
    }

    /** All tables, in the order they come. */
    method BuildScript(cur: Kernel) returns (buf: string)
      requires Valid()
      ensures exists v: Visit :: v.Covers(model) && buf == Print(CommitScript(v, model, cur))
    {
      ghost var tables: seq<string>, chains: map<string, seq<string>> := [], map[];
      buf := "";
      var todo := rules.Keys;
      while todo != {}
        invariant todo <= rules.Keys && Enumerates(tables, rules.Keys - todo)
        invariant Building(tables, chains, model, cur, buf)
      {
        var t :| t in todo;
        todo := todo - {t};
        var text, order := CompileTable(t, if t in cur then cur[t] else map[]);
        ScriptStep(tables, chains, model, cur, buf, t, order);
        EnumeratesSnoc(tables, rules.Keys, todo, t);
        chains := chains[t := order];
        buf := buf + text;
        tables := tables + [t];
      }
      assert rules.Keys - todo == model.Keys;
      VisitCovers(Visit(tables, chains), model);
    }

    /** Reads, compiles, prints and applies; an empty script is not sent. */
    method CommitContext() returns (ok: bool)
      requires Valid()
      modifies kernel
      ensures CommitOutcome(model, old(kernel.rules), kernel.rules, ok, kernel.restoreCalls != old(kernel.restoreCalls))
    {
      var cur, read := GetCurrentRules();
      if !read {
        return false;
      }
      var buf := BuildScript(cur);
      ghost var v: Visit :| v.Covers(model) && buf == Print(CommitScript(v, model, cur));
      CommitText(v, model, cur);
      ok := Send(buf);
    }

    /** An empty script is not sent. */
    method Send(buf: string) returns (ok: bool)
      modifies kernel
      ensures buf == "" ==> ok && kernel.rules == old(kernel.rules) && kernel.restoreCalls == old(kernel.restoreCalls)
      ensures buf != "" ==>
                && kernel.rules == RestoreText(old(kernel.rules), buf).at.kernel
                && ok == RestoreText(old(kernel.rules), buf).ok && kernel.restoreCalls != old(kernel.restoreCalls)
    {
      if |buf| == 0 {
        return true;
      }
      ok := kernel.Restore(buf);
    }

    method SetDeferred(v: bool)
      modifies this`deferred
      ensures deferred == v
    {
      deferred := v;
    }

    /** Under a batch nothing reaches the kernel. */
    method Commit() returns (ok: bool)
      requires Valid()
      modifies kernel
      ensures deferred ==> ok && kernel.rules == old(kernel.rules) && kernel.restoreCalls == old(kernel.restoreCalls)
      ensures !deferred ==>
                CommitOutcome(model, old(kernel.rules), kernel.rules, ok,
                              kernel.restoreCalls != old(kernel.restoreCalls))
    {
      if deferred {
        return true;
      }
      ok := CommitContext();
    }
  }

  /** On names and rules made of tokens a commit succeeds and leads to `AfterKernel`, whose
      content is `Reconciler.AfterCommitHolds`; the kernel is not called for nothing. */
  ghost predicate CommitOutcome(m: Model, before: Kernel, after: Kernel, ok: bool, called: bool)
  {
    PrintableConfig(m) && PrintableKernel(before) ==>
      && ok && GoodConfig(m) && CleanKernel(before)
      && after == AfterKernel(m, before)
      && (after != before ==> called)
      && (called ==> exists v: Visit :: v.Covers(m) && CommitScript(v, m, before) != [])
  }

  function Bucket(buckets: map<int, seq<Op>>, p: int): seq<Op>
  {
    if p in buckets then buckets[p] else []
  }

  /** The commands of the priorities below `p`. */
  function Below(buckets: map<int, seq<Op>>, p: int): seq<Op>
  {
    (if -128 < p then Bucket(buckets, -128) else [])
    + (if 0 < p then Bucket(buckets, 0) else [])
    + (if 127 < p then Bucket(buckets, 127) else [])
  }

  lemma BelowIs(buckets: map<int, seq<Op>>, p: int)
    ensures Below(buckets, p) ==
            if p <= -128 then [] else if p <= 0 then Bucket(buckets, -128)
            else if p <= 127 then Bucket(buckets, -128) + Bucket(buckets, 0)
            else Bucket(buckets, -128) + Bucket(buckets, 0) + Bucket(buckets, 127)
  {
    assert forall s: seq<Op> :: s + [] == s;
  }

  lemma BelowStep(buckets: map<int, seq<Op>>, p: int)
    requires buckets.Keys <= {-128, 0, 127} && -128 <= p < 128
    ensures Print(Below(buckets, p + 1)) == Print(Below(buckets, p)) + if p in buckets then Print(buckets[p]) else ""
  {
    BelowIs(buckets, p);
    BelowIs(buckets, p + 1);
    if p == -128 {
      PrintAppend([], Bucket(buckets, p));
      assert [] + Bucket(buckets, p) == Bucket(buckets, p);
    } else if p == 0 {
      PrintAppend(Bucket(buckets, -128), Bucket(buckets, p));
    } else if p == 127 {
      PrintAppend(Bucket(buckets, -128) + Bucket(buckets, 0), Bucket(buckets, p));
    }
  }

  // ---- Building a section chain by chain ----

  function Heading(t: string, declares: seq<Op>): seq<Op>
  {
    if declares == [] then [] else [BeginTable(t)] + declares
  }

  ghost predicate Progress(t: string, order: seq<string>, tm: TableModel, cur: Table,
                           header: string, buckets: map<int, seq<Op>>)
  {
    && (forall c | c in order :: c in tm)
    && header == Print(Heading(t, Declares(order, tm, cur)))
    && buckets.Keys <= {-128, 0, 127}
    && forall p | p in {-128, 0, 127} :: Bucket(buckets, p) == ClassOf(order, tm, cur, p)
  }

  lemma PrintEmptyIff(ops: seq<Op>)
    ensures Print(ops) == "" <==> ops == []
  {
    if ops != [] {
      assert PrintLines(ops)[0] == PrintOp(ops[0]);
    }
  }

  lemma HeadingSnoc(t: string, declared: seq<Op>, c: string)
    ensures Print(Heading(t, declared + [Declare(c)])) ==
            (if declared == [] then Print([BeginTable(t)]) else Print(Heading(t, declared))) + Print([Declare(c)])
  {
    if declared == [] {
      assert declared + [Declare(c)] == [Declare(c)];
      PrintAppend([BeginTable(t)], [Declare(c)]);
    } else {
      PrintAppend(Heading(t, declared), [Declare(c)]);
      assert Heading(t, declared + [Declare(c)]) == Heading(t, declared) + [Declare(c)];
    }
  }

  /** What visiting one more chain does to the header and the buckets. */
  lemma VisitStep(t: string, order: seq<string>, tm: TableModel, cur: Table,
                  header: string, buckets: map<int, seq<Op>>, c: string,
                  header': string, buckets': map<int, seq<Op>>)
    requires Progress(t, order, tm, cur, header, buckets) && c in tm
    requires header' == if Commands(tm, cur, c).commands == [] then header
                        else (if header == "" then Print([BeginTable(t)]) else header) + Print([Declare(c)])
    requires buckets'.Keys <= buckets.Keys + {Commands(tm, cur, c).priority}
    requires forall p :: Bucket(buckets', p) ==
                         if Commands(tm, cur, c).priority == p then Bucket(buckets, p) + Commands(tm, cur, c).commands
                         else Bucket(buckets, p)
    ensures Progress(t, order + [c], tm, cur, header', buckets')
  {
    var out := Commands(tm, cur, c);
    var declared := Declares(order, tm, cur);
    DeclaresSnoc(order, tm, cur, c);
    PrintEmptyIff(Heading(t, declared));
    HeadingSnoc(t, declared, c);
    assert declared + [] == declared;
    forall p | p in {-128, 0, 127}
      ensures Bucket(buckets', p) == ClassOf(order + [c], tm, cur, p)
    {
      ClassSnoc(order, tm, cur, p, c);
      assert Bucket(buckets, p) == ClassOf(order, tm, cur, p);
      assert ClassOf(order, tm, cur, p) + [] == ClassOf(order, tm, cur, p);
    }
  }

  lemma EnumeratesSnoc(order: seq<string>, keys: set<string>, todo: set<string>, c: string)
    requires c in keys && c !in todo && Enumerates(order, keys - (todo + {c}))
    ensures Enumerates(order + [c], keys - todo)
  {
    assert forall i | 0 <= i < |order| :: order[i] in order;
    forall x | x in keys - todo
      ensures x in order + [c]
    {
      if x != c {
        assert x in keys - (todo + {c});
      }
    }
  }

  lemma {:induction false} DeclaresSnoc(order: seq<string>, tm: TableModel, cur: Table, c: string)
    requires c in tm && forall x | x in order :: x in tm
    ensures forall x | x in order + [c] :: x in tm
    ensures Declares(order + [c], tm, cur) ==
            Declares(order, tm, cur) + if Commands(tm, cur, c).commands == [] then [] else [Declare(c)]
  {
    if order == [] {
      assert order + [c] == [c] && [c][1..] == [];
    } else {
      assert (order + [c])[1..] == order[1..] + [c] && (order + [c])[0] == order[0];
      DeclaresSnoc(order[1..], tm, cur, c);
      Reassociate(if Commands(tm, cur, order[0]).commands == [] then [] else [Declare(order[0])],
                  Declares(order[1..], tm, cur), if Commands(tm, cur, c).commands == [] then [] else [Declare(c)]);
    }
  }

  lemma Reassociate(a: seq<Op>, b: seq<Op>, c: seq<Op>)
    ensures a + (b + c) == (a + b) + c
  {
  }

  lemma {:induction false} ClassSnoc(order: seq<string>, tm: TableModel, cur: Table, p: int, c: string)
    requires c in tm && forall x | x in order :: x in tm
    ensures forall x | x in order + [c] :: x in tm
    ensures ClassOf(order + [c], tm, cur, p) ==
            ClassOf(order, tm, cur, p) +
            if Commands(tm, cur, c).priority == p then Commands(tm, cur, c).commands else []
  {
    if order == [] {
      assert order + [c] == [c] && [c][1..] == [];
    } else {
      assert (order + [c])[1..] == order[1..] + [c] && (order + [c])[0] == order[0];
      ClassSnoc(order[1..], tm, cur, p, c);
      var own := Commands(tm, cur, order[0]);
      Reassociate(if own.priority == p then own.commands else [], ClassOf(order[1..], tm, cur, p),
                  if Commands(tm, cur, c).priority == p then Commands(tm, cur, c).commands else []);
    }
  }

  lemma {:induction false} NothingDeclaredNothingDone(order: seq<string>, tm: TableModel, cur: Table)
    requires forall x | x in order :: x in tm
    ensures Declares(order, tm, cur) == [] <==> TableScript(order, tm, cur) == []
    ensures Declares(order, tm, cur) == [] ==> forall p :: ClassOf(order, tm, cur, p) == []
  {
    if order != [] {
      NothingDeclaredNothingDone(order[1..], tm, cur);
    }
  }

  lemma SectionParts(t: string, d: seq<Op>, a: seq<Op>, b: seq<Op>, c: seq<Op>)
    requires d != []
    ensures Print(Section(t, d + a + b + c)) == Print(Heading(t, d)) + Print(a + b + c) + Print([Op.Commit])
  {
    assert Section(t, d + a + b + c) == Heading(t, d) + (a + b + c) + [Op.Commit];
    PrintAppend(Heading(t, d) + (a + b + c), [Op.Commit]);
    PrintAppend(Heading(t, d), a + b + c);
  }

  lemma SectionText(t: string, order: seq<string>, tm: TableModel, cur: Table,
                    header: string, buckets: map<int, seq<Op>>)
    requires Progress(t, order, tm, cur, header, buckets)
    ensures Print(Section(t, TableScript(order, tm, cur))) ==
            if header == "" then ""
            else header + Print(Bucket(buckets, -128) + Bucket(buckets, 0) + Bucket(buckets, 127)) + Print([Op.Commit])
  {
    var d := Declares(order, tm, cur);
    PrintEmptyIff(Heading(t, d));
    NothingDeclaredNothingDone(order, tm, cur);
    if d != [] {
      SectionParts(t, d, ClassOf(order, tm, cur, -128), ClassOf(order, tm, cur, 0), ClassOf(order, tm, cur, 127));
    }
  }

  lemma {:induction false} ScriptKeep(tables: seq<string>, chains: map<string, seq<string>>,
                                      more: map<string, seq<string>>, m: Model, k: Kernel)
    requires Visits(tables, chains, m)
    requires forall i | 0 <= i < |tables| :: tables[i] in more && more[tables[i]] == chains[tables[i]]
    ensures Visits(tables, more, m) && Script(tables, more, m, k) == Script(tables, chains, m, k)
    decreases |tables|
  {
    if tables != [] {
      ScriptKeep(tables[..|tables| - 1], chains, more, m, k);
    }
  }

  lemma VisitCovers(v: Visit, m: Model)
    requires Enumerates(v.tables, m.Keys) && Visits(v.tables, v.chains, m)
    ensures v.Covers(m)
  {
    forall t | t in m
      ensures t in v.chains && Enumerates(v.chains[t], m[t].Keys)
    {
      assert t in v.tables;
    }
  }

  lemma VisitsSnoc(tables: seq<string>, chains: map<string, seq<string>>, m: Model, t: string)
    requires Visits(tables, chains, m) && t in m && t in chains && Enumerates(chains[t], m[t].Keys)
    ensures Visits(tables + [t], chains, m)
  {
  }

  lemma ScriptSnoc(tables: seq<string>, chains: map<string, seq<string>>, m: Model, k: Kernel, t: string)
    requires Visits(tables, chains, m) && Visits(tables + [t], chains, m)
    requires t in m && t in chains && Enumerates(chains[t], m[t].Keys)
    ensures Script(tables + [t], chains, m, k) ==
            Script(tables, chains, m, k) + Section(t, TableScript(chains[t], m[t], TableOf(k, t)))
  {
    assert (tables + [t])[..|tables|] == tables;
  }

  ghost predicate Building(tables: seq<string>, chains: map<string, seq<string>>, m: Model, k: Kernel, buf: string)
  {
    Visits(tables, chains, m) && buf == Print(Script(tables, chains, m, k))
  }

  lemma ScriptStep(tables: seq<string>, chains: map<string, seq<string>>, m: Model, k: Kernel, buf: string,
                   t: string, order: seq<string>)
    requires Building(tables, chains, m, k, buf) && t in m && t !in tables && Enumerates(order, m[t].Keys)
    ensures Building(tables + [t], chains[t := order], m, k,
                     buf + Print(Section(t, TableScript(order, m[t], TableOf(k, t)))))
  {
    ScriptKeep(tables, chains, chains[t := order], m, k);
    VisitsSnoc(tables, chains[t := order], m, t);
    ScriptSnoc(tables, chains[t := order], m, k, t);
    PrintAppend(Script(tables, chains, m, k), Section(t, TableScript(order, m[t], TableOf(k, t))));
  }

  /** What sending, or not sending, the printed script amounts to. */
  lemma CommitText(v: Visit, m: Model, k: Kernel)
    requires v.Covers(m)
    ensures var text := Print(CommitScript(v, m, k));
            if text == "" then CommitOutcome(m, k, k, true, false)
            else CommitOutcome(m, k, RestoreText(k, text).at.kernel, RestoreText(k, text).ok, true)
  {
    PrintEmptyIff(CommitScript(v, m, k));
    if PrintableConfig(m) && PrintableKernel(k) {
      CommitConverges(v, m, k);
      ScriptPrintable(v.tables, v.chains, m, k);
      RestoreReadsScript(k, CommitScript(v, m, k));
    }
  }

  /** The keys of a map, in some order. */
  method Listing(keys: set<string>) returns (order: seq<string>)
    ensures Enumerates(order, keys)
  {
    order := [];
    var todo := keys;
    while todo != {}
      invariant todo <= keys && Enumerates(order, keys - todo)
    {
      var x :| x in todo;
      todo := todo - {x};
      order := order + [x];
    }
    assert keys - todo == keys;
  }

  lemma {:induction false} SavedOpsKeep(tables: seq<string>, chains: map<string, seq<string>>,
                                        more: map<string, seq<string>>, k: Kernel)
    requires SaveVisits(tables, chains, k)
    requires forall i | 0 <= i < |tables| :: tables[i] in more && more[tables[i]] == chains[tables[i]]
    ensures SaveVisits(tables, more, k) && SavedOps(tables, more, k) == SavedOps(tables, chains, k)
    decreases |tables|
  {
    if tables != [] {
      SavedOpsKeep(tables[..|tables| - 1], chains, more, k);
    }
  }

  lemma SaveStep(tables: seq<string>, chains: map<string, seq<string>>, k: Kernel, t: string, order: seq<string>)
    requires SaveVisits(tables, chains, k) && t in k && t !in tables && Enumerates(order, k[t].Keys)
    ensures SaveVisits(tables + [t], chains[t := order], k)
    ensures Print(SavedOps(tables + [t], chains[t := order], k)) ==
            Print(SavedOps(tables, chains, k)) + Print(SavedSection(t, order, k[t]))
  {
    SavedOpsKeep(tables, chains, chains[t := order], k);
    assert (tables + [t])[..|tables|] == tables;
    PrintAppend(SavedOps(tables, chains, k), SavedSection(t, order, k[t]));
  }
}

/**
  The text between the daemon and the kernel. Scripts and saved tables are printed one op
  per line; `Restore` and `getCurrentRules` read lines back. The two readers differ: the
  first understands every command and splits on any whitespace, the second only knows `-A`
  and splits on blanks. Both read back exactly what was printed.
 */
module ScriptText {
  import opened Text
  import opened Netfilter
  import opened Chains
  import opened Convergence
  import opened Reconciler

  // ---- Printing ----

  function RuleTail(r: Rule): string { if r == [] then "" else " " + Join(r, ' ') }

  function PrintOp(op: Op): string
  {
    match op
    case BeginTable(t) => "*" + t
    case Declare(c) => ":" + c + " - [0:0]"
    case Append(c, r) => "-A " + c + RuleTail(r)
    case Delete(c, r) => "-D " + c + RuleTail(r)
    case Insert(c, pos, r) => "-I " + c + " " + Itoa(pos) + RuleTail(r)
    case Flush(c) => "-F " + c
    case DropChain(c) => "-X " + c
    case Commit => "COMMIT"
  }

  function PrintLines(ops: seq<Op>): (lines: seq<string>)
    ensures |lines| == |ops| && forall i | 0 <= i < |ops| :: lines[i] == PrintOp(ops[i])
  {
    seq(|ops|, i requires 0 <= i < |ops| => PrintOp(ops[i]))
  }

  function Print(ops: seq<Op>): string { Unlines(PrintLines(ops)) }

  lemma PrintAppend(a: seq<Op>, b: seq<Op>)
    ensures Print(a + b) == Print(a) + Print(b)
  {
    assert PrintLines(a + b) == PrintLines(a) + PrintLines(b);
    UnlinesAppend(PrintLines(a), PrintLines(b));
  }

  // ---- Reading ----

  datatype Line = Blank | Bad | Does(op: Op)

  /** A line as `Restore` reads it. */
  function RestoreLine(line: string): Line
  {
    if line == [] || line[0] == '#' then Blank
    else if line[0] == '*' then Does(BeginTable(line[1..]))
    else if line[0] == ':' then
      var fields := Fields(line[1..], IsBlank);
      if fields == [] then Bad else Does(Declare(fields[0]))
    else if line[0] == '-' then CommandLine(Fields(line, IsSpace))
    else if line[0] == 'C' then Does(Commit)
    else Bad
  }

  function CommandLine(fields: seq<string>): Line
  {
    if |fields| < 2 || |fields[0]| < 2 then Bad
    else
      match fields[0][1]
      case 'A' => Does(Append(fields[1], fields[2..]))
      case 'I' =>
        if |fields| < 3 then Bad
        else
          var pos := Atoi(fields[2]);
          if pos.None? || pos.value < 1 then Bad else Does(Insert(fields[1], pos.value, fields[3..]))
      case 'D' => Does(Delete(fields[1], fields[2..]))
      case 'F' => Does(Flush(fields[1]))
      case 'X' => Does(DropChain(fields[1]))
      case _ => Bad
  }

  /** A line as `getCurrentRules` reads it. */
  function SaveLine(line: string): Line
  {
    if line == [] || line[0] == '#' then Blank
    else if line[0] == '*' then Does(BeginTable(line[1..]))
    else if line[0] == ':' then
      var name := Split(line[1..], ' ')[0];
      if name == "" then Bad else Does(Declare(name))
    else if line[0] == '-' then
      var fields := Fields(line, IsBlank);
      if |fields| < 2 || |fields[0]| < 2 || fields[0][1] != 'A' then Bad
      else Does(Append(fields[1], fields[2..]))
    else if line[0] == 'C' then Does(Commit)
    else Bad
  }

  function ReadLine(at: Cursor, line: Line): Result<Cursor>
  {
    match line
    case Blank => Ok(at)
    case Bad => Failed
    case Does(op) => ApplyOp(at, op)
  }

  function ReadLines(at: Cursor, lines: seq<Line>): Ran
    decreases |lines|
  {
    if lines == [] then Ran(at, true)
    else
      match ReadLine(at, lines[0])
      case Failed => Ran(at, false)
      case Ok(next) => ReadLines(next, lines[1..])
  }

  function RestoreLines(text: string): (lines: seq<Line>)
  {
    var parts := Split(text, '\n');
    seq(|parts|, i requires 0 <= i < |parts| => RestoreLine(parts[i]))
  }

  function SaveLines(text: string): (lines: seq<Line>)
  {
    var parts := Split(text, '\n');
    seq(|parts|, i requires 0 <= i < |parts| => SaveLine(parts[i]))
  }

  function RestoreText(k: Kernel, text: string): Ran { ReadLines(Cursor(k, ""), RestoreLines(text)) }

  function ParseSaved(text: string): Ran { ReadLines(Cursor(map[], ""), SaveLines(text)) }

  // ---- What can be printed and read back ----

  predicate Printable(op: Op)
  {
    match op
    case BeginTable(t) => '\n' !in t
    case Declare(c) => IsToken(c)
    case Append(c, r) => IsToken(c) && CleanRule(r)
    case Delete(c, r) => IsToken(c) && CleanRule(r)
    case Insert(c, pos, r) => IsToken(c) && CleanRule(r) && 1 <= pos <= INT64_MAX
    case Flush(c) => IsToken(c)
    case DropChain(c) => IsToken(c)
    case Commit => true
  }

  predicate AllPrintable(ops: seq<Op>) { forall i | 0 <= i < |ops| :: Printable(ops[i]) }

  /** The fields of the line printed for a command on a chain. */
  function CommandFields(op: Op): seq<string>
  {
    match op
    case Append(c, r) => ["-A", c] + r
    case Delete(c, r) => ["-D", c] + r
    case Insert(c, pos, r) => ["-I", c, Itoa(pos)] + r
    case Flush(c) => ["-F", c]
    case DropChain(c) => ["-X", c]
    case _ => []
  }

  lemma JoinHeadAndRule(head: seq<string>, r: Rule)
    requires head != []
    ensures Join(head + r, ' ') == Join(head, ' ') + RuleTail(r)
  {
    if r == [] {
      assert head + r == head;
    } else {
      JoinAppend(head, r, ' ');
    }
  }

  lemma JoinTwo(a: string, b: string)
    ensures Join([a, b], ' ') == a + " " + b
  {
    assert [a, b][1..] == [b];
  }

  lemma JoinThree(a: string, b: string, c: string)
    ensures Join([a, b, c], ' ') == a + " " + b + " " + c
  {
    assert [a, b, c][1..] == [b, c];
    JoinTwo(b, c);
    assert a + " " + (b + " " + c) == a + " " + b + " " + c;
  }

  lemma CommandWithRule(command: string, c: string, r: Rule)
    ensures Join([command, c] + r, ' ') == command + " " + c + RuleTail(r)
  {
    JoinHeadAndRule([command, c], r);
    JoinTwo(command, c);
  }

  lemma PrintedInsert(c: string, pos: int, r: Rule)
    ensures Join(["-I", c, Itoa(pos)] + r, ' ') == "-I " + c + " " + Itoa(pos) + RuleTail(r)
  {
    JoinHeadAndRule(["-I", c, Itoa(pos)], r);
    JoinThree("-I", c, Itoa(pos));
    assert "-I" + " " == "-I ";
  }

  lemma PrintedIsJoined(op: Op)
    requires op.OnChain() && !op.Declare?
    ensures PrintOp(op) == Join(CommandFields(op), ' ')
  {
    match op
    case Append(c, r) =>
      CommandWithRule("-A", c, r);
      assert "-A" + " " == "-A ";
    case Delete(c, r) =>
      CommandWithRule("-D", c, r);
      assert "-D" + " " == "-D ";
    case Insert(c, pos, r) => PrintedInsert(c, pos, r);
    case Flush(c) => JoinTwo("-F", c);
    case DropChain(c) => JoinTwo("-X", c);
    case Declare(_) =>
  }

  predicate AllTokens(fields: seq<string>) { forall i | 0 <= i < |fields| :: IsToken(fields[i]) }

  lemma CommandFieldsAreTokens(op: Op)
    requires op.OnChain() && !op.Declare? && Printable(op)
    ensures |CommandFields(op)| >= 2 && AllTokens(CommandFields(op))
  {
    if op.Insert? {
      AtoiItoa(op.pos);
    }
  }

  lemma FieldsOfTokens(fields: seq<string>)
    requires AllTokens(fields)
    ensures Fields(Join(fields, ' '), IsSpace) == fields == Fields(Join(fields, ' '), IsBlank)
  {
    FieldsOfJoin(fields, IsSpace);
    FieldsOfJoin(fields, IsBlank);
  }

  lemma {:induction false} JoinIsOneLine(fields: seq<string>)
    requires AllTokens(fields)
    ensures '\n' !in Join(fields, ' ')
  {
    if |fields| > 1 {
      JoinIsOneLine(fields[1..]);
    }
  }

  lemma DeclarationFields(c: string)
    requires IsToken(c)
    ensures AllTokens([c, "-", "[0:0]"])
    ensures PrintOp(Declare(c)) == ":" + Join([c, "-", "[0:0]"], ' ')
  {
    JoinThree(c, "-", "[0:0]");
    assert ":" + (c + " " + "-" + " " + "[0:0]") == ":" + c + " - [0:0]";
  }

  lemma JoinStarts(fields: seq<string>)
    requires fields != [] && fields[0] != []
    ensures Join(fields, ' ') != [] && Join(fields, ' ')[0] == fields[0][0]
  {
  }

  lemma ReadBackDeclare(c: string)
    requires IsToken(c)
    ensures '\n' !in PrintOp(Declare(c))
    ensures RestoreLine(PrintOp(Declare(c))) == Does(Declare(c)) == SaveLine(PrintOp(Declare(c)))
  {
    var fields := [c, "-", "[0:0]"];
    DeclarationFields(c);
    FieldsOfTokens(fields);
    JoinIsOneLine(fields);
    assert PrintOp(Declare(c))[1..] == Join(fields, ' ');
    SplitJoin(fields, ' ');
  }

  lemma ReadBackCommand(op: Op)
    requires op.OnChain() && !op.Declare? && Printable(op)
    ensures '\n' !in PrintOp(op)
    ensures RestoreLine(PrintOp(op)) == Does(op)
    ensures op.Append? ==> SaveLine(PrintOp(op)) == Does(op)
  {
    var fields := CommandFields(op);
    var line := Join(fields, ' ');
    PrintedIsJoined(op);
    CommandFieldsAreTokens(op);
    FieldsOfTokens(fields);
    JoinIsOneLine(fields);
    JoinStarts(fields);
    ReadCommand(op);
    assert RestoreLine(line) == CommandLine(Fields(line, IsSpace));
  }

  /** One printed line is one line, and both readers understand it. */
  lemma ReadBack(op: Op)
    requires Printable(op)
    ensures '\n' !in PrintOp(op)
    ensures RestoreLine(PrintOp(op)) == Does(op)
    ensures op.BeginTable? || op.Declare? || op.Append? || op.Commit? ==> SaveLine(PrintOp(op)) == Does(op)
  {
    match op
    case BeginTable(t) => assert ("*" + t)[1..] == t;
    case Commit =>
    case Declare(c) => ReadBackDeclare(c);
    case _ => ReadBackCommand(op);
  }

  lemma ReadCommand(op: Op)
    requires op.OnChain() && !op.Declare? && Printable(op)
    ensures CommandLine(CommandFields(op)) == Does(op)
    ensures op.Append? ==> CommandFields(op)[0][1] == 'A' && CommandFields(op)[2..] == op.rule
    ensures CommandFields(op) != [] && CommandFields(op)[0][0] == '-'
  {
    var fields := CommandFields(op);
    match op
    case Append(c, r) => assert fields[2..] == r;
    case Delete(c, r) => assert fields[2..] == r;
    case Insert(c, pos, r) =>
      AtoiItoa(pos);
      assert fields[3..] == r;
    case _ =>
  }

  // ---- Whole texts ----

  function AllDo(ops: seq<Op>): (lines: seq<Line>)
    ensures |lines| == |ops| + 1
  {
    seq(|ops|, i requires 0 <= i < |ops| => Does(ops[i])) + [Blank]
  }

  lemma {:induction false} ReadAllDo(at: Cursor, ops: seq<Op>)
    ensures ReadLines(at, AllDo(ops)) == RunOps(at, ops)
    decreases |ops|
  {
    if ops == [] {
      assert AllDo(ops)[1..] == [];
    } else {
      assert AllDo(ops)[1..] == AllDo(ops[1..]);
      match ApplyOp(at, ops[0])
      case Failed =>
      case Ok(next) => ReadAllDo(next, ops[1..]);
    }
  }

  lemma PrintedLines(ops: seq<Op>)
    requires AllPrintable(ops)
    ensures Split(Print(ops), '\n') == PrintLines(ops) + [""]
  {
    var lines := PrintLines(ops);
    forall l | l in lines
      ensures '\n' !in l
    {
      var i :| 0 <= i < |lines| && lines[i] == l;
      ReadBack(ops[i]);
    }
    SplitUnlines(lines);
  }

  /** `Restore` carries out exactly the ops that were printed. */
  lemma RestoreReadsScript(k: Kernel, ops: seq<Op>)
    requires AllPrintable(ops)
    ensures RestoreText(k, Print(ops)) == RunOps(Cursor(k, ""), ops)
  {
    PrintedLines(ops);
    var lines := RestoreLines(Print(ops));
    assert |lines| == |AllDo(ops)|;
    forall i | 0 <= i < |lines|
      ensures lines[i] == AllDo(ops)[i]
    {
      if i < |ops| {
        ReadBack(ops[i]);
      }
    }
    assert lines == AllDo(ops);
    ReadAllDo(Cursor(k, ""), ops);
  }

  predicate OnlySaves(ops: seq<Op>)
  {
    forall i | 0 <= i < |ops| :: ops[i].BeginTable? || ops[i].Declare? || ops[i].Append? || ops[i].Commit?
  }

  lemma ParseReadsSaved(ops: seq<Op>)
    requires AllPrintable(ops) && OnlySaves(ops)
    ensures ParseSaved(Print(ops)) == RunOps(Cursor(map[], ""), ops)
  {
    PrintedLines(ops);
    var lines := SaveLines(Print(ops));
    assert |lines| == |AllDo(ops)|;
    forall i | 0 <= i < |lines|
      ensures lines[i] == AllDo(ops)[i]
    {
      if i < |ops| {
        ReadBack(ops[i]);
      }
    }
    assert lines == AllDo(ops);
    ReadAllDo(Cursor(map[], ""), ops);
  }

  // ---- A saved kernel ----

  function DeclareAll(order: seq<string>): (ops: seq<Op>)
    ensures AllOnChains(ops)
  {
    seq(|order|, i requires 0 <= i < |order| => Declare(order[i]))
  }

  function AppendAll(order: seq<string>, t: Table): (ops: seq<Op>)
    requires forall c | c in order :: c in t
    ensures AllOnChains(ops)
  {
    if order == [] then []
    else Appends(order[0], t[order[0]]) + AppendAll(order[1..], t)
  }

  /** One saved table: its chains, then their rules. */
  function SavedTable(order: seq<string>, t: Table): (ops: seq<Op>)
    requires forall c | c in order :: c in t
    ensures AllOnChains(ops)
  {
    DeclareAll(order) + AppendAll(order, t)
  }

  predicate SaveVisits(tables: seq<string>, chains: map<string, seq<string>>, k: Kernel)
  {
    forall i | 0 <= i < |tables| ::
      tables[i] in k && tables[i] in chains && Enumerates(chains[tables[i]], k[tables[i]].Keys)
  }

  function SavedOps(tables: seq<string>, chains: map<string, seq<string>>, k: Kernel): seq<Op>
    requires SaveVisits(tables, chains, k)
    decreases |tables|
  {
    if tables == [] then []
    else
      var t := tables[|tables| - 1];
      SavedOps(tables[..|tables| - 1], chains, k) + SavedSection(t, chains[t], k[t])
  }

  function SavedSection(t: string, order: seq<string>, table: Table): seq<Op>
    requires forall c | c in order :: c in table
  {
    [BeginTable(t)] + SavedTable(order, table) + [Commit]
  }

  predicate PrintableTable(t: Table)
  {
    forall c | c in t :: IsToken(c) && CleanRules(t[c])
  }

  predicate PrintableKernel(k: Kernel)
  {
    forall t | t in k :: t != "" && '\n' !in t && PrintableTable(k[t])
  }

  lemma {:induction false} OnDeclareAll(order: seq<string>, c: string)
    requires forall i, j | 0 <= i < j < |order| :: order[i] != order[j]
    ensures On(DeclareAll(order), c) == if c in order then [Declare(c)] else []
  {
    if order != [] {
      assert DeclareAll(order)[1..] == DeclareAll(order[1..]);
      MemberOfTail(order, c);
      OnDeclareAll(order[1..], c);
    }
  }

  lemma {:induction false} OnAppendAll(order: seq<string>, t: Table, c: string)
    requires forall x | x in order :: x in t
    requires forall i, j | 0 <= i < j < |order| :: order[i] != order[j]
    ensures On(AppendAll(order, t), c) == if c in order then Appends(c, t[c]) else []
  {
    if order != [] {
      MemberOfTail(order, c);
      OnAppendAll(order[1..], t, c);
      OnAppend(Appends(order[0], t[order[0]]), AppendAll(order[1..], t), c);
      OnSameChain(Appends(order[0], t[order[0]]), c);
    }
  }

  lemma SavedTableRebuilds(order: seq<string>, t: Table)
    requires Enumerates(order, t.Keys)
    ensures RunTable(map[], SavedTable(order, t)) == Ok(t)
  {
    var ops := SavedTable(order, t);
    forall c
      ensures RunChain(Lookup(map[], c), On(ops, c)) == Ok(Lookup(t, c))
    {
      OnAppend(DeclareAll(order), AppendAll(order, t), c);
      OnDeclareAll(order, c);
      OnAppendAll(order, t, c);
      if c in order {
        DeclareIsNoEdit(c, None, Appends(c, t[c]));
        RunAppends(c, Some([]), t[c]);
        assert [] + t[c] == t[c];
      }
    }
    RunTableIfChainsRun(map[], ops);
    var out := RunTable(map[], ops).value;
    forall c
      ensures Lookup(out, c) == Lookup(t, c)
    {
      RunTableByChain(map[], ops, c);
      assert RunChain(Lookup(map[], c), On(ops, c)) == Ok(Lookup(t, c));
    }
    SameTable(out, t);
  }

  function Restrict(k: Kernel, tables: seq<string>): Kernel
  {
    map t | t in k && t in tables :: k[t]
  }

  lemma RestrictSnoc(k: Kernel, tables: seq<string>, t: string)
    requires t in k
    ensures Restrict(k, tables + [t]) == Restrict(k, tables)[t := k[t]]
  {
  }

  lemma {:induction false} SavedOpsRebuild(tables: seq<string>, chains: map<string, seq<string>>, k: Kernel)
    requires SaveVisits(tables, chains, k) && PrintableKernel(k)
    requires forall i, j | 0 <= i < j < |tables| :: tables[i] != tables[j]
    ensures RunOps(Cursor(map[], ""), SavedOps(tables, chains, k)) == Ran(Cursor(Restrict(k, tables), ""), true)
    decreases |tables|
  {
    if tables == [] {
      assert Restrict(k, tables) == map[];
    } else {
      var rest, t := tables[..|tables| - 1], tables[|tables| - 1];
      SavedOpsRebuild(rest, chains, k);
      assert t !in rest;
      SavedSectionRebuilds(k, rest, t, chains[t]);
      RunBoth(Cursor(map[], ""), SavedOps(rest, chains, k), Cursor(Restrict(k, rest), ""),
              SavedSection(t, chains[t], k[t]), Cursor(Restrict(k, rest + [t]), ""));
      assert tables == rest + [t];
    }
  }

  lemma SavedSectionRebuilds(k: Kernel, rest: seq<string>, t: string, order: seq<string>)
    requires PrintableKernel(k) && t in k && t !in rest && Enumerates(order, k[t].Keys)
    requires forall x | x in rest :: x in k
    ensures RunOps(Cursor(Restrict(k, rest), ""), SavedSection(t, order, k[t])) ==
            Ran(Cursor(Restrict(k, rest + [t]), ""), true)
  {
    SavedTableRebuilds(order, k[t]);
    RunSection(Restrict(k, rest), t, SavedTable(order, k[t]));
    RestrictSnoc(k, rest, t);
  }

  lemma {:induction false} AppendAllPrintable(order: seq<string>, t: Table)
    requires forall c | c in order :: c in t
    requires PrintableTable(t)
    ensures AllPrintable(AppendAll(order, t)) && OnlySaves(AppendAll(order, t))
  {
    if order != [] {
      AppendAllPrintable(order[1..], t);
    }
  }

  lemma {:induction false} SavedOpsPrintable(tables: seq<string>, chains: map<string, seq<string>>, k: Kernel)
    requires SaveVisits(tables, chains, k) && PrintableKernel(k)
    ensures AllPrintable(SavedOps(tables, chains, k)) && OnlySaves(SavedOps(tables, chains, k))
  {
    if tables != [] {
      var t := tables[|tables| - 1];
      SavedSectionPrintable(t, chains[t], k[t]);
      SavedOpsPrintable(tables[..|tables| - 1], chains, k);
    }
  }

  lemma SavedSectionPrintable(t: string, order: seq<string>, table: Table)
    requires t != "" && '\n' !in t && PrintableTable(table) && forall c | c in order :: c in table
    ensures AllPrintable(SavedSection(t, order, table)) && OnlySaves(SavedSection(t, order, table))
  {
    AppendAllPrintable(order, table);
  }

  /** Saving a kernel and reading the text gives the kernel back: same tables, same chains
      (empty ones too), same rules, whatever the order of the sections. */
  lemma ParseOfSaveIsIdentity(tables: seq<string>, chains: map<string, seq<string>>, k: Kernel)
    requires PrintableKernel(k) && Enumerates(tables, k.Keys) && SaveVisits(tables, chains, k)
    ensures ParseSaved(Print(SavedOps(tables, chains, k))) == Ran(Cursor(k, ""), true)
  {
    SavedOpsPrintable(tables, chains, k);
    ParseReadsSaved(SavedOps(tables, chains, k));
    SavedOpsRebuild(tables, chains, k);
    assert Restrict(k, tables) == k;
  }

  // ---- A commit's script can be printed ----

  ghost predicate PrintableConfig(m: Model)
  {
    forall t | t in m :: t != "" && '\n' !in t && forall c | c in m[t] :: IsToken(c) && GoodModel(m[t][c])
  }

  lemma {:induction false} CompilePatchPrintable(chain: string, ordered: seq<PatchRule>, existing: seq<Rule>)
    requires IsToken(chain) && GoodModel(PatchModel(ordered))
    ensures AllPrintable(CompilePatch(chain, ordered, existing))
  {
    if ordered != [] {
      CompilePatchPrintable(chain, ordered[1..], existing);
    }
  }

  lemma CompilePrintable(m: ChainModel, chain: string, st: ChainState)
    requires IsToken(chain) && GoodModel(m)
    ensures AllPrintable(CompileChain(m, chain, st).commands)
  {
    if m.PatchModel? {
      CompilePatchPrintable(chain, m.ordered, Rules(st));
    }
  }

  lemma {:induction false} TableScriptPrintable(order: seq<string>, tm: TableModel, cur: Table)
    requires forall c | c in order :: c in tm
    requires forall c | c in tm :: IsToken(c) && GoodModel(tm[c])
    ensures AllPrintable(Declares(order, tm, cur))
    ensures forall priority :: AllPrintable(ClassOf(order, tm, cur, priority))
  {
    if order != [] {
      CompilePrintable(tm[order[0]], order[0], Lookup(cur, order[0]));
      TableScriptPrintable(order[1..], tm, cur);
    }
  }

  lemma OneTablePrintable(order: seq<string>, tm: TableModel, cur: Table, t: string)
    requires '\n' !in t && forall c | c in order :: c in tm
    requires forall c | c in tm :: IsToken(c) && GoodModel(tm[c])
    ensures AllPrintable(Section(t, TableScript(order, tm, cur)))
  {
    TableScriptPrintable(order, tm, cur);
    assert AllPrintable(TableScript(order, tm, cur));
  }

  lemma {:induction false} ScriptPrintable(tables: seq<string>, chains: map<string, seq<string>>, m: Model, k: Kernel)
    requires Visits(tables, chains, m) && PrintableConfig(m)
    ensures AllPrintable(Script(tables, chains, m, k))
  {
    if tables != [] {
      var t := tables[|tables| - 1];
      OneTablePrintable(chains[t], m[t], TableOf(k, t), t);
      ScriptPrintable(tables[..|tables| - 1], chains, m, k);
    }
  }
}

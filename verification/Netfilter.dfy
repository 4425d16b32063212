/**
  The kernel side of the firewall: tables of chains of rules, and what each line of a
  restore script does to them. A script is a sequence of `Op`s; the text form is in
  ScriptText.dfy.

  Every op that is not a table header works on one chain, so a run over a table is the
  same as one run per chain over the ops naming it (`RunTableByChain`). All results
  about commits rest on that.
 */
module Netfilter {
  import opened Text

  type Rule = seq<string>
  type Table = map<string, seq<Rule>>
  type Kernel = map<string, Table>

  /** A chain that is absent, or present with its rules. */
  type ChainState = Option<seq<Rule>>

  datatype Op =
    | BeginTable(name: string)
    | Declare(chain: string)
    | Append(chain: string, rule: Rule)
    | Insert(chain: string, pos: int, rule: Rule)
    | Delete(chain: string, rule: Rule)
    | Flush(chain: string)
    | DropChain(chain: string)
    | Commit
  {
    predicate OnChain() { !BeginTable? && !Commit? }
  }

  datatype Result<+T> = Failed | Ok(value: T)

  // ---- Rule lists ----

  /** `-I` counts from 1 and clamps to the end of the chain. */
  function InsertAt(rules: seq<Rule>, pos: int, r: Rule): seq<Rule>
    requires pos >= 1
  {
    var i := if pos > |rules| + 1 then |rules| else pos - 1;
    rules[..i] + [r] + rules[i..]
  }

  /** `-D` takes away the first rule that is equal. */
  function DeleteFirst(rules: seq<Rule>, r: Rule): (out: seq<Rule>)
    requires r in rules
    ensures |out| == |rules| - 1
  {
    if rules[0] == r then rules[1..] else [rules[0]] + DeleteFirst(rules[1..], r)
  }

  /** The rules that are not in `gone`, in their order. */
  function Outside(rules: seq<Rule>, gone: set<Rule>): seq<Rule>
  {
    if rules == [] then []
    else (if rules[0] in gone then [] else [rules[0]]) + Outside(rules[1..], gone)
  }

  function Count(rules: seq<Rule>, r: Rule): nat
  {
    if rules == [] then 0
    else (if rules[0] == r then 1 else 0) + Count(rules[1..], r)
  }

  lemma {:induction false} CountedIsMember(rules: seq<Rule>, r: Rule)
    ensures Count(rules, r) > 0 <==> r in rules
  {
    if rules != [] {
      CountedIsMember(rules[1..], r);
    }
  }

  lemma {:induction false} CountAppend(a: seq<Rule>, b: seq<Rule>, r: Rule)
    ensures Count(a + b, r) == Count(a, r) + Count(b, r)
  {
    if a == [] {
      assert a + b == b;
    } else {
      assert (a + b)[1..] == a[1..] + b;
      CountAppend(a[1..], b, r);
    }
  }

  lemma {:induction false} OutsideAppend(a: seq<Rule>, b: seq<Rule>, gone: set<Rule>)
    ensures Outside(a + b, gone) == Outside(a, gone) + Outside(b, gone)
  {
    if a == [] {
      assert a + b == b;
    } else {
      assert (a + b)[1..] == a[1..] + b;
      OutsideAppend(a[1..], b, gone);
      var head := if a[0] in gone then [] else [a[0]];
      assert head + (Outside(a[1..], gone) + Outside(b, gone)) == head + Outside(a[1..], gone) + Outside(b, gone);
    }
  }

  lemma {:induction false} OutsideCount(rules: seq<Rule>, gone: set<Rule>, r: Rule)
    ensures Count(Outside(rules, gone), r) == if r in gone then 0 else Count(rules, r)
  {
    if rules != [] {
      OutsideCount(rules[1..], gone, r);
      if rules[0] in gone {
        assert Outside(rules, gone) == Outside(rules[1..], gone);
      } else {
        assert Outside(rules, gone) == [rules[0]] + Outside(rules[1..], gone);
        assert Outside(rules, gone)[1..] == Outside(rules[1..], gone);
      }
    }
  }

  lemma {:induction false} OutsideTwice(rules: seq<Rule>, some: set<Rule>, all: set<Rule>)
    requires some <= all
    ensures Outside(Outside(rules, some), all) == Outside(rules, all)
  {
    if rules != [] {
      OutsideTwice(rules[1..], some, all);
      var kept := Outside(rules[1..], some);
      if rules[0] !in some {
        assert Outside(rules, some) == [rules[0]] + kept;
        assert Outside(rules, some)[1..] == kept;
      } else {
        assert Outside(rules, some) == kept;
      }
    }
  }

  /** If two lists agree outside a few rules, they agree outside more of them,
      and on the count of everything else. */
  lemma AgreeOutside(a: seq<Rule>, b: seq<Rule>, some: set<Rule>, all: set<Rule>)
    requires Outside(a, some) == Outside(b, some) && some <= all
    ensures Outside(a, all) == Outside(b, all)
    ensures forall r | r !in some :: Count(a, r) == Count(b, r)
  {
    OutsideTwice(a, some, all);
    OutsideTwice(b, some, all);
    forall r | r !in some
      ensures Count(a, r) == Count(b, r)
    {
      OutsideCount(a, some, r);
      OutsideCount(b, some, r);
    }
  }

  /** `after` is `before` with `delta` more copies of `r`, and nothing else moved. */
  ghost predicate Moved(before: seq<Rule>, after: seq<Rule>, r: Rule, delta: int)
  {
    Outside(after, {r}) == Outside(before, {r}) && Count(after, r) == Count(before, r) + delta
  }

  lemma MovedTwice(a: seq<Rule>, b: seq<Rule>, c: seq<Rule>, r: Rule, d: int, e: int)
    requires Moved(a, b, r, d) && Moved(b, c, r, e)
    ensures Moved(a, c, r, d + e)
  {
  }

  lemma {:induction false} DeleteFirstEffect(rules: seq<Rule>, r: Rule)
    requires r in rules
    ensures Moved(rules, DeleteFirst(rules, r), r, -1)
  {
    if rules[0] != r {
      DeleteFirstEffect(rules[1..], r);
      var rest := DeleteFirst(rules[1..], r);
      assert DeleteFirst(rules, r)[1..] == rest;
    }
  }

  lemma InsertAtEffect(rules: seq<Rule>, pos: int, r: Rule)
    requires pos >= 1
    ensures Moved(rules, InsertAt(rules, pos, r), r, 1)
  {
    var i := if pos > |rules| + 1 then |rules| else pos - 1;
    var a, b := rules[..i], rules[i..];
    assert rules == a + b;
    assert InsertAt(rules, pos, r) == a + ([r] + b);
    OutsideAppend(a, b, {r});
    OutsideAppend(a, [r] + b, {r});
    CountAppend(a, b, r);
    CountAppend(a, [r] + b, r);
    assert ([r] + b)[1..] == b;
  }

  lemma AppendEffect(rules: seq<Rule>, r: Rule)
    ensures Moved(rules, rules + [r], r, 1)
  {
    OutsideAppend(rules, [r], {r});
    CountAppend(rules, [r], r);
    assert Outside([r], {r}) == [] && Count([r], r) == 1;
  }

  // ---- One chain ----

  function Rules(st: ChainState): seq<Rule>
  {
    match st case None => [] case Some(rules) => rules
  }

  function ChainStep(st: ChainState, op: Op): Result<ChainState>
    requires op.OnChain()
  {
    match op
    case Declare(_) => Ok(Some(Rules(st)))
    case Append(_, r) => Ok(Some(Rules(st) + [r]))
    case Insert(_, pos, r) => if pos < 1 then Failed else Ok(Some(InsertAt(Rules(st), pos, r)))
    case Delete(_, r) => if r in Rules(st) then Ok(Some(DeleteFirst(Rules(st), r))) else Failed
    case Flush(_) => Ok(Some([]))
    case DropChain(_) => if Rules(st) != [] then Failed else Ok(None)
  }

  predicate AllOnChains(ops: seq<Op>) { forall i | 0 <= i < |ops| :: ops[i].OnChain() }

  function RunChain(st: ChainState, ops: seq<Op>): Result<ChainState>
    requires AllOnChains(ops)
    decreases |ops|
  {
    if ops == [] then Ok(st)
    else
      match ChainStep(st, ops[0])
      case Failed => Failed
      case Ok(next) => RunChain(next, ops[1..])
  }

  lemma {:induction false} RunChainAppend(st: ChainState, a: seq<Op>, b: seq<Op>)
    requires AllOnChains(a) && AllOnChains(b)
    ensures RunChain(st, a + b) ==
            match RunChain(st, a) case Failed => Failed case Ok(mid) => RunChain(mid, b)
    decreases |a|
  {
    if a == [] {
      assert a + b == b;
    } else {
      assert (a + b)[1..] == a[1..] + b;
      match ChainStep(st, a[0])
      case Failed =>
      case Ok(next) => RunChainAppend(next, a[1..], b);
    }
  }

  lemma RunOne(st: ChainState, op: Op)
    requires op.OnChain()
    ensures RunChain(st, [op]) == ChainStep(st, op)
  {
    assert [op][1..] == [];
  }

  // ---- One table ----

  function Lookup(t: Table, c: string): ChainState { if c in t then Some(t[c]) else None }

  function SetChain(t: Table, c: string, st: ChainState): (out: Table)
    ensures forall d :: Lookup(out, d) == if d == c then st else Lookup(t, d)
  {
    match st
    case None => t - {c}
    case Some(rules) => t[c := rules]
  }

  lemma SameTable(a: Table, b: Table)
    requires forall c :: Lookup(a, c) == Lookup(b, c)
    ensures a == b
  {
    assert forall c :: c in a ==> Lookup(b, c) == Some(a[c]);
    assert forall c :: c in b ==> Lookup(a, c) == Some(b[c]);
  }

  function TableStep(t: Table, op: Op): Result<Table>
    requires op.OnChain()
  {
    match ChainStep(Lookup(t, op.chain), op)
    case Failed => Failed
    case Ok(st) => Ok(SetChain(t, op.chain, st))
  }

  function RunTable(t: Table, ops: seq<Op>): Result<Table>
    requires AllOnChains(ops)
    decreases |ops|
  {
    if ops == [] then Ok(t)
    else
      match TableStep(t, ops[0])
      case Failed => Failed
      case Ok(next) => RunTable(next, ops[1..])
  }

  lemma {:induction false} RunTableAppend(t: Table, a: seq<Op>, b: seq<Op>)
    requires AllOnChains(a) && AllOnChains(b)
    ensures RunTable(t, a + b) ==
            match RunTable(t, a) case Failed => Failed case Ok(mid) => RunTable(mid, b)
    decreases |a|
  {
    if a == [] {
      assert a + b == b;
    } else {
      assert (a + b)[1..] == a[1..] + b;
      match TableStep(t, a[0])
      case Failed =>
      case Ok(next) => RunTableAppend(next, a[1..], b);
    }
  }

  /** The ops that name chain `c`. */
  function On(ops: seq<Op>, c: string): (out: seq<Op>)
    requires AllOnChains(ops)
    ensures AllOnChains(out) && forall op :: op in out <==> op in ops && op.chain == c
  {
    if ops == [] then []
    else (if ops[0].chain == c then [ops[0]] else []) + On(ops[1..], c)
  }

  lemma {:induction false} OnAppend(a: seq<Op>, b: seq<Op>, c: string)
    requires AllOnChains(a) && AllOnChains(b)
    ensures On(a + b, c) == On(a, c) + On(b, c)
  {
    if a == [] {
      assert a + b == b;
    } else {
      assert (a + b)[1..] == a[1..] + b;
      OnAppend(a[1..], b, c);
    }
  }

  lemma {:induction false} OnSameChain(ops: seq<Op>, c: string)
    requires AllOnChains(ops)
    ensures (forall op | op in ops :: op.chain == c) ==> On(ops, c) == ops
    ensures (forall op | op in ops :: op.chain != c) ==> On(ops, c) == []
  {
    if ops != [] {
      OnSameChain(ops[1..], c);
    }
  }

  lemma RunChainHead(t: Table, next: Table, ops: seq<Op>, c: string)
    requires AllOnChains(ops) && ops != [] && TableStep(t, ops[0]) == Ok(next)
    ensures RunChain(Lookup(t, c), On(ops, c)) == RunChain(Lookup(next, c), On(ops[1..], c))
  {
    if ops[0].chain == c {
      assert On(ops, c) == [ops[0]] + On(ops[1..], c);
      assert On(ops, c)[1..] == On(ops[1..], c);
    } else {
      assert On(ops, c) == On(ops[1..], c);
    }
  }

  /** A run over a table is one independent run per chain: if it succeeds, every chain's
      run does, with the same outcome ... */
  lemma {:induction false} RunTableByChain(t: Table, ops: seq<Op>, c: string)
    requires AllOnChains(ops) && RunTable(t, ops).Ok?
    ensures Ok(Lookup(RunTable(t, ops).value, c)) == RunChain(Lookup(t, c), On(ops, c))
    decreases |ops|
  {
    if ops != [] {
      var next := TableStep(t, ops[0]).value;
      RunTableByChain(next, ops[1..], c);
      RunChainHead(t, next, ops, c);
    }
  }

  /** ... and it succeeds when every chain's run does. */
  lemma {:induction false} RunTableIfChainsRun(t: Table, ops: seq<Op>)
    requires AllOnChains(ops)
    requires forall c :: RunChain(Lookup(t, c), On(ops, c)).Ok?
    ensures RunTable(t, ops).Ok?
    decreases |ops|
  {
    if ops != [] {
      var c := ops[0].chain;
      assert On(ops, c)[0] == ops[0];
      assert RunChain(Lookup(t, c), On(ops, c)).Ok?;
      var next := TableStep(t, ops[0]).value;
      forall d
        ensures RunChain(Lookup(next, d), On(ops[1..], d)).Ok?
      {
        RunChainHead(t, next, ops, d);
        assert RunChain(Lookup(t, d), On(ops, d)).Ok?;
      }
      RunTableIfChainsRun(next, ops[1..]);
    }
  }

  // ---- The whole kernel ----

  /** Kernel tables plus the table the script is inside of ("" when none). */
  datatype Cursor = Cursor(kernel: Kernel, current: string)

  function TableOf(k: Kernel, t: string): Table { if t in k then k[t] else map[] }

  function ApplyOp(at: Cursor, op: Op): Result<Cursor>
  {
    match op
    case BeginTable(t) => Ok(Cursor(at.kernel[t := TableOf(at.kernel, t)], t))
    case Commit => Ok(at.(current := ""))
    case _ =>
      if at.current !in at.kernel || (!op.Declare? && at.current == "") then Failed
      else
        match TableStep(at.kernel[at.current], op)
        case Failed => Failed
        case Ok(t) => Ok(at.(kernel := at.kernel[at.current := t]))
  }

  /** Where a script ends up; it stops at its first failing op, keeping what it did. */
  datatype Ran = Ran(at: Cursor, ok: bool)

  function RunOps(at: Cursor, ops: seq<Op>): Ran
    decreases |ops|
  {
    if ops == [] then Ran(at, true)
    else
      match ApplyOp(at, ops[0])
      case Failed => Ran(at, false)
      case Ok(next) => RunOps(next, ops[1..])
  }

  lemma {:induction false} RunOpsAppend(at: Cursor, a: seq<Op>, b: seq<Op>)
    ensures RunOps(at, a + b) ==
            if RunOps(at, a).ok then RunOps(RunOps(at, a).at, b) else RunOps(at, a)
    decreases |a|
  {
    if a == [] {
      assert a + b == b;
    } else {
      assert (a + b)[1..] == a[1..] + b;
      match ApplyOp(at, a[0])
      case Failed =>
      case Ok(next) => RunOpsAppend(next, a[1..], b);
    }
  }

  lemma RunBoth(at: Cursor, a: seq<Op>, mid: Cursor, b: seq<Op>, end: Cursor)
    requires RunOps(at, a) == Ran(mid, true) && RunOps(mid, b) == Ran(end, true)
    ensures RunOps(at, a + b) == Ran(end, true)
  {
    RunOpsAppend(at, a, b);
  }

  lemma {:induction false} RunOpsInTable(at: Cursor, ops: seq<Op>)
    requires at.current != "" && at.current in at.kernel
    requires AllOnChains(ops) && RunTable(at.kernel[at.current], ops).Ok?
    ensures var t := RunTable(at.kernel[at.current], ops).value;
            RunOps(at, ops) == Ran(at.(kernel := at.kernel[at.current := t]), true)
    decreases |ops|
  {
    if ops == [] {
      assert at.kernel[at.current := at.kernel[at.current]] == at.kernel;
    } else {
      var next := ApplyOp(at, ops[0]).value;
      RunOpsInTable(next, ops[1..]);
      var t := RunTable(at.kernel[at.current], ops).value;
      assert next.kernel[at.current := t] == at.kernel[at.current := t];
    }
  }

  /** One table section of a script changes that table only. */
  lemma RunSection(k: Kernel, t: string, ops: seq<Op>)
    requires t != "" && AllOnChains(ops) && RunTable(TableOf(k, t), ops).Ok?
    ensures RunOps(Cursor(k, ""), [BeginTable(t)] + ops + [Commit]) ==
            Ran(Cursor(k[t := RunTable(TableOf(k, t), ops).value], ""), true)
  {
    var inside := Cursor(k[t := TableOf(k, t)], t);
    RunOpsInTable(inside, ops);
    RunOpsAppend(Cursor(k, ""), [BeginTable(t)], ops);
    RunOpsAppend(Cursor(k, ""), [BeginTable(t)] + ops, [Commit]);
    var out := RunTable(TableOf(k, t), ops).value;
    assert k[t := TableOf(k, t)][t := out] == k[t := out];
    assert RunOps(Cursor(k, ""), [BeginTable(t)]) == Ran(inside, true);
  }
}

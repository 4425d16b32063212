/**
  Which group takes a packet whose address is in several groups' sets. The kernel answers
  by the order of the jumps in PREROUTING, which a bring-up makes; the lookup page answers
  from the list of sets that hold the address. Both are shown to name the same group.
 */
module Arbitration {
  import opened Text
  import opened Netfilter
  import opened Chains
  import opened Convergence
  import opened Preamble

  /** A group that is on, in routing order: its chain, and whether its set holds the address. */
  datatype Lane = Lane(chain: string, kind: Kind, holds: bool)

  ghost predicate GoodLanes(lanes: seq<Lane>)
  {
    && (forall i | 0 <= i < |lanes| :: lanes[i].chain != PREAMBLE)
    && (forall i, j | 0 <= i < j < |lanes| :: lanes[i].chain != lanes[j].chain)
  }

  /** In the absolute mode a direct chain is put in front, everything else at the end. */
  predicate GoesFirst(l: Lane, byOrder: bool) { l.kind.Direct? && !byOrder }

  predicate SomeInterface(lanes: seq<Lane>) { exists i | 0 <= i < |lanes| :: lanes[i].kind.Interface? }

  // ---- The jumps a bring-up makes ----

  /** In front: the last direct group first. */
  function FrontJumps(lanes: seq<Lane>, byOrder: bool): seq<Rule>
  {
    if lanes == [] then []
    else
      var last := lanes[|lanes| - 1];
      (if GoesFirst(last, byOrder) then [JumpTo(last.chain)] else []) + FrontJumps(lanes[..|lanes| - 1], byOrder)
  }

  /** At the end, in order, with the preamble before the first interface group. */
  function BackJumps(lanes: seq<Lane>, byOrder: bool): seq<Rule>
  {
    if lanes == [] then []
    else
      var front, last := lanes[..|lanes| - 1], lanes[|lanes| - 1];
      BackJumps(front, byOrder)
      + (if last.kind.Interface? && !SomeInterface(front) then [JumpTo(PREAMBLE)] else [])
      + if GoesFirst(last, byOrder) then [] else [JumpTo(last.chain)]
  }

  /** No jump of ours is registered, other than to be taken out. */
  ghost predicate NotMade(ordered: seq<PatchRule>, r: Rule)
  {
    forall i | 0 <= i < |ordered| :: ordered[i].rule == r ==> ordered[i].option.PatchDelete?
  }

  lemma {:induction false} AppendedAppend(a: seq<PatchRule>, b: seq<PatchRule>)
    ensures Appended(a + b) == Appended(a) + Appended(b)
    ensures Inserted(a + b) == Inserted(b) + Inserted(a)
  {
    if a == [] {
      assert a + b == b;
    } else {
      assert (a + b)[1..] == a[1..] + b;
      AppendedAppend(a[1..], b);
    }
  }

  lemma {:induction false} WithoutUnmade(ordered: seq<PatchRule>, r: Rule)
    requires NotMade(ordered, r)
    ensures Appended(Without(ordered, r)) == Appended(ordered) && Inserted(Without(ordered, r)) == Inserted(ordered)
  {
    if ordered != [] {
      WithoutUnmade(ordered[1..], r);
      var rest := Without(ordered[1..], r);
      if ordered[0].rule != r {
        assert Without(ordered, r) == [ordered[0]] + rest && Without(ordered, r)[1..] == rest;
      } else {
        assert ordered[0].option.PatchDelete? && Without(ordered, r) == rest;
      }
    }
  }

  /** Registering a jump anew. */
  lemma MovedToEnd(ordered: seq<PatchRule>, chain: string, option: PatchOption)
    requires NotMade(ordered, JumpTo(chain))
    ensures Appended(WithJump(ordered, chain, option)) ==
            Appended(ordered) + if option.PatchAppend? then [JumpTo(chain)] else []
    ensures Inserted(WithJump(ordered, chain, option)) ==
            (if option.PatchInsert? then [JumpTo(chain)] else []) + Inserted(ordered)
  {
    var last := PatchRule(option, if option.PatchInsert? then 1 else 0, JumpTo(chain));
    WithoutUnmade(ordered, JumpTo(chain));
    AppendedAppend(Without(ordered, JumpTo(chain)), [last]);
  }

  lemma OthersStayUnmade(ordered: seq<PatchRule>, chain: string, option: PatchOption, other: string)
    requires NotMade(ordered, JumpTo(other)) && (chain != other || option.PatchDelete?)
    ensures NotMade(WithJump(ordered, chain, option), JumpTo(other))
  {
    JumpsDiffer(chain, other);
    WithoutAt(ordered, JumpTo(chain));
  }

  /** Appended and inserted so far; the chains from `n` on are still to come, and so is the
      preamble if it is `due`. */
  ghost predicate Made(ordered: seq<PatchRule>, back: seq<Rule>, front: seq<Rule>, due: bool, lanes: seq<Lane>, n: nat)
  {
    && Appended(ordered) == back && Inserted(ordered) == front
    && (due ==> NotMade(ordered, JumpTo(PREAMBLE)))
    && (forall j | n <= j < |lanes| :: NotMade(ordered, JumpTo(lanes[j].chain)))
  }

  lemma MakeClear(ordered: seq<PatchRule>, back: seq<Rule>, front: seq<Rule>, due: bool, lanes: seq<Lane>, n: nat)
    requires n < |lanes| && Made(ordered, back, front, due, lanes, n)
    ensures Made(WithJump(ordered, lanes[n].chain, PatchDelete), back, front, due, lanes, n)
  {
    var chain := lanes[n].chain;
    MovedToEnd(ordered, chain, PatchDelete);
    if due {
      OthersStayUnmade(ordered, chain, PatchDelete, PREAMBLE);
    }
    forall j | n <= j < |lanes|
      ensures NotMade(WithJump(ordered, chain, PatchDelete), JumpTo(lanes[j].chain))
    {
      OthersStayUnmade(ordered, chain, PatchDelete, lanes[j].chain);
    }
  }

  lemma MakePreamble(ordered: seq<PatchRule>, back: seq<Rule>, front: seq<Rule>, lanes: seq<Lane>, n: nat)
    requires GoodLanes(lanes) && Made(ordered, back, front, true, lanes, n)
    ensures Made(WithJump(ordered, PREAMBLE, PatchAppend), back + [JumpTo(PREAMBLE)], front, false, lanes, n)
  {
    MovedToEnd(ordered, PREAMBLE, PatchAppend);
    forall j | n <= j < |lanes|
      ensures NotMade(WithJump(ordered, PREAMBLE, PatchAppend), JumpTo(lanes[j].chain))
    {
      OthersStayUnmade(ordered, PREAMBLE, PatchAppend, lanes[j].chain);
    }
  }

  lemma MakeJump(ordered: seq<PatchRule>, back: seq<Rule>, front: seq<Rule>, due: bool, lanes: seq<Lane>, n: nat,
                 option: PatchOption)
    requires GoodLanes(lanes) && n < |lanes| && Made(ordered, back, front, due, lanes, n) && !option.PatchDelete?
    ensures Made(WithJump(ordered, lanes[n].chain, option),
                 if option.PatchAppend? then back + [JumpTo(lanes[n].chain)] else back,
                 if option.PatchInsert? then [JumpTo(lanes[n].chain)] + front else front, due, lanes, n + 1)
  {
    var chain := lanes[n].chain;
    MovedToEnd(ordered, chain, option);
    if due {
      OthersStayUnmade(ordered, chain, option, PREAMBLE);
    }
    forall j | n + 1 <= j < |lanes|
      ensures NotMade(WithJump(ordered, chain, option), JumpTo(lanes[j].chain))
    {
      OthersStayUnmade(ordered, chain, option, lanes[j].chain);
    }
    assert [] + front == front && back + [] == back;
  }

  lemma {:induction false} OnlyDeletes(ordered: seq<PatchRule>)
    requires forall i | 0 <= i < |ordered| :: ordered[i].option.PatchDelete?
    ensures Appended(ordered) == [] && Inserted(ordered) == []
  {
    if ordered != [] {
      OnlyDeletes(ordered[1..]);
    }
  }

  // ---- What the list holds besides ----

  ghost predicate OursOrOld(r: Rule, start: seq<PatchRule>, lanes: seq<Lane>)
  {
    || r == JumpTo(PREAMBLE)
    || (exists j | 0 <= j < |lanes| :: r == JumpTo(lanes[j].chain))
    || (exists j | 0 <= j < |start| :: r == start[j].rule)
  }

  /** Every entry is one of our jumps or was in the list before; inserts are at 1. */
  ghost predicate Known(ordered: seq<PatchRule>, start: seq<PatchRule>, lanes: seq<Lane>)
  {
    forall i | 0 <= i < |ordered| ::
      OursOrOld(ordered[i].rule, start, lanes) && (ordered[i].option.PatchInsert? ==> ordered[i].ruleNum == 1)
  }

  lemma StaysKnown(ordered: seq<PatchRule>, start: seq<PatchRule>, lanes: seq<Lane>, chain: string, option: PatchOption)
    requires Known(ordered, start, lanes)
    requires chain == PREAMBLE || exists j | 0 <= j < |lanes| :: chain == lanes[j].chain
    ensures Known(WithJump(ordered, chain, option), start, lanes)
  {
    WithoutAt(ordered, JumpTo(chain));
    var after := WithJump(ordered, chain, option);
    forall i | 0 <= i < |after|
      ensures OursOrOld(after[i].rule, start, lanes) && (after[i].option.PatchInsert? ==> after[i].ruleNum == 1)
    {
      if i < |after| - 1 {
        assert after[i] == Without(ordered, JumpTo(chain))[i];
        var j :| 0 <= j < |ordered| && ordered[j] == after[i];
      }
    }
  }

  /** On a foreign chain that holds none of our jumps and none of the old ones, the list is
      one a commit accepts and finds fresh. */
  lemma KnownIsFresh(ordered: seq<PatchRule>, start: seq<PatchRule>, lanes: seq<Lane>, existing: seq<Rule>)
    requires DistinctRules(ordered) && Known(ordered, start, lanes)
    requires TokenChains(lanes) && OnlyLeftovers(start) && Foreign(existing, start, lanes)
    ensures GoodModel(PatchModel(ordered)) && FreshPatch(ordered, existing)
  {
    JumpIsClean(PREAMBLE);
    forall i | 0 <= i < |ordered|
      ensures CleanRule(ordered[i].rule) && Count(existing, ordered[i].rule) == 0
    {
      if ordered[i].rule != JumpTo(PREAMBLE) && !exists j | 0 <= j < |start| :: ordered[i].rule == start[j].rule {
        var j :| 0 <= j < |lanes| && ordered[i].rule == JumpTo(lanes[j].chain);
        JumpIsClean(lanes[j].chain);
      }
      CountedIsMember(existing, ordered[i].rule);
    }
  }

  lemma JumpIsClean(chain: string)
    requires IsToken(chain)
    ensures CleanRule(JumpTo(chain))
  {
    assert IsToken("!") && IsToken("-i") && IsToken("lo") && IsToken("-j");
  }

  // ---- Bringing the groups up ----

  /** Everything about one family's list once the first `n` groups are up. */
  ghost predicate BroughtUp(ordered: seq<PatchRule>, start: seq<PatchRule>, lanes: seq<Lane>, n: nat, byOrder: bool)
    requires n <= |lanes|
  {
    && Made(ordered, BackJumps(lanes[..n], byOrder), FrontJumps(lanes[..n], byOrder), !SomeInterface(lanes[..n]),
            lanes, n)
    && Known(ordered, start, lanes)
  }

  lemma StartsBroughtUp(start: seq<PatchRule>, lanes: seq<Lane>, byOrder: bool)
    requires forall i | 0 <= i < |start| :: start[i].option.PatchDelete?
    ensures BroughtUp(start, start, lanes, 0, byOrder)
  {
    OnlyDeletes(start);
  }

  /** One group's rules: what an earlier run left is taken out first, the first interface
      group brings the preamble, then comes the jump. */
  lemma BringUpStep(ordered: seq<PatchRule>, start: seq<PatchRule>, lanes: seq<Lane>, n: nat, byOrder: bool,
                    first: bool)
    requires GoodLanes(lanes) && n < |lanes| && BroughtUp(ordered, start, lanes, n, byOrder)
    requires first == (lanes[n].kind.Interface? && !SomeInterface(lanes[..n]))
    ensures var cleared := WithJump(ordered, lanes[n].chain, PatchDelete);
            BroughtUp(WithJump(if first then WithJump(cleared, PREAMBLE, PatchAppend) else cleared, lanes[n].chain,
                               if GoesFirst(lanes[n], byOrder) then PatchInsert else PatchAppend),
                      start, lanes, n + 1, byOrder)
  {
    var lane, due := lanes[n], !SomeInterface(lanes[..n]);
    var back, front := BackJumps(lanes[..n], byOrder), FrontJumps(lanes[..n], byOrder);
    var option := if GoesFirst(lane, byOrder) then PatchInsert else PatchAppend;
    assert lanes[..n + 1][..n] == lanes[..n];
    SomeInterfaceStep(lanes, n);
    var cleared := WithJump(ordered, lane.chain, PatchDelete);
    MakeClear(ordered, back, front, due, lanes, n);
    StaysKnown(ordered, start, lanes, lane.chain, PatchDelete);
    assert back + [] == back && [] + front == front;
    if first {
      var led := WithJump(cleared, PREAMBLE, PatchAppend);
      MakePreamble(cleared, back, front, lanes, n);
      StaysKnown(cleared, start, lanes, PREAMBLE, PatchAppend);
      MakeJump(led, back + [JumpTo(PREAMBLE)], front, false, lanes, n, option);
      StaysKnown(led, start, lanes, lane.chain, option);
    } else {
      MakeJump(cleared, back, front, due, lanes, n, option);
      StaysKnown(cleared, start, lanes, lane.chain, option);
    }
  }

  /** The links of the lanes are free: never made, or disabled. */
  ghost predicate FreeFrom(helper: Helper, lanes: seq<Lane>, n: nat)
    reads helper, helper.links.Values
  {
    forall j | n <= j < |lanes| && lanes[j].chain in helper.links :: !helper.links[lanes[j].chain].enabled
  }

  /** Brings the groups up in routing order, each through its link. */
  method BringUpJumps(helper: Helper, lanes: seq<Lane>) returns (ok: bool)
    requires helper.Valid() && helper.preambleRefs == 0 && GoodLanes(lanes) && FreeFrom(helper, lanes, 0)
    requires forall i, j | 0 <= i < |helper.chains| && 0 <= j < |helper.chains[i].orderedRules| ::
               helper.chains[i].orderedRules[j].option.PatchDelete?
    modifies helper`links, helper`preambleRefs, helper`held, helper`jumped, helper.chains
    ensures helper.Valid() && (!helper.mayFail ==> ok)
    ensures ok ==> forall i | 0 <= i < |helper.chains| ::
              BroughtUp(helper.chains[i].orderedRules, old(helper.chains[i].orderedRules), lanes, |lanes|,
                        helper.directPriorityByOrder)
  {
    ghost var byOrder := helper.directPriorityByOrder;
    ghost var start := seq(|helper.chains|, i requires 0 <= i < |helper.chains| reads helper.chains =>
                             helper.chains[i].orderedRules);
    forall i | 0 <= i < |helper.chains|
      ensures BroughtUp(helper.chains[i].orderedRules, start[i], lanes, 0, byOrder)
    {
      StartsBroughtUp(start[i], lanes, byOrder);
    }
    for n := 0 to |lanes|
      invariant helper.Valid() && FreeFrom(helper, lanes, n)
      invariant helper.preambleRefs > 0 <==> SomeInterface(lanes[..n])
      invariant forall i | 0 <= i < |helper.chains| ::
                  BroughtUp(helper.chains[i].orderedRules, start[i], lanes, n, byOrder)
    {
      SomeInterfaceStep(lanes, n);
      ok := BringUpLane(helper, lanes, n, start);
      if !ok {
        return;
      }
    }
    return true;
  }

  method BringUpLane(helper: Helper, lanes: seq<Lane>, n: nat, ghost start: seq<seq<PatchRule>>) returns (ok: bool)
    requires helper.Valid() && GoodLanes(lanes) && n < |lanes| && FreeFrom(helper, lanes, n)
    requires |start| == |helper.chains| && (helper.preambleRefs > 0 <==> SomeInterface(lanes[..n]))
    requires forall i | 0 <= i < |helper.chains| ::
               BroughtUp(helper.chains[i].orderedRules, start[i], lanes, n, helper.directPriorityByOrder)
    modifies helper`links, helper`preambleRefs, helper`held, helper`jumped, helper.chains
    ensures helper.Valid() && (!helper.mayFail ==> ok)
    ensures ok ==> FreeFrom(helper, lanes, n + 1)
    ensures ok ==> helper.preambleRefs == old(helper.preambleRefs) + if lanes[n].kind.Interface? then 1 else 0
    ensures ok ==> forall i | 0 <= i < |helper.chains| ::
              BroughtUp(helper.chains[i].orderedRules, start[i], lanes, n + 1, helper.directPriorityByOrder)
  {
    ghost var first := lanes[n].kind.Interface? && helper.preambleRefs == 0;
    ok := MakeLink(helper, lanes[n].chain, lanes[n].kind);
    if ok {
      forall i | 0 <= i < |helper.chains|
        ensures BroughtUp(helper.chains[i].orderedRules, start[i], lanes, n + 1, helper.directPriorityByOrder)
      {
        BringUpStep(old(helper.chains[i].orderedRules), start[i], lanes, n, helper.directPriorityByOrder, first);
      }
    }
  }

  /** A family's rules after a chain that was cleared is linked. */
  function Linked(ordered: seq<PatchRule>, chain: string, kind: Kind, byOrder: bool, first: bool): seq<PatchRule>
  {
    var cleared := WithJump(ordered, chain, PatchDelete);
    WithJump(if first then WithJump(cleared, PREAMBLE, PatchAppend) else cleared, chain,
             if kind.Direct? && !byOrder then PatchInsert else PatchAppend)
  }

  method MakeLink(helper: Helper, chain: string, kind: Kind) returns (ok: bool)
    requires helper.Valid() && chain != PREAMBLE && (chain in helper.links ==> !helper.links[chain].enabled)
    modifies helper`links, helper`preambleRefs, helper`held, helper`jumped, helper.chains
    ensures helper.Valid() && (!helper.mayFail ==> ok)
    ensures forall n | n in helper.links && n != chain ::
            n in old(helper.links) && helper.links[n] == old(helper.links[n])
    ensures forall n | n in old(helper.links) :: old(helper.links[n]).enabled == old(helper.links[n].enabled)
    ensures ok ==> helper.preambleRefs == old(helper.preambleRefs) + if kind.Interface? then 1 else 0
    ensures ok ==> forall i | 0 <= i < |helper.chains| ::
              helper.chains[i].orderedRules ==
              Linked(old(helper.chains[i].orderedRules), chain, kind, helper.directPriorityByOrder,
                     kind.Interface? && old(helper.preambleRefs) == 0)
  {
    var link := helper.NewLink(chain, kind);
    ok := PutLink(link);
  }

  method PutLink(link: IPSetToLink) returns (ok: bool)
    requires link.nh.Valid() && link.Current() && !link.enabled
    modifies link, link.nh`preambleRefs, link.nh`held, link.nh`jumped, link.nh.chains
    ensures link.nh.Valid() && (!link.nh.mayFail ==> ok)
    ensures ok ==> link.nh.preambleRefs == old(link.nh.preambleRefs) + if link.kind.Interface? then 1 else 0
    ensures ok ==> forall i | 0 <= i < |link.nh.chains| ::
              link.nh.chains[i].orderedRules ==
              Linked(old(link.nh.chains[i].orderedRules), link.chainName, link.kind, link.nh.directPriorityByOrder,
                     link.kind.Interface? && old(link.nh.preambleRefs) == 0)
  {
    ok := link.ClearIfDisabled();
    if ok {
      ok := link.Enable();
    }
  }

  lemma SomeInterfaceStep(lanes: seq<Lane>, n: nat)
    requires n < |lanes|
    ensures SomeInterface(lanes[..n + 1]) <==> SomeInterface(lanes[..n]) || lanes[n].kind.Interface?
  {
    if i :| 0 <= i < n && lanes[..n][i].kind.Interface? {
      assert lanes[..n + 1][i].kind.Interface?;
    }
    assert lanes[..n + 1][n] == lanes[n];
  }

  // ---- Who takes the packet ----

  /** The group whose jump this is, if its set holds the address. */
  function TakerOf(r: Rule, lanes: seq<Lane>): (i: Option<nat>)
    ensures i.Some? ==> i.value < |lanes| && lanes[i.value].holds && r == JumpTo(lanes[i.value].chain)
    ensures i.None? ==> forall j | 0 <= j < |lanes| :: !(lanes[j].holds && r == JumpTo(lanes[j].chain))
  {
    if lanes == [] then None
    else
      var n := |lanes| - 1;
      if lanes[n].holds && r == JumpTo(lanes[n].chain) then Some(n) else TakerOf(r, lanes[..n])
  }

  /** Along a chain's rules, the first group to match ends the traversal. */
  function Winner(rules: seq<Rule>, lanes: seq<Lane>): Option<nat>
  {
    if rules == [] then None
    else if TakerOf(rules[0], lanes).Some? then TakerOf(rules[0], lanes)
    else Winner(rules[1..], lanes)
  }

  function Or(a: Option<nat>, b: Option<nat>): Option<nat> { if a.Some? then a else b }

  lemma {:induction false} WinnerAppend(a: seq<Rule>, b: seq<Rule>, lanes: seq<Lane>)
    ensures Winner(a + b, lanes) == Or(Winner(a, lanes), Winner(b, lanes))
  {
    if a == [] {
      assert a + b == b;
    } else {
      assert (a + b)[1..] == a[1..] + b;
      WinnerAppend(a[1..], b, lanes);
    }
  }

  lemma TakerOfJump(lanes: seq<Lane>, j: nat)
    requires GoodLanes(lanes) && j < |lanes|
    ensures TakerOf(JumpTo(lanes[j].chain), lanes) == if lanes[j].holds then Some(j) else None
    ensures TakerOf(JumpTo(PREAMBLE), lanes) == None
  {
    forall i | 0 <= i < |lanes|
      ensures JumpTo(lanes[i].chain) == JumpTo(lanes[j].chain) ==> i == j
      ensures JumpTo(lanes[i].chain) != JumpTo(PREAMBLE)
    {
      JumpsDiffer(lanes[i].chain, lanes[j].chain);
      JumpsDiffer(lanes[i].chain, PREAMBLE);
    }
  }

  lemma WinnerOfJump(lanes: seq<Lane>, j: nat)
    requires GoodLanes(lanes) && j < |lanes|
    ensures Winner([JumpTo(lanes[j].chain)], lanes) == if lanes[j].holds then Some(j) else None
    ensures Winner([JumpTo(PREAMBLE)], lanes) == None
  {
    TakerOfJump(lanes, j);
  }

  /** The first of the first `n` groups that holds the address and stands at the end. */
  function FirstAtBack(lanes: seq<Lane>, n: nat, byOrder: bool): (i: Option<nat>)
    requires n <= |lanes|
    ensures i.Some? ==> i.value < n && lanes[i.value].holds && !GoesFirst(lanes[i.value], byOrder)
                        && forall j | 0 <= j < i.value :: !(lanes[j].holds && !GoesFirst(lanes[j], byOrder))
    ensures i.None? ==> forall j | 0 <= j < n :: !(lanes[j].holds && !GoesFirst(lanes[j], byOrder))
  {
    if n == 0 then None
    else Or(FirstAtBack(lanes, n - 1, byOrder),
            if lanes[n - 1].holds && !GoesFirst(lanes[n - 1], byOrder) then Some(n - 1) else None)
  }

  /** The last of the first `n` groups that holds the address and was put in front. */
  function LastInFront(lanes: seq<Lane>, n: nat, byOrder: bool): (i: Option<nat>)
    requires n <= |lanes|
    ensures i.Some? ==> i.value < n && lanes[i.value].holds && GoesFirst(lanes[i.value], byOrder)
                        && forall j | i.value < j < n :: !(lanes[j].holds && GoesFirst(lanes[j], byOrder))
    ensures i.None? ==> forall j | 0 <= j < n :: !(lanes[j].holds && GoesFirst(lanes[j], byOrder))
  {
    if n == 0 then None
    else Or(if lanes[n - 1].holds && GoesFirst(lanes[n - 1], byOrder) then Some(n - 1) else None,
            LastInFront(lanes, n - 1, byOrder))
  }

  lemma {:induction false} WinnerAtBack(lanes: seq<Lane>, n: nat, byOrder: bool)
    requires GoodLanes(lanes) && n <= |lanes|
    ensures Winner(BackJumps(lanes[..n], byOrder), lanes) == FirstAtBack(lanes, n, byOrder)
  {
    if n > 0 {
      assert lanes[..n][..n - 1] == lanes[..n - 1];
      WinnerAtBack(lanes, n - 1, byOrder);
      WinnerOfJump(lanes, n - 1);
      var front, last := lanes[..n - 1], lanes[n - 1];
      var preamble := if last.kind.Interface? && !SomeInterface(front) then [JumpTo(PREAMBLE)] else [];
      var jump := if GoesFirst(last, byOrder) then [] else [JumpTo(last.chain)];
      WinnerAppend(BackJumps(front, byOrder) + preamble, jump, lanes);
      WinnerAppend(BackJumps(front, byOrder), preamble, lanes);
    }
  }

  lemma {:induction false} WinnerInFront(lanes: seq<Lane>, n: nat, byOrder: bool)
    requires GoodLanes(lanes) && n <= |lanes|
    ensures Winner(FrontJumps(lanes[..n], byOrder), lanes) == LastInFront(lanes, n, byOrder)
  {
    if n > 0 {
      assert lanes[..n][..n - 1] == lanes[..n - 1];
      WinnerInFront(lanes, n - 1, byOrder);
      WinnerOfJump(lanes, n - 1);
      var jump := if GoesFirst(lanes[n - 1], byOrder) then [JumpTo(lanes[n - 1].chain)] else [];
      WinnerAppend(jump, FrontJumps(lanes[..n - 1], byOrder), lanes);
    }
  }

  // ---- The lookup page ----

  /** One network of a group's set, with the group's place in routing order. */
  datatype Entry = Entry(group: nat, contains: bool)

  ghost predicate Ascending(hits: seq<nat>)
  {
    forall i, j | 0 <= i < j < |hits| :: hits[i] < hits[j]
  }

  ghost predicate ByGroup(entries: seq<Entry>)
  {
    forall i, j | 0 <= i < j < |entries| :: entries[i].group <= entries[j].group
  }

  /** Each group with a network that contains the address, once, in routing order. */
  method CollectHits(entries: seq<Entry>) returns (hits: seq<nat>)
    requires ByGroup(entries)
    ensures Ascending(hits)
    ensures forall g: nat :: g in hits <==> exists i | 0 <= i < |entries| :: entries[i] == Entry(g, true)
  {
    hits := [];
    var seen: set<nat> := {};
    for i := 0 to |entries|
      invariant Ascending(hits) && (forall g: nat :: g in seen <==> g in hits)
      invariant forall k | 0 <= k < |hits| :: exists j | 0 <= j < i :: entries[j] == Entry(hits[k], true)
      invariant forall j | 0 <= j < i && entries[j].contains :: entries[j].group in hits
    {
      if entries[i].contains && entries[i].group !in seen {
        seen := seen + {entries[i].group};
        hits := hits + [entries[i].group];
      }
    }
  }

  /** In the absolute mode the last direct hit, else the first hit. */
  method PickIpsetWinner(hits: seq<nat>, lanes: seq<Lane>, mode: string) returns (out: Option<nat>)
    requires forall i | 0 <= i < |hits| :: hits[i] < |lanes|
    ensures hits == [] <==> out.None?
    ensures out.Some? ==> Picked(hits, lanes, mode, out.value)
  {
    if |hits| == 0 {
      return None;
    }
    if mode == "absolute" {
      var i := |hits| - 1;
      while i >= 0
        invariant -1 <= i < |hits|
        invariant forall j | i < j < |hits| :: !lanes[hits[j]].kind.Direct?
      {
        if lanes[hits[i]].kind.Direct? {
          return Some(hits[i]);
        }
        i := i - 1;
      }
    }
    return Some(hits[0]);
  }

  ghost predicate Picked(hits: seq<nat>, lanes: seq<Lane>, mode: string, g: nat)
    requires forall i | 0 <= i < |hits| :: hits[i] < |lanes|
  {
    if mode == "absolute" && exists i | 0 <= i < |hits| :: lanes[hits[i]].kind.Direct? then
      exists i | 0 <= i < |hits| :: g == hits[i] && lanes[g].kind.Direct?
                                    && forall j | i < j < |hits| :: !lanes[hits[j]].kind.Direct?
    else |hits| > 0 && g == hits[0]
  }

  /** The hits are the groups whose sets hold the address. */
  ghost predicate HitsOf(hits: seq<nat>, lanes: seq<Lane>)
  {
    && Ascending(hits) && (forall i | 0 <= i < |hits| :: hits[i] < |lanes| && lanes[hits[i]].holds)
    && (forall g | 0 <= g < |lanes| && lanes[g].holds :: g in hits)
  }

  /** The kernel's answer on our jumps alone. */
  function KernelPick(lanes: seq<Lane>, byOrder: bool): Option<nat>
  {
    Or(LastInFront(lanes, |lanes|, byOrder), FirstAtBack(lanes, |lanes|, byOrder))
  }

  lemma PickedIsKernelPick(hits: seq<nat>, lanes: seq<Lane>, mode: string, g: nat)
    requires HitsOf(hits, lanes) && (mode == "absolute" || mode == "byOrder")
    requires |hits| > 0 && Picked(hits, lanes, mode, g)
    ensures KernelPick(lanes, mode == "byOrder") == Some(g)
  {
    var byOrder := mode == "byOrder";
    var last, first := LastInFront(lanes, |lanes|, byOrder), FirstAtBack(lanes, |lanes|, byOrder);
    assert lanes[g].holds;
    if last.Some? {
      assert last.value in hits;
    }
    if first.Some? {
      assert first.value in hits;
    }
  }

  /** The lookup page's answer is the kernel's. */
  method LookupWinner(entries: seq<Entry>, lanes: seq<Lane>, mode: string) returns (out: Option<nat>)
    requires ByGroup(entries) && forall i | 0 <= i < |entries| :: entries[i].group < |lanes|
    requires forall g | 0 <= g < |lanes| ::
               lanes[g].holds <==> exists i | 0 <= i < |entries| :: entries[i] == Entry(g, true)
    requires mode == "absolute" || mode == "byOrder"
    ensures out == KernelPick(lanes, mode == "byOrder")
  {
    var hits := CollectHits(entries);
    assert forall i | 0 <= i < |hits| :: hits[i] in hits;
    out := PickIpsetWinner(hits, lanes, mode);
    if out.Some? {
      PickedIsKernelPick(hits, lanes, mode, out.value);
    }
  }

  /** No rule of the chain is one of our jumps, present or earlier. */
  ghost predicate Foreign(existing: seq<Rule>, start: seq<PatchRule>, lanes: seq<Lane>)
  {
    CleanRules(existing) && forall i | 0 <= i < |existing| :: !OursOrOld(existing[i], start, lanes)
  }

  ghost predicate TokenChains(lanes: seq<Lane>) { forall j | 0 <= j < |lanes| :: IsToken(lanes[j].chain) }

  /** What the registered list holds at first: rules to be taken out. */
  ghost predicate OnlyLeftovers(start: seq<PatchRule>)
  {
    forall i | 0 <= i < |start| :: start[i].option.PatchDelete? && CleanRule(start[i].rule)
  }

  /** The whole chain after the commit of a bring-up: our inserts, the foreign rules, our
      appends; and whom it gives the packet to. */
  lemma FirstJumpTakes(ordered: seq<PatchRule>, start: seq<PatchRule>, existing: seq<Rule>, lanes: seq<Lane>,
                       byOrder: bool)
    requires GoodLanes(lanes) && TokenChains(lanes) && OnlyLeftovers(start) && Foreign(existing, start, lanes)
    requires DistinctRules(ordered) && BroughtUp(ordered, start, lanes, |lanes|, byOrder)
    ensures GoodModel(PatchModel(ordered))
    ensures var after := AfterCommit(PatchModel(ordered), "PREROUTING", Some(existing));
            && after == Some(FrontJumps(lanes, byOrder) + existing + BackJumps(lanes, byOrder))
            && Winner(after.value, lanes) == KernelPick(lanes, byOrder)
  {
    assert lanes[..|lanes|] == lanes;
    KnownIsFresh(ordered, start, lanes, existing);
    FreshPatchOrder("PREROUTING", ordered, existing);
    WinnerAppend(FrontJumps(lanes, byOrder) + existing, BackJumps(lanes, byOrder), lanes);
    WinnerAppend(FrontJumps(lanes, byOrder), existing, lanes);
    NobodyTakes(existing, lanes);
    WinnerInFront(lanes, |lanes|, byOrder);
    WinnerAtBack(lanes, |lanes|, byOrder);
  }

  /** A commit puts the list beside the foreign rules, and PREROUTING then gives the packet to `out`. */
  ghost predicate Gives(ordered: seq<PatchRule>, existing: seq<Rule>, lanes: seq<Lane>, out: Option<nat>)
  {
    && GoodModel(PatchModel(ordered)) && CleanRules(existing)
    && var after := AfterCommit(PatchModel(ordered), "PREROUTING", Some(existing));
       after.Some? && Winner(after.value, lanes) == out
  }

  /** Routing brought up from nothing, committed beside whatever foreign rules `existing`
      has for each family: in every family the first of our jumps whose group holds the
      address is the one the lookup page names. */
  method RouteThenLookUp(helper: Helper, lanes: seq<Lane>, entries: seq<Entry>, mode: string,
                         ghost existing: seq<seq<Rule>>)
    returns (ok: bool, out: Option<nat>)
    requires helper.Valid() && helper.preambleRefs == 0 && FreeFrom(helper, lanes, 0)
    requires mode == "absolute" || mode == "byOrder"
    requires helper.directPriorityByOrder == (mode == "byOrder")
    requires GoodLanes(lanes) && TokenChains(lanes)
    requires ByGroup(entries) && forall i | 0 <= i < |entries| :: entries[i].group < |lanes|
    requires forall g | 0 <= g < |lanes| ::
               lanes[g].holds <==> exists i | 0 <= i < |entries| :: entries[i] == Entry(g, true)
    requires |existing| == |helper.chains|
    requires forall i | 0 <= i < |helper.chains| ::
               OnlyLeftovers(helper.chains[i].orderedRules)
               && Foreign(existing[i], helper.chains[i].orderedRules, lanes)
    modifies helper`links, helper`preambleRefs, helper`held, helper`jumped, helper.chains
    ensures helper.Valid() && (!helper.mayFail ==> ok)
    ensures ok ==> forall i | 0 <= i < |helper.chains| ::
              Gives(helper.chains[i].orderedRules, existing[i], lanes, out)
  {
    out := LookupWinner(entries, lanes, mode);
    ok := BringUpJumps(helper, lanes);
    if ok {
      forall i | 0 <= i < |helper.chains|
        ensures Gives(helper.chains[i].orderedRules, existing[i], lanes, out)
      {
        FirstJumpTakes(helper.chains[i].orderedRules, old(helper.chains[i].orderedRules), existing[i], lanes,
                       helper.directPriorityByOrder);
      }
    }
  }

  lemma {:induction false} NobodyTakes(rules: seq<Rule>, lanes: seq<Lane>)
    requires forall i, j | 0 <= i < |rules| && 0 <= j < |lanes| :: rules[i] != JumpTo(lanes[j].chain)
    ensures Winner(rules, lanes) == None
  {
    if rules != [] {
      NobodyTakes(rules[1..], lanes);
    }
  }
}

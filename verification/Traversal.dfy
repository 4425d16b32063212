/**
  Whom a packet goes to. It traverses the mangle table's PREROUTING and then that of the
  nat table, jump by jump through the groups' chains. The order of the jumps decides which
  group's rules end the traversal, and so what becomes of the packet.
 */
module Traversal {
  import opened Text
  import opened Netfilter
  import opened GroupRules
  import opened GroupRegistry
  import opened Packets
  import opened Arbitration
  import Preamble

  /** A group that is on, in routing order, and the mark of its link. */
  datatype Group = Group(place: Place, mark: nat)

  /** Marks are not 0, which stands for no mark; marks and ports fit their fields. */
  ghost predicate GoodGroup(g: Group)
  {
    && GoodPlace(g.place) && 0 < g.mark && IsWord(g.mark)
    && (g.place.route.TProxy? ==> IsWord(g.place.route.port) && IsWord(g.place.route.refresh))
  }

  ghost predicate GoodGroups(groups: seq<Group>)
  {
    && (forall i | 0 <= i < |groups| :: GoodGroup(groups[i]))
    && (forall i, j | 0 <= i < j < |groups| :: groups[i].place.chain != groups[j].place.chain)
  }

  // ---- A built-in chain ----

  /** A rule that jumps to one of the chains sends the packet through it. */
  function Pass(r: Rule, chains: Table, p: Packet): Fate
  {
    var target := Target(r);
    if Matched(r, p) && |target| == 1 && target[0] in chains then Walk(chains[target[0]], p)
    else Walk([r], p)
  }

  function Traverse(hook: seq<Rule>, chains: Table, p: Packet): Fate
  {
    if hook == [] then Through(p)
    else
      match Pass(hook[0], chains, p)
      case Through(q) => Traverse(hook[1..], chains, q)
      case Ended(q, verdict) => Ended(q, verdict)
  }

  lemma {:induction false} TraverseBoth(a: seq<Rule>, b: seq<Rule>, chains: Table, p: Packet)
    ensures Traverse(a, chains, p).Through? ==>
              Traverse(a + b, chains, p) == Traverse(b, chains, Traverse(a, chains, p).p)
    ensures Traverse(a, chains, p).Ended? ==> Traverse(a + b, chains, p) == Traverse(a, chains, p)
  {
    if a == [] {
      assert a + b == b;
    } else {
      assert (a + b)[1..] == a[1..] + b;
      if Pass(a[0], chains, p).Through? {
        TraverseBoth(a[1..], b, chains, Pass(a[0], chains, p).p);
      }
    }
  }

  lemma JumpPasses(chain: string, chains: Table, p: Packet)
    requires chain in chains && p.input != "lo"
    ensures Pass(Preamble.JumpTo(chain), chains, p) == Walk(chains[chain], p)
  {
    var r := Preamble.JumpTo(chain);
    assert r[3..] == ["-j", chain] && Matched(["-j", chain], p);
    assert Matched(r, p);
    TargetBehind(["!", "-i", "lo"], ["-j", chain]);
    assert r == ["!", "-i", "lo"] + ["-j", chain] && ["-j", chain][1..] == [chain];
  }

  // ---- Our chains and the rest ----

  /** But for what was renewed on the way. */
  predicate Same(q: Packet, p: Packet) { q == p.(renewed := q.renewed) }

  /** The table holds the groups' chains, and the preamble if a packet can come to it. */
  ghost predicate InPlace(chains: Table, groups: seq<Group>, bypass: string, t: string)
  {
    forall j | 0 <= j < |groups| ::
      groups[j].place.chain in chains
      && chains[groups[j].place.chain] == [Guard(bypass)] + RulesIn(groups[j].place, t, groups[j].mark)
  }

  ghost predicate PreambleInPlace(chains: Table, bypass: string)
  {
    Preamble.PREAMBLE in chains && chains[Preamble.PREAMBLE] == PreambleRules(bypass)
  }

  predicate JumpsToGroup(r: Rule, groups: seq<Group>)
  {
    exists j | 0 <= j < |groups| :: r == Preamble.JumpTo(groups[j].place.chain)
  }

  /** A foreign rule takes no notice of the packet. */
  ghost predicate Ignores(r: Rule, chains: Table, p: Packet)
  {
    forall q | Same(q, p) :: Pass(r, chains, q) == Through(q)
  }

  // ---- Who takes a packet in a table ----

  function KindOf(route: Route): Preamble.Kind
  {
    match route
    case Direct => Preamble.Direct
    case TProxy(_, _) => Preamble.TProxy
    case _ => Preamble.Interface
  }

  /** The groups' lanes, each holding what its rules in the table take: a direct group takes
      everything it lists; a proxied one UDP in the mangle table and TCP in the nat table;
      the others take everything they list in the mangle table only. */
  function Lanes(groups: seq<Group>, t: string, p: Packet): (lanes: seq<Lane>)
    ensures |lanes| == |groups|
  {
    seq(|groups|, i requires 0 <= i < |groups| =>
      var g := groups[i].place;
      Lane(g.chain, KindOf(g.route),
           g.main in p.dest
           && match g.route
              case Direct => true
              case TProxy(_, _) => p.protocol == if t == "nat" then "tcp" else "udp"
              case _ => t != "nat"))
  }

  /** What the page goes by: the groups that list the address. */
  function ListedBy(groups: seq<Group>, p: Packet): (lanes: seq<Lane>)
    ensures |lanes| == |groups|
  {
    seq(|groups|, i requires 0 <= i < |groups| =>
      Lane(groups[i].place.chain, KindOf(groups[i].place.route), groups[i].place.main in p.dest))
  }

  lemma LanesAreGood(groups: seq<Group>, t: string, p: Packet)
    requires GoodGroups(groups)
    ensures GoodLanes(Lanes(groups, t, p)) && GoodLanes(ListedBy(groups, p))
  {
  }

  // ---- The mangle table ----

  /** The packet comes from outside, and not from a client that is exempt. */
  predicate Eligible(p: Packet, bypass: string) { p.input != "lo" && bypass !in p.source }

  /** The packet belongs to no connection that was given a mark. */
  predicate Undecided(p: Packet) { p.mark == 0 && (p.original ==> p.connmark == 0) }

  /** What becomes of a packet in the mangle table when the group's rules are the first to
      take it: a direct group lets it go as it is, a proxied one hands it to the proxy or to
      the socket that waits for it, the others mark it and its connection. */
  ghost predicate MangleFate(f: Fate, winner: Option<nat>, groups: seq<Group>, p: Packet)
  {
    match winner
    case None => f.Through? && Same(f.p, p)
    case Some(i) =>
      i < |groups| && f.Ended? &&
      match groups[i].place.route
      case Direct => Same(f.p, p) && f.verdict == Accepted
      case TProxy(port, _) =>
        && Same(f.p, p.(mark := Xmark(p.mark, groups[i].mark, groups[i].mark)))
        && f.verdict == if p.socket then Accepted else Proxied(port)
      case _ => Same(f.p, p.(mark := groups[i].mark, connmark := groups[i].mark)) && f.verdict == Accepted
  }

  lemma GroupInMangle(g: Group, bypass: string, p: Packet)
    requires GoodGroup(g) && IsName(bypass) && bypass !in p.source
    ensures var f := Walk([Guard(bypass)] + RulesIn(g.place, "mangle", g.mark), p);
            if g.place.main in p.dest && (g.place.route.TProxy? ==> p.protocol == "udp")
            then MangleFate(f, Some(0), [g], p) else f.Through? && Same(f.p, p)
  {
    match g.place.route
    case Direct => DirectChain(g.place, bypass, "mangle", g.mark, p);
    case TProxy(_, _) => ProxyMangleChain(g.place, bypass, g.mark, p);
    case _ => LinkMangleChain(g.place, bypass, g.mark, p);
  }

  /** A rule of the built-in chain leads to a group's chain or ignores the packet; to the
      preamble only if that has no mark to give back. */
  ghost predicate LeadsOn(r: Rule, chains: Table, groups: seq<Group>, bypass: string, p: Packet)
  {
    if r == Preamble.JumpTo(Preamble.PREAMBLE) then PreambleInPlace(chains, bypass) && Undecided(p)
    else JumpsToGroup(r, groups) || Ignores(r, chains, p)
  }

  lemma RuleInMangle(r: Rule, chains: Table, groups: seq<Group>, bypass: string, p: Packet)
    requires GoodGroups(groups) && IsName(bypass) && InPlace(chains, groups, bypass, "mangle") && Eligible(p, bypass)
    requires LeadsOn(r, chains, groups, bypass, p)
    ensures MangleFate(Pass(r, chains, p), TakerOf(r, Lanes(groups, "mangle", p)), groups, p)
  {
    var lanes := Lanes(groups, "mangle", p);
    LanesAreGood(groups, "mangle", p);
    if r == Preamble.JumpTo(Preamble.PREAMBLE) {
      JumpPasses(Preamble.PREAMBLE, chains, p);
      PreambleChain(bypass, p);
      NoLane(r, lanes);
    } else if j :| 0 <= j < |groups| && r == Preamble.JumpTo(groups[j].place.chain) {
      TakerOfJump(lanes, j);
      JumpPasses(groups[j].place.chain, chains, p);
      GroupInMangle(groups[j], bypass, p);
    } else {
      NoLane(r, lanes);
    }
  }

  lemma NoLane(r: Rule, lanes: seq<Lane>)
    requires forall j | 0 <= j < |lanes| :: r != Preamble.JumpTo(lanes[j].chain)
    ensures TakerOf(r, lanes) == None
  {
  }

  lemma SameFate(f: Fate, winner: Option<nat>, groups: seq<Group>, p: Packet, q: Packet)
    requires Same(q, p) && MangleFate(f, winner, groups, q)
    ensures MangleFate(f, winner, groups, p)
  {
  }

  /** The first group whose rules take the packet decides about it, and nobody after it. */
  lemma {:induction false} MangleByWinner(hook: seq<Rule>, chains: Table, groups: seq<Group>, bypass: string,
                                          p: Packet)
    requires GoodGroups(groups) && IsName(bypass) && InPlace(chains, groups, bypass, "mangle") && Eligible(p, bypass)
    requires forall i | 0 <= i < |hook| :: LeadsOn(hook[i], chains, groups, bypass, p)
    ensures MangleFate(Traverse(hook, chains, p), Winner(hook, Lanes(groups, "mangle", p)), groups, p)
  {
    if hook != [] {
      RuleInMangle(hook[0], chains, groups, bypass, p);
      if Pass(hook[0], chains, p).Through? {
        var q := Pass(hook[0], chains, p).p;
        assert Lanes(groups, "mangle", q) == Lanes(groups, "mangle", p);
        MangleByWinner(hook[1..], chains, groups, bypass, q);
        SameFate(Traverse(hook[1..], chains, q), Winner(hook[1..], Lanes(groups, "mangle", p)), groups, p, q);
      }
    }
  }

  // ---- The nat table ----

  /** In the nat table a direct group lets the packet go, and a proxied one redirects it. */
  ghost predicate NatFate(f: Fate, winner: Option<nat>, groups: seq<Group>, p: Packet)
  {
    match winner
    case None => f == Through(p)
    case Some(i) =>
      i < |groups| &&
      match groups[i].place.route
      case Direct => f == Ended(p, Accepted)
      case TProxy(port, _) => f == Ended(p, Redirected(port))
      case _ => false
  }

  /** Only direct and proxied groups hang their chains under nat PREROUTING. */
  ghost predicate LeadsOnInNat(r: Rule, chains: Table, groups: seq<Group>, p: Packet)
  {
    || (exists j | 0 <= j < |groups| ::
          (groups[j].place.route.Direct? || groups[j].place.route.TProxy?)
          && r == Preamble.JumpTo(groups[j].place.chain))
    || (!JumpsToGroup(r, groups) && Pass(r, chains, p) == Through(p))
  }

  ghost predicate InPlaceInNat(chains: Table, groups: seq<Group>, bypass: string)
  {
    forall j | 0 <= j < |groups| && (groups[j].place.route.Direct? || groups[j].place.route.TProxy?) ::
      groups[j].place.chain in chains
      && chains[groups[j].place.chain] == [Guard(bypass)] + RulesIn(groups[j].place, "nat", groups[j].mark)
  }

  lemma RuleInNat(r: Rule, chains: Table, groups: seq<Group>, bypass: string, p: Packet)
    requires GoodGroups(groups) && IsName(bypass) && InPlaceInNat(chains, groups, bypass)
    requires Eligible(p, bypass) && LeadsOnInNat(r, chains, groups, p)
    ensures NatFate(Pass(r, chains, p), TakerOf(r, Lanes(groups, "nat", p)), groups, p)
  {
    var lanes := Lanes(groups, "nat", p);
    LanesAreGood(groups, "nat", p);
    if j :| 0 <= j < |groups| && (groups[j].place.route.Direct? || groups[j].place.route.TProxy?)
            && r == Preamble.JumpTo(groups[j].place.chain) {
      var g := groups[j];
      TakerOfJump(lanes, j);
      JumpPasses(g.place.chain, chains, p);
      if g.place.route.Direct? {
        DirectChain(g.place, bypass, "nat", g.mark, p);
      } else {
        ProxyNatChain(g.place, bypass, g.mark, p);
      }
    } else {
      NoLane(r, lanes);
    }
  }

  lemma {:induction false} NatByWinner(hook: seq<Rule>, chains: Table, groups: seq<Group>, bypass: string, p: Packet)
    requires GoodGroups(groups) && IsName(bypass) && InPlaceInNat(chains, groups, bypass)
    requires Eligible(p, bypass)
    requires forall i | 0 <= i < |hook| :: LeadsOnInNat(hook[i], chains, groups, p)
    ensures NatFate(Traverse(hook, chains, p), Winner(hook, Lanes(groups, "nat", p)), groups, p)
  {
    if hook != [] {
      RuleInNat(hook[0], chains, groups, bypass, p);
      if Pass(hook[0], chains, p).Through? {
        NatByWinner(hook[1..], chains, groups, bypass, p);
      }
    }
  }

  // ---- The order a bring-up makes ----

  /** The same groups in the same places; the lanes may hold different addresses. */
  ghost predicate SameOrder(a: seq<Lane>, b: seq<Lane>)
  {
    |a| == |b| && forall i | 0 <= i < |a| :: a[i].chain == b[i].chain && a[i].kind == b[i].kind
  }

  lemma {:induction false} OrderMakesJumps(a: seq<Lane>, b: seq<Lane>, byOrder: bool)
    requires SameOrder(a, b)
    ensures FrontJumps(a, byOrder) == FrontJumps(b, byOrder) && BackJumps(a, byOrder) == BackJumps(b, byOrder)
  {
    if a != [] {
      OrderMakesJumps(a[..|a| - 1], b[..|b| - 1], byOrder);
      SameInterfaces(a[..|a| - 1], b[..|b| - 1]);
    }
  }

  lemma SameInterfaces(a: seq<Lane>, b: seq<Lane>)
    requires SameOrder(a, b)
    ensures SomeInterface(a) <==> SomeInterface(b)
  {
    if i :| 0 <= i < |a| && a[i].kind.Interface? {
      assert b[i].kind.Interface?;
    }
    if i :| 0 <= i < |b| && b[i].kind.Interface? {
      assert a[i].kind.Interface?;
    }
  }

  /** Interface groups hang no chain under nat PREROUTING. */
  function Natted(lanes: seq<Lane>): seq<Lane>
  {
    if lanes == [] then []
    else
      var front, last := lanes[..|lanes| - 1], lanes[|lanes| - 1];
      Natted(front) + if last.kind.Interface? then [] else [last]
  }

  function PreroutingOf(t: string, lanes: seq<Lane>, foreign: seq<Rule>, byOrder: bool): seq<Rule>
  {
    var own := if t == "nat" then Natted(lanes) else lanes;
    FrontJumps(own, byOrder) + foreign + BackJumps(own, byOrder)
  }

  lemma {:induction false} NattedHasNoInterface(lanes: seq<Lane>)
    ensures !SomeInterface(Natted(lanes))
  {
    if lanes != [] {
      NattedHasNoInterface(lanes[..|lanes| - 1]);
    }
  }

  lemma NattedStep(lanes: seq<Lane>, n: nat, byOrder: bool)
    requires n < |lanes|
    ensures var before, last := Natted(lanes[..n]), lanes[n];
            var jump := [Preamble.JumpTo(last.chain)];
            && BackJumps(Natted(lanes[..n + 1]), byOrder)
               == BackJumps(before, byOrder) + (if last.kind.Interface? || GoesFirst(last, byOrder) then [] else jump)
            && FrontJumps(Natted(lanes[..n + 1]), byOrder)
               == (if GoesFirst(last, byOrder) then jump else []) + FrontJumps(before, byOrder)
  {
    var before, last := Natted(lanes[..n]), lanes[n];
    assert lanes[..n + 1][..n] == lanes[..n] && lanes[..n + 1][n] == last;
    if last.kind.Interface? {
      assert Natted(lanes[..n + 1]) == before;
      assert BackJumps(before, byOrder) + [] == BackJumps(before, byOrder);
    } else {
      assert Natted(lanes[..n + 1]) == before + [last] && (before + [last])[..|before|] == before;
    }
  }

  /** Only what a table's rules take counts: interface groups take nothing in nat. */
  ghost predicate NatLanes(lanes: seq<Lane>)
  {
    forall i | 0 <= i < |lanes| && lanes[i].kind.Interface? :: !lanes[i].holds
  }

  lemma {:induction false} NatWinner(lanes: seq<Lane>, n: nat, byOrder: bool)
    requires GoodLanes(lanes) && n <= |lanes| && NatLanes(lanes)
    ensures Winner(BackJumps(Natted(lanes[..n]), byOrder), lanes) == FirstAtBack(lanes, n, byOrder)
    ensures Winner(FrontJumps(Natted(lanes[..n]), byOrder), lanes) == LastInFront(lanes, n, byOrder)
  {
    if n > 0 {
      NatWinner(lanes, n - 1, byOrder);
      NatWinnerStep(lanes, n - 1, byOrder);
    }
  }

  lemma NatWinnerStep(lanes: seq<Lane>, n: nat, byOrder: bool)
    requires GoodLanes(lanes) && n < |lanes| && NatLanes(lanes)
    requires Winner(BackJumps(Natted(lanes[..n]), byOrder), lanes) == FirstAtBack(lanes, n, byOrder)
    requires Winner(FrontJumps(Natted(lanes[..n]), byOrder), lanes) == LastInFront(lanes, n, byOrder)
    ensures Winner(BackJumps(Natted(lanes[..n + 1]), byOrder), lanes) == FirstAtBack(lanes, n + 1, byOrder)
    ensures Winner(FrontJumps(Natted(lanes[..n + 1]), byOrder), lanes) == LastInFront(lanes, n + 1, byOrder)
  {
    var last := lanes[n];
    NattedStep(lanes, n, byOrder);
    WinnerOneMore(BackJumps(Natted(lanes[..n]), byOrder), FrontJumps(Natted(lanes[..n]), byOrder), lanes, n,
                  !last.kind.Interface? && !GoesFirst(last, byOrder), GoesFirst(last, byOrder));
  }

  lemma WinnerOneMore(back: seq<Rule>, front: seq<Rule>, lanes: seq<Lane>, j: nat, atBack: bool, inFront: bool)
    requires GoodLanes(lanes) && j < |lanes|
    ensures var jump := [Preamble.JumpTo(lanes[j].chain)];
            var taker := if lanes[j].holds then Some(j) else None;
            && Winner(back + if atBack then jump else [], lanes)
               == Or(Winner(back, lanes), if atBack then taker else None)
            && Winner((if inFront then jump else []) + front, lanes)
               == Or(if inFront then taker else None, Winner(front, lanes))
  {
    var jump := [Preamble.JumpTo(lanes[j].chain)];
    WinnerOfJump(lanes, j);
    WinnerAppend(back, if atBack then jump else [], lanes);
    WinnerAppend(if inFront then jump else [], front, lanes);
  }

  ghost predicate NoJumps(foreign: seq<Rule>, lanes: seq<Lane>)
  {
    forall i, j | 0 <= i < |foreign| && 0 <= j < |lanes| :: foreign[i] != Preamble.JumpTo(lanes[j].chain)
  }

  /** In the order a bring-up makes, the first group to take the packet is the kernel's pick. */
  lemma WinnerIsPick(t: string, order: seq<Lane>, lanes: seq<Lane>, foreign: seq<Rule>, byOrder: bool)
    requires GoodLanes(lanes) && SameOrder(order, lanes) && NoJumps(foreign, lanes)
    requires t == "nat" ==> NatLanes(lanes)
    ensures Winner(PreroutingOf(t, order, foreign, byOrder), lanes) == KernelPick(lanes, byOrder)
  {
    assert lanes[..|lanes|] == lanes;
    NobodyTakes(foreign, lanes);
    if t == "nat" {
      NatWinner(lanes, |lanes|, byOrder);
      NattedOrder(order, lanes);
      OrderMakesJumps(Natted(order), Natted(lanes), byOrder);
    } else {
      WinnerInFront(lanes, |lanes|, byOrder);
      WinnerAtBack(lanes, |lanes|, byOrder);
      OrderMakesJumps(order, lanes, byOrder);
    }
    var own := if t == "nat" then Natted(order) else order;
    WinnerAppend(FrontJumps(own, byOrder) + foreign, BackJumps(own, byOrder), lanes);
    WinnerAppend(FrontJumps(own, byOrder), foreign, lanes);
  }

  lemma {:induction false} NattedOrder(a: seq<Lane>, b: seq<Lane>)
    requires SameOrder(a, b)
    ensures SameOrder(Natted(a), Natted(b))
  {
    if a != [] {
      NattedOrder(a[..|a| - 1], b[..|b| - 1]);
    }
  }

  /** A group that takes the packet keeps the first place when some of the others do not. */
  lemma PickAmongFewer(lanes: seq<Lane>, fewer: seq<Lane>, byOrder: bool)
    requires SameOrder(lanes, fewer) && forall i | 0 <= i < |lanes| :: fewer[i].holds ==> lanes[i].holds
    ensures KernelPick(lanes, byOrder) == None ==> KernelPick(fewer, byOrder) == None
    ensures forall i | KernelPick(lanes, byOrder) == Some(i) && i < |fewer| && fewer[i].holds ::
              KernelPick(fewer, byOrder) == Some(i)
  {
  }

  // ---- Every rule on the way ----

  predicate IsJumpOf(r: Rule, lanes: seq<Lane>)
  {
    exists j | 0 <= j < |lanes| :: r == Preamble.JumpTo(lanes[j].chain)
  }

  lemma {:induction false} JumpsAreOurs(lanes: seq<Lane>, byOrder: bool)
    ensures forall r | r in FrontJumps(lanes, byOrder) :: IsJumpOf(r, lanes)
    ensures forall r | r in BackJumps(lanes, byOrder) ::
              IsJumpOf(r, lanes) || (r == Preamble.JumpTo(Preamble.PREAMBLE) && SomeInterface(lanes))
  {
    if lanes != [] {
      var front, last := lanes[..|lanes| - 1], lanes[|lanes| - 1];
      JumpsAreOurs(front, byOrder);
      assert IsJumpOf(Preamble.JumpTo(last.chain), lanes);
      forall r | IsJumpOf(r, front)
        ensures IsJumpOf(r, lanes)
      {
        var j :| 0 <= j < |front| && r == Preamble.JumpTo(front[j].chain);
        assert lanes[j].chain == front[j].chain;
      }
      assert SomeInterface(front) ==> SomeInterface(lanes) by {
        if i :| 0 <= i < |front| && front[i].kind.Interface? {
          assert lanes[i].kind.Interface?;
        }
      }
    }
  }

  /** The mangle table has all groups' chains, and the preamble while an interface group is
      on; the nat table those of the direct and the proxied groups. */
  ghost predicate Standing(mangle: Table, natted: Table, groups: seq<Group>, bypass: string)
  {
    && GoodGroups(groups) && IsName(bypass)
    && InPlace(mangle, groups, bypass, "mangle") && InPlaceInNat(natted, groups, bypass)
    && ((exists i | 0 <= i < |groups| :: KindOf(groups[i].place.route).Interface?) ==> PreambleInPlace(mangle, bypass))
  }

  /** Foreign rules jump to no chain of ours and take no notice of the packet. */
  ghost predicate Indifferent(foreign: seq<Rule>, chains: Table, groups: seq<Group>, p: Packet)
  {
    forall i | 0 <= i < |foreign| ::
      && foreign[i] != Preamble.JumpTo(Preamble.PREAMBLE) && !JumpsToGroup(foreign[i], groups)
      && Ignores(foreign[i], chains, p)
  }

  lemma IndifferentHaveNoJumps(foreign: seq<Rule>, chains: Table, groups: seq<Group>, p: Packet, lanes: seq<Lane>)
    requires Indifferent(foreign, chains, groups, p) && SameOrder(ListedBy(groups, p), lanes)
    ensures NoJumps(foreign, lanes)
  {
    forall i, j | 0 <= i < |foreign| && 0 <= j < |lanes|
      ensures foreign[i] != Preamble.JumpTo(lanes[j].chain)
    {
      assert lanes[j].chain == groups[j].place.chain;
    }
  }

  lemma MangleRulesLeadOn(mangle: Table, natted: Table, foreign: seq<Rule>, groups: seq<Group>, bypass: string,
                          byOrder: bool, p: Packet)
    requires Standing(mangle, natted, groups, bypass) && Indifferent(foreign, mangle, groups, p) && Undecided(p)
    ensures var hook := PreroutingOf("mangle", ListedBy(groups, p), foreign, byOrder);
            forall i | 0 <= i < |hook| :: LeadsOn(hook[i], mangle, groups, bypass, p)
  {
    var order := ListedBy(groups, p);
    var hook := PreroutingOf("mangle", order, foreign, byOrder);
    JumpsAreOurs(order, byOrder);
    forall i | 0 <= i < |hook|
      ensures LeadsOn(hook[i], mangle, groups, bypass, p)
    {
      if hook[i] in foreign {
        assert Indifferent(foreign, mangle, groups, p);
      } else if hook[i] == Preamble.JumpTo(Preamble.PREAMBLE) {
        PreambleOnlyForInterfaces(hook[i], order, foreign, groups, byOrder, p);
      } else {
        assert hook[i] in FrontJumps(order, byOrder) || hook[i] in BackJumps(order, byOrder);
        var j :| 0 <= j < |order| && hook[i] == Preamble.JumpTo(order[j].chain);
        assert hook[i] == Preamble.JumpTo(groups[j].place.chain);
      }
    }
  }

  lemma PreambleOnlyForInterfaces(r: Rule, order: seq<Lane>, foreign: seq<Rule>, groups: seq<Group>, byOrder: bool,
                                  p: Packet)
    requires GoodGroups(groups) && order == ListedBy(groups, p) && r == Preamble.JumpTo(Preamble.PREAMBLE)
    requires r in FrontJumps(order, byOrder) || r in BackJumps(order, byOrder)
    ensures exists i | 0 <= i < |groups| :: KindOf(groups[i].place.route).Interface?
  {
    JumpsAreOurs(order, byOrder);
    forall j | 0 <= j < |order|
      ensures r != Preamble.JumpTo(order[j].chain)
    {
      assert GoodPlace(groups[j].place);
      Preamble.JumpsDiffer(Preamble.PREAMBLE, order[j].chain);
    }
    var i :| 0 <= i < |order| && order[i].kind.Interface?;
    assert KindOf(groups[i].place.route).Interface?;
  }
}

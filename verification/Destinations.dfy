/**
  Where packets go, and where the lookup page says they go. A new packet passes PREROUTING of
  the mangle table and then of the nat table; each has its own order of jumps. A packet of
  a connection that was given a mark keeps it.
 */
module Destinations {
  import opened Text
  import opened Netfilter
  import opened GroupRules
  import opened GroupRegistry
  import opened Packets
  import opened Arbitration
  import opened Traversal
  import Preamble

  // ---- What becomes of a packet ----

  /** A packet that is not yet decided: in the mangle table the kernel's pick among the groups
      whose rules there take it decides. */
  lemma NewPacketInMangle(mangle: Table, natted: Table, foreign: seq<Rule>, groups: seq<Group>, bypass: string,
                          byOrder: bool, p: Packet)
    requires Standing(mangle, natted, groups, bypass) && Indifferent(foreign, mangle, groups, p)
    requires Eligible(p, bypass) && Undecided(p)
    ensures MangleFate(Traverse(PreroutingOf("mangle", ListedBy(groups, p), foreign, byOrder), mangle, p),
                       KernelPick(Lanes(groups, "mangle", p), byOrder), groups, p)
  {
    MangleRulesLeadOn(mangle, natted, foreign, groups, bypass, byOrder, p);
    MangleByWinner(PreroutingOf("mangle", ListedBy(groups, p), foreign, byOrder), mangle, groups, bypass, p);
    LanesAreGood(groups, "mangle", p);
    IndifferentHaveNoJumps(foreign, mangle, groups, p, Lanes(groups, "mangle", p));
    WinnerIsPick("mangle", ListedBy(groups, p), Lanes(groups, "mangle", p), foreign, byOrder);
  }

  lemma NatRulesLeadOn(natted: Table, foreign: seq<Rule>, groups: seq<Group>, byOrder: bool, p: Packet)
    requires GoodGroups(groups) && Indifferent(foreign, natted, groups, p)
    ensures var hook := PreroutingOf("nat", ListedBy(groups, p), foreign, byOrder);
            forall i | 0 <= i < |hook| :: LeadsOnInNat(hook[i], natted, groups, p)
  {
    var order := ListedBy(groups, p);
    var hook := PreroutingOf("nat", order, foreign, byOrder);
    JumpsAreOurs(Natted(order), byOrder);
    NattedHasNoInterface(order);
    forall i | 0 <= i < |hook|
      ensures LeadsOnInNat(hook[i], natted, groups, p)
    {
      if hook[i] in foreign {
        assert Indifferent(foreign, natted, groups, p);
      } else {
        assert hook[i] in FrontJumps(Natted(order), byOrder) || hook[i] in BackJumps(Natted(order), byOrder);
        var j :| 0 <= j < |Natted(order)| && hook[i] == Preamble.JumpTo(Natted(order)[j].chain);
        NattedMembers(order, j);
        var k :| 0 <= k < |order| && order[k] == Natted(order)[j] && !order[k].kind.Interface?;
        assert hook[i] == Preamble.JumpTo(groups[k].place.chain);
      }
    }
  }

  lemma {:induction false} NattedMembers(lanes: seq<Lane>, j: nat)
    requires j < |Natted(lanes)|
    ensures exists k | 0 <= k < |lanes| :: lanes[k] == Natted(lanes)[j] && !lanes[k].kind.Interface?
  {
    var front := lanes[..|lanes| - 1];
    if j < |Natted(front)| {
      NattedMembers(front, j);
      var k :| 0 <= k < |front| && front[k] == Natted(front)[j] && !front[k].kind.Interface?;
      assert lanes[k] == Natted(lanes)[j];
    } else {
      assert lanes[|front|] == Natted(lanes)[j];
    }
  }

  /** In the nat table the pick is among the direct groups and, for TCP, the proxied ones. */
  lemma PacketInNat(natted: Table, foreign: seq<Rule>, groups: seq<Group>, bypass: string, byOrder: bool, p: Packet)
    requires GoodGroups(groups) && IsName(bypass) && InPlaceInNat(natted, groups, bypass)
    requires Indifferent(foreign, natted, groups, p) && Eligible(p, bypass)
    ensures NatFate(Traverse(PreroutingOf("nat", ListedBy(groups, p), foreign, byOrder), natted, p),
                    KernelPick(Lanes(groups, "nat", p), byOrder), groups, p)
  {
    NatRulesLeadOn(natted, foreign, groups, byOrder, p);
    NatByWinner(PreroutingOf("nat", ListedBy(groups, p), foreign, byOrder), natted, groups, bypass, p);
    LanesAreGood(groups, "nat", p);
    IndifferentHaveNoJumps(foreign, natted, groups, p, Lanes(groups, "nat", p));
    WinnerIsPick("nat", ListedBy(groups, p), Lanes(groups, "nat", p), foreign, byOrder);
  }

  // ---- The page's answer ----

  /** Where a packet goes: its own way, by the table of a mark, or to the proxy. */
  datatype Way = Plain | Marked(mark: nat) | ToProxy(port: nat)

  function WayOf(mangle: Fate, natFate: Fate): Way
  {
    if natFate.Ended? && natFate.verdict.Redirected? then ToProxy(natFate.verdict.port)
    else if mangle.Ended? && mangle.verdict.Proxied? then ToProxy(mangle.verdict.port)
    else if mangle.p.mark != 0 then Marked(mangle.p.mark) else Plain
  }

  /** What naming a group says about the packet. */
  function WayOfGroup(g: Group): Way
  {
    match g.place.route
    case Direct => Plain
    case TProxy(port, _) => ToProxy(port)
    case _ => Marked(g.mark)
  }

  /** A new packet passes PREROUTING of the mangle table and then that of the nat table. */
  function Goes(mangle: Table, natted: Table, hooks: (seq<Rule>, seq<Rule>), p: Packet): Way
  {
    var f := Traverse(hooks.0, mangle, p);
    WayOf(f, Traverse(hooks.1, natted, f.p))
  }

  function Hooks(groups: seq<Group>, foreign: (seq<Rule>, seq<Rule>), byOrder: bool, p: Packet): (seq<Rule>, seq<Rule>)
  {
    (PreroutingOf("mangle", ListedBy(groups, p), foreign.0, byOrder),
     PreroutingOf("nat", ListedBy(groups, p), foreign.1, byOrder))
  }

  /** But for its marks and for what was renewed on the way. */
  predicate Remarked(q: Packet, p: Packet) { q == p.(mark := q.mark, connmark := q.connmark, renewed := q.renewed) }

  /** Foreign rules of both tables let the packet through, whatever marks it carries. */
  ghost predicate AllIndifferent(mangle: Table, natted: Table, foreign: (seq<Rule>, seq<Rule>), groups: seq<Group>,
                                 p: Packet)
  {
    && Indifferent(foreign.0, mangle, groups, p)
    && forall q: Packet | Remarked(q, p) :: Indifferent(foreign.1, natted, groups, q)
  }

  ghost predicate Premises(mangle: Table, natted: Table, foreign: (seq<Rule>, seq<Rule>), groups: seq<Group>,
                           bypass: string, p: Packet)
  {
    && Standing(mangle, natted, groups, bypass) && AllIndifferent(mangle, natted, foreign, groups, p)
    && Eligible(p, bypass) && Undecided(p)
  }

  /** Both tables in turn: each has its own pick. */
  lemma BothTables(mangle: Table, natted: Table, foreign: (seq<Rule>, seq<Rule>), groups: seq<Group>,
                   bypass: string, byOrder: bool, p: Packet)
    requires Premises(mangle, natted, foreign, groups, bypass, p)
    ensures var hooks := Hooks(groups, foreign, byOrder, p);
            var f := Traverse(hooks.0, mangle, p);
            && MangleFate(f, KernelPick(Lanes(groups, "mangle", p), byOrder), groups, p)
            && NatFate(Traverse(hooks.1, natted, f.p), KernelPick(Lanes(groups, "nat", p), byOrder), groups, f.p)
  {
    NewPacketInMangle(mangle, natted, foreign.0, groups, bypass, byOrder, p);
    var q := Traverse(Hooks(groups, foreign, byOrder, p).0, mangle, p).p;
    assert Remarked(q, p);
    assert Lanes(groups, "nat", q) == Lanes(groups, "nat", p) && ListedBy(groups, q) == ListedBy(groups, p);
    PacketInNat(natted, foreign.1, groups, bypass, byOrder, q);
  }

  /** A redirection in the nat table overrules the mangle table's pick. */
  lemma WayByFates(f: Fate, natFate: Fate, marker: Option<nat>, redirector: Option<nat>, groups: seq<Group>, p: Packet)
    requires GoodGroups(groups) && p.mark == 0
    requires MangleFate(f, marker, groups, p) && NatFate(natFate, redirector, groups, f.p)
    requires marker.Some? && groups[marker.value].place.route.TProxy? ==> !p.socket
    ensures WayOf(f, natFate) ==
            if redirector.Some? && groups[redirector.value].place.route.TProxy? then
              WayOfGroup(groups[redirector.value])
            else if marker.Some? then WayOfGroup(groups[marker.value]) else Plain
  {
    assert marker.Some? ==> GoodGroup(groups[marker.value]);
  }

  lemma WayByPicks(mangle: Table, natted: Table, foreign: (seq<Rule>, seq<Rule>), groups: seq<Group>,
                   bypass: string, byOrder: bool, p: Packet)
    requires Premises(mangle, natted, foreign, groups, bypass, p) && (p.socket ==> p.protocol != "udp")
    ensures var marker, redirector := KernelPick(Lanes(groups, "mangle", p), byOrder),
                                      KernelPick(Lanes(groups, "nat", p), byOrder);
            && (marker.Some? ==> marker.value < |groups|) && (redirector.Some? ==> redirector.value < |groups|)
            && Goes(mangle, natted, Hooks(groups, foreign, byOrder, p), p) ==
               if redirector.Some? && groups[redirector.value].place.route.TProxy? then
                 WayOfGroup(groups[redirector.value])
               else if marker.Some? then WayOfGroup(groups[marker.value]) else Plain
  {
    var hooks := Hooks(groups, foreign, byOrder, p);
    BothTables(mangle, natted, foreign, groups, bypass, byOrder, p);
    PickTakes(groups, "mangle", byOrder, p);
    var f := Traverse(hooks.0, mangle, p);
    WayByFates(f, Traverse(hooks.1, natted, f.p), KernelPick(Lanes(groups, "mangle", p), byOrder),
               KernelPick(Lanes(groups, "nat", p), byOrder), groups, p);
  }

  /** A group that the page names and whose rules in a table take the packet is the table's pick. */
  lemma NamedIsPick(groups: seq<Group>, t: string, byOrder: bool, p: Packet)
    ensures var named := KernelPick(ListedBy(groups, p), byOrder);
            && (named == None ==> KernelPick(Lanes(groups, t, p), byOrder) == None)
            && forall i | named == Some(i) && i < |groups| && Lanes(groups, t, p)[i].holds ::
                 KernelPick(Lanes(groups, t, p), byOrder) == Some(i)
  {
    PickAmongFewer(ListedBy(groups, p), Lanes(groups, t, p), byOrder);
  }

  lemma PickTakes(groups: seq<Group>, t: string, byOrder: bool, p: Packet)
    ensures var pick := KernelPick(Lanes(groups, t, p), byOrder);
            pick.Some? ==> pick.value < |groups| && Lanes(groups, t, p)[pick.value].holds
  {
  }

  /** An address that no group lists: the packet goes its own way. */
  lemma UnlistedGoesPlain(mangle: Table, natted: Table, foreign: (seq<Rule>, seq<Rule>), groups: seq<Group>,
                          bypass: string, byOrder: bool, p: Packet)
    requires Premises(mangle, natted, foreign, groups, bypass, p) && (p.socket ==> p.protocol != "udp")
    requires forall i | 0 <= i < |groups| :: groups[i].place.main !in p.dest
    ensures Goes(mangle, natted, Hooks(groups, foreign, byOrder, p), p) == Plain
  {
    WayByPicks(mangle, natted, foreign, groups, bypass, byOrder, p);
    PickTakes(groups, "mangle", byOrder, p);
    PickTakes(groups, "nat", byOrder, p);
  }

  /** New UDP traffic goes where the group that the page names sends it. */
  lemma UdpGoesWhereNamed(mangle: Table, natted: Table, foreign: (seq<Rule>, seq<Rule>), groups: seq<Group>,
                          bypass: string, byOrder: bool, p: Packet, i: nat)
    requires Premises(mangle, natted, foreign, groups, bypass, p)
    requires p.protocol == "udp" && !p.socket && KernelPick(ListedBy(groups, p), byOrder) == Some(i) && i < |groups|
    ensures Goes(mangle, natted, Hooks(groups, foreign, byOrder, p), p) == WayOfGroup(groups[i])
  {
    WayByPicks(mangle, natted, foreign, groups, bypass, byOrder, p);
    assert ListedBy(groups, p)[i].holds;
    assert Lanes(groups, "mangle", p)[i].holds;
    NamedIsPick(groups, "mangle", byOrder, p);
    PickTakes(groups, "nat", byOrder, p);
  }

  /** New TCP traffic does so exactly unless the page names an interface group and, among the
      direct and the proxied groups that list the address, a proxied one comes first: the nat
      table redirects what the mangle table has marked. */
  lemma TcpGoesWhereNamedIff(mangle: Table, natted: Table, foreign: (seq<Rule>, seq<Rule>), groups: seq<Group>,
                             bypass: string, byOrder: bool, p: Packet, i: nat)
    requires Premises(mangle, natted, foreign, groups, bypass, p)
    requires p.protocol == "tcp" && KernelPick(ListedBy(groups, p), byOrder) == Some(i) && i < |groups|
    ensures var first := KernelPick(Lanes(groups, "nat", p), byOrder);
            Goes(mangle, natted, Hooks(groups, foreign, byOrder, p), p) == WayOfGroup(groups[i])
            <==> !(KindOf(groups[i].place.route).Interface?
                   && first.Some? && first.value < |groups| && groups[first.value].place.route.TProxy?)
  {
    WayByPicks(mangle, natted, foreign, groups, bypass, byOrder, p);
    assert ListedBy(groups, p)[i].holds;
    assert !groups[i].place.route.TProxy? ==> Lanes(groups, "mangle", p)[i].holds;
    assert !KindOf(groups[i].place.route).Interface? ==> Lanes(groups, "nat", p)[i].holds;
    NamedIsPick(groups, "mangle", byOrder, p);
    NamedIsPick(groups, "nat", byOrder, p);
    PickTakes(groups, "nat", byOrder, p);
    assert GoodGroup(groups[i]);
  }

  /** An interface group comes first, a proxied group lists the address too: the page names
      the first, TCP goes to the proxy. */
  lemma RedirectionOverrulesMark()
    returns (groups: seq<Group>, mangle: Table, natted: Table, p: Packet)
    ensures Premises(mangle, natted, ([], []), groups, "bypass", p) && p.protocol == "tcp" && |groups| == 2
    ensures KernelPick(ListedBy(groups, p), false) == Some(0) && WayOfGroup(groups[0]) == Marked(1)
    ensures Goes(mangle, natted, Hooks(groups, ([], []), false, p), p) == ToProxy(8080)
  {
    var link := Place("A", Interface("nwg0"), "a4", "as4", {"a4", "as4"});
    var proxy := Place("B", TProxy(8080, 0), "b4", "bs4", {"b4", "bs4"});
    groups := [Group(link, 1), Group(proxy, 2)];
    mangle := map["A" := [Guard("bypass")] + RulesIn(link, "mangle", 1),
                  "B" := [Guard("bypass")] + RulesIn(proxy, "mangle", 2),
                  Preamble.PREAMBLE := PreambleRules("bypass")];
    natted := map["B" := [Guard("bypass")] + RulesIn(proxy, "nat", 2)];
    p := Packet({}, {"a4", "b4"}, "tcp", "br0", "", false, true, true, 0, 0, []);
    ExampleIsGood(groups);
    ExampleStands(groups, mangle, natted, p);
    ExamplePicks(groups, p);
    WayByPicks(mangle, natted, ([], []), groups, "bypass", false, p);
  }

  lemma ExamplePicks(groups: seq<Group>, p: Packet)
    requires |groups| == 2 && groups[0].place.route.Interface? && groups[1].place.route.TProxy? && p.protocol == "tcp"
    requires groups[0].place.main in p.dest && groups[1].place.main in p.dest
    ensures KernelPick(ListedBy(groups, p), false) == Some(0) && KernelPick(Lanes(groups, "nat", p), false) == Some(1)
  {
    assert ListedBy(groups, p)[0].holds && !ListedBy(groups, p)[0].kind.Direct? && !ListedBy(groups, p)[1].kind.Direct?;
    assert Lanes(groups, "nat", p)[1].holds && !Lanes(groups, "nat", p)[0].holds;
    assert !Lanes(groups, "nat", p)[1].kind.Direct?;
  }

  lemma ExampleStands(groups: seq<Group>, mangle: Table, natted: Table, p: Packet)
    requires GoodGroups(groups) && |groups| == 2 && groups[0].place.route.Interface?
    requires groups[0].place.chain == "A" && groups[1].place.chain == "B"
    requires mangle == map["A" := [Guard("bypass")] + RulesIn(groups[0].place, "mangle", groups[0].mark),
                           "B" := [Guard("bypass")] + RulesIn(groups[1].place, "mangle", groups[1].mark),
                           Preamble.PREAMBLE := PreambleRules("bypass")]
    requires natted == map["B" := [Guard("bypass")] + RulesIn(groups[1].place, "nat", groups[1].mark)]
    requires p.input == "br0" && p.source == {} && p.mark == p.connmark == 0
    ensures Premises(mangle, natted, ([], []), groups, "bypass", p)
  {
    assert "A" != "B" && "A" != Preamble.PREAMBLE && "B" != Preamble.PREAMBLE && "br0" != "lo" by {
      assert "A"[0] != "B"[0] && |"A"| != |Preamble.PREAMBLE| && |"br0"| != |"lo"|;
    }
  }

  lemma ExampleIsGood(groups: seq<Group>)
    requires groups == [Group(Place("A", Interface("nwg0"), "a4", "as4", {"a4", "as4"}), 1),
                        Group(Place("B", TProxy(8080, 0), "b4", "bs4", {"b4", "bs4"}), 2)]
    ensures GoodGroups(groups)
  {
    assert IsToken("A") && IsToken("nwg0") && IsToken("a4") && IsToken("as4");
    assert IsToken("B") && IsToken("b4") && IsToken("bs4");
    assert "A"[0] != "B"[0];
  }

  // ---- Clients that are exempt ----

  lemma {:induction false} NobodyNotices(hook: seq<Rule>, table: Table, p: Packet)
    requires forall i | 0 <= i < |hook| :: Pass(hook[i], table, p) == Through(p)
    ensures Traverse(hook, table, p) == Through(p)
  {
    if hook != [] {
      NobodyNotices(hook[1..], table, p);
    }
  }

  /** Every chain of ours lets an exempt client's packet go back at once. */
  lemma JumpLeavesExempt(chain: string, rules: seq<Rule>, table: Table, bypass: string, p: Packet)
    requires IsName(bypass) && bypass in p.source && chain in table && table[chain] == [Guard(bypass)] + rules
    ensures Pass(Preamble.JumpTo(chain), table, p) == Through(p)
  {
    GuardLetsOthersIn(bypass, rules, p);
    if p.input != "lo" {
      JumpPasses(chain, table, p);
    } else {
      WalkOn(Preamble.JumpTo(chain), [], p);
      assert [Preamble.JumpTo(chain)] + [] == [Preamble.JumpTo(chain)];
    }
  }

  lemma ExemptInMangle(mangle: Table, natted: Table, foreign: seq<Rule>, groups: seq<Group>, bypass: string,
                       byOrder: bool, p: Packet)
    requires Standing(mangle, natted, groups, bypass) && Indifferent(foreign, mangle, groups, p)
    requires bypass in p.source
    ensures Traverse(PreroutingOf("mangle", ListedBy(groups, p), foreign, byOrder), mangle, p) == Through(p)
  {
    var hook := PreroutingOf("mangle", ListedBy(groups, p), foreign, byOrder);
    forall i | 0 <= i < |hook|
      ensures Pass(hook[i], mangle, p) == Through(p)
    {
      if hook[i] in foreign {
        assert Indifferent(foreign, mangle, groups, p);
      } else {
        ExemptAtJump(mangle, natted, hook[i], foreign, groups, bypass, byOrder, p);
      }
    }
    NobodyNotices(hook, mangle, p);
  }

  lemma ExemptAtJump(mangle: Table, natted: Table, r: Rule, foreign: seq<Rule>, groups: seq<Group>, bypass: string,
                     byOrder: bool, p: Packet)
    requires Standing(mangle, natted, groups, bypass) && bypass in p.source
    requires r in FrontJumps(ListedBy(groups, p), byOrder) || r in BackJumps(ListedBy(groups, p), byOrder)
    ensures Pass(r, mangle, p) == Through(p)
  {
    var order := ListedBy(groups, p);
    JumpsAreOurs(order, byOrder);
    if r == Preamble.JumpTo(Preamble.PREAMBLE) {
      PreambleOnlyForInterfaces(r, order, foreign, groups, byOrder, p);
      assert PreambleRules(bypass) == [Guard(bypass)] + [RESTORE_MARK, MARKED_PASS];
      JumpLeavesExempt(Preamble.PREAMBLE, [RESTORE_MARK, MARKED_PASS], mangle, bypass, p);
    } else {
      var j :| 0 <= j < |order| && r == Preamble.JumpTo(order[j].chain);
      JumpLeavesExempt(groups[j].place.chain, RulesIn(groups[j].place, "mangle", groups[j].mark), mangle, bypass, p);
    }
  }

  lemma ExemptInNat(natted: Table, foreign: seq<Rule>, groups: seq<Group>, bypass: string, byOrder: bool, p: Packet)
    requires GoodGroups(groups) && IsName(bypass) && InPlaceInNat(natted, groups, bypass)
    requires Indifferent(foreign, natted, groups, p) && bypass in p.source
    ensures Traverse(PreroutingOf("nat", ListedBy(groups, p), foreign, byOrder), natted, p) == Through(p)
  {
    var hook := PreroutingOf("nat", ListedBy(groups, p), foreign, byOrder);
    NatRulesLeadOn(natted, foreign, groups, byOrder, p);
    forall i | 0 <= i < |hook|
      ensures Pass(hook[i], natted, p) == Through(p)
    {
      assert LeadsOnInNat(hook[i], natted, groups, p);
      if j :| 0 <= j < |groups| && (groups[j].place.route.Direct? || groups[j].place.route.TProxy?)
              && hook[i] == Preamble.JumpTo(groups[j].place.chain) {
        JumpLeavesExempt(groups[j].place.chain, RulesIn(groups[j].place, "nat", groups[j].mark), natted, bypass, p);
      }
    }
    NobodyNotices(hook, natted, p);
  }

  /** A client of the bypass set is in no group's hands. */
  lemma ExemptGoesPlain(mangle: Table, natted: Table, foreign: (seq<Rule>, seq<Rule>), groups: seq<Group>,
                        bypass: string, byOrder: bool, p: Packet)
    requires Standing(mangle, natted, groups, bypass) && AllIndifferent(mangle, natted, foreign, groups, p)
    requires bypass in p.source && p.mark == 0
    ensures Goes(mangle, natted, Hooks(groups, foreign, byOrder, p), p) == Plain
  {
    ExemptInMangle(mangle, natted, foreign.0, groups, bypass, byOrder, p);
    assert Remarked(p, p);
    ExemptInNat(natted, foreign.1, groups, bypass, byOrder, p);
  }

  // ---- Connections that were given a mark ----

  /** Whoever comes before the preamble may take the packet; otherwise it keeps the mark of
      its connection, and no group behind the preamble is asked. */
  lemma PreambleKeepsMark(before: seq<Rule>, after: seq<Rule>, winner: Option<nat>, mangle: Table, groups: seq<Group>,
                          bypass: string, p: Packet)
    requires IsName(bypass) && PreambleInPlace(mangle, bypass) && Eligible(p, bypass) && p.original && p.connmark != 0
    requires MangleFate(Traverse(before, mangle, p), winner, groups, p)
    ensures var f := Traverse(before + ([Preamble.JumpTo(Preamble.PREAMBLE)] + after), mangle, p);
            if winner.Some? then MangleFate(f, winner, groups, p)
            else f.Ended? && f.verdict == Accepted && Same(f.p, p.(mark := p.connmark))
  {
    TraverseBoth(before, [Preamble.JumpTo(Preamble.PREAMBLE)] + after, mangle, p);
    if winner == None {
      PreambleDecides(after, mangle, bypass, Traverse(before, mangle, p).p);
    }
  }

  lemma PreambleDecides(after: seq<Rule>, mangle: Table, bypass: string, p: Packet)
    requires IsName(bypass) && PreambleInPlace(mangle, bypass) && Eligible(p, bypass) && p.original && p.connmark != 0
    ensures Traverse([Preamble.JumpTo(Preamble.PREAMBLE)] + after, mangle, p)
            == Ended(p.(mark := p.connmark), Accepted)
  {
    JumpPasses(Preamble.PREAMBLE, mangle, p);
    PreambleChain(bypass, p);
    assert ([Preamble.JumpTo(Preamble.PREAMBLE)] + after)[0] == Preamble.JumpTo(Preamble.PREAMBLE);
  }

  /** The preamble stands right before the first interface group's jump. */
  lemma {:induction false} BackJumpsAtPreamble(lanes: seq<Lane>, k: nat, byOrder: bool) returns (after: seq<Rule>)
    requires k < |lanes| && lanes[k].kind.Interface? && !SomeInterface(lanes[..k])
    ensures BackJumps(lanes, byOrder)
            == BackJumps(lanes[..k], byOrder) + ([Preamble.JumpTo(Preamble.PREAMBLE)] + after)
  {
    var n := |lanes| - 1;
    if k == n {
      after := [Preamble.JumpTo(lanes[n].chain)];
    } else {
      assert lanes[..n][..k] == lanes[..k];
      after := BackJumpsAtPreamble(lanes[..n], k, byOrder);
      assert SomeInterface(lanes[..n]) by {
        assert lanes[..n][k].kind.Interface?;
      }
      after := after + if GoesFirst(lanes[n], byOrder) then [] else [Preamble.JumpTo(lanes[n].chain)];
    }
  }

  lemma BeforePreamble(order: seq<Lane>, k: nat, mangle: Table, foreign: seq<Rule>, groups: seq<Group>, bypass: string,
                       byOrder: bool, p: Packet)
    requires GoodGroups(groups) && order == ListedBy(groups, p) && k < |order| && !SomeInterface(order[..k])
    requires Indifferent(foreign, mangle, groups, p)
    ensures var before := FrontJumps(order, byOrder) + foreign + BackJumps(order[..k], byOrder);
            forall i | 0 <= i < |before| ::
              before[i] != Preamble.JumpTo(Preamble.PREAMBLE) && LeadsOn(before[i], mangle, groups, bypass, p)
  {
    var before := FrontJumps(order, byOrder) + foreign + BackJumps(order[..k], byOrder);
    JumpsAreOurs(order, byOrder);
    JumpsAreOurs(order[..k], byOrder);
    forall i | 0 <= i < |before|
      ensures before[i] != Preamble.JumpTo(Preamble.PREAMBLE) && LeadsOn(before[i], mangle, groups, bypass, p)
    {
      if before[i] in foreign {
        assert Indifferent(foreign, mangle, groups, p);
      } else {
        var j := JumpOf(before[i], order, k);
        Preamble.JumpsDiffer(Preamble.PREAMBLE, order[j].chain);
        assert GoodPlace(groups[j].place) && before[i] == Preamble.JumpTo(groups[j].place.chain);
      }
    }
  }

  lemma JumpOf(r: Rule, order: seq<Lane>, k: nat) returns (j: nat)
    requires k <= |order| && (IsJumpOf(r, order) || IsJumpOf(r, order[..k]))
    ensures j < |order| && r == Preamble.JumpTo(order[j].chain)
  {
    assert forall i | 0 <= i < k :: order[..k][i] == order[i];
    j :| 0 <= j < |order| && r == Preamble.JumpTo(order[j].chain);
  }

  /** While interface groups are on, a packet of a marked connection keeps the mark unless a
      direct group in front, or a group before the first interface group, takes it. */
  lemma MarkedConnectionStays(mangle: Table, natted: Table, foreign: seq<Rule>, groups: seq<Group>, bypass: string,
                              byOrder: bool, p: Packet, k: nat)
    requires Standing(mangle, natted, groups, bypass) && Indifferent(foreign, mangle, groups, p)
    requires Eligible(p, bypass) && p.original && p.connmark != 0
    requires k < |groups| && KindOf(groups[k].place.route).Interface? && !SomeInterface(ListedBy(groups, p)[..k])
    ensures var lanes := Lanes(groups, "mangle", p);
            var earlier := Or(LastInFront(lanes, |lanes|, byOrder), FirstAtBack(lanes, k, byOrder));
            var f := Traverse(PreroutingOf("mangle", ListedBy(groups, p), foreign, byOrder), mangle, p);
            if earlier.Some? then MangleFate(f, earlier, groups, p)
            else f.Ended? && f.verdict == Accepted && Same(f.p, p.(mark := p.connmark))
  {
    var order, lanes := ListedBy(groups, p), Lanes(groups, "mangle", p);
    var before := FrontJumps(order, byOrder) + foreign + BackJumps(order[..k], byOrder);
    var after := SplitAtPreamble(order, foreign, k, byOrder);
    BeforePreamble(order, k, mangle, foreign, groups, bypass, byOrder, p);
    MangleByWinner(before, mangle, groups, bypass, p);
    PreambleKeepsMark(before, after, Winner(before, lanes), mangle, groups, bypass, p);
    EarlierWinner(order, lanes, foreign, k, byOrder, mangle, groups, p);
  }

  lemma SplitAtPreamble(order: seq<Lane>, foreign: seq<Rule>, k: nat, byOrder: bool) returns (after: seq<Rule>)
    requires k < |order| && order[k].kind.Interface? && !SomeInterface(order[..k])
    ensures PreroutingOf("mangle", order, foreign, byOrder)
            == FrontJumps(order, byOrder) + foreign + BackJumps(order[..k], byOrder)
               + ([Preamble.JumpTo(Preamble.PREAMBLE)] + after)
  {
    after := BackJumpsAtPreamble(order, k, byOrder);
    var front, back := FrontJumps(order, byOrder) + foreign, BackJumps(order[..k], byOrder);
    assert front + (back + ([Preamble.JumpTo(Preamble.PREAMBLE)] + after))
        == front + back + ([Preamble.JumpTo(Preamble.PREAMBLE)] + after);
  }

  lemma {:induction false} EarlierWinner(order: seq<Lane>, lanes: seq<Lane>, foreign: seq<Rule>, k: nat, byOrder: bool,
                                         mangle: Table, groups: seq<Group>, p: Packet)
    requires GoodGroups(groups) && order == ListedBy(groups, p) && lanes == Lanes(groups, "mangle", p) && k <= |groups|
    requires Indifferent(foreign, mangle, groups, p)
    ensures Winner(FrontJumps(order, byOrder) + foreign + BackJumps(order[..k], byOrder), lanes)
            == Or(LastInFront(lanes, |lanes|, byOrder), FirstAtBack(lanes, k, byOrder))
  {
    LanesAreGood(groups, "mangle", p);
    IndifferentHaveNoJumps(foreign, mangle, groups, p, lanes);
    JumpsOfBoth(order, lanes, k, byOrder);
    assert lanes[..|lanes|] == lanes;
    WinnerInFront(lanes, |lanes|, byOrder);
    WinnerAtBack(lanes, k, byOrder);
    NobodyTakes(foreign, lanes);
    WinnerOfThree(FrontJumps(lanes, byOrder), foreign, BackJumps(lanes[..k], byOrder), lanes);
  }

  lemma JumpsOfBoth(order: seq<Lane>, lanes: seq<Lane>, k: nat, byOrder: bool)
    requires SameOrder(order, lanes) && k <= |order|
    ensures FrontJumps(order, byOrder) == FrontJumps(lanes, byOrder)
    ensures BackJumps(order[..k], byOrder) == BackJumps(lanes[..k], byOrder)
  {
    OrderMakesJumps(order, lanes, byOrder);
    OrderMakesJumps(order[..k], lanes[..k], byOrder);
  }

  lemma WinnerOfThree(a: seq<Rule>, b: seq<Rule>, c: seq<Rule>, lanes: seq<Lane>)
    ensures Winner(a + b + c, lanes) == Or(Or(Winner(a, lanes), Winner(b, lanes)), Winner(c, lanes))
  {
    WinnerAppend(a + b, c, lanes);
    WinnerAppend(a, b, lanes);
  }
}

/**
  What leaves through an interface group: whether it is forwarded, and whether its source
  is rewritten. All that is asked of the kernel is that it carries the groups' chains and
  the jumps to them, as a successful bring-up leaves it.
 */
module Forwarding {
  import opened Text
  import opened Netfilter
  import opened Reconciler
  import opened GroupRules
  import opened GroupRegistry
  import opened Packets
  import opened Traversal
  import opened Delivery

  /** The rules of the chain that are no jumps to interface groups let the packet through. */
  ghost predicate OnlyLinksTake(k: Kernel, t: string, hook: string, groups: seq<Group>, p: Packet)
  {
    var rules := Rules(ChainAt(k, t, hook));
    forall i | 0 <= i < |rules| :: IsLinkJump(rules[i], groups) || Pass(rules[i], TableOf(k, t), p) == Through(p)
  }

  ghost predicate IsLinkJump(r: Rule, groups: seq<Group>)
  {
    exists j | 0 <= j < |groups| && IsLink(groups[j]) :: r == ["-j", groups[j].place.chain]
  }

  lemma PlainJumpPasses(chain: string, table: Table, p: Packet)
    requires chain in table
    ensures Pass(["-j", chain], table, p) == Walk(table[chain], p)
  {
    assert ["-j", chain][1..] == [chain];
  }

  /** Some rule of a chain takes the packet with this verdict, and no rule does otherwise. */
  lemma {:induction false} TakenByOne(rules: seq<Rule>, table: Table, p: Packet, verdict: Verdict)
    requires forall i | 0 <= i < |rules| :: Pass(rules[i], table, p) in {Through(p), Ended(p, verdict)}
    ensures Traverse(rules, table, p) ==
            if exists i | 0 <= i < |rules| :: Pass(rules[i], table, p) == Ended(p, verdict)
            then Ended(p, verdict) else Through(p)
  {
    if rules != [] && Pass(rules[0], table, p) == Through(p) {
      TakenByOne(rules[1..], table, p, verdict);
      assert forall i | 0 <= i < |rules| - 1 :: rules[1..][i] == rules[i + 1];
    }
  }

  /** The kernel holds the chains of all groups and the jumps to them. */
  ghost predicate AllCarried(k: Kernel, groups: seq<Group>, bypass: string)
  {
    && GoodGroups(groups) && IsName(bypass)
    && forall j | 0 <= j < |groups| :: CarriesWith(k, groups[j].place, bypass, groups[j].mark)
  }

  lemma LinkJoints(k: Kernel, groups: seq<Group>, bypass: string, j: nat)
    requires AllCarried(k, groups, bypass) && j < |groups| && IsLink(groups[j])
    ensures var g := groups[j];
            && ChainAt(k, "filter", g.place.chain) == Some([Guard(bypass)] + RulesIn(g.place, "filter", g.mark))
            && ["-j", g.place.chain] in Rules(ChainAt(k, "filter", "FORWARD"))
            && ChainAt(k, "nat", g.place.chain) == Some([Guard(bypass)] + RulesIn(g.place, "nat", g.mark))
            && ["-j", g.place.chain] in Rules(ChainAt(k, "nat", "POSTROUTING"))
  {
    assert CarriesWith(k, groups[j].place, bypass, groups[j].mark);
    assert Joints(groups[j].place)[0] == Joint("filter", "FORWARD", ["-j", groups[j].place.chain]);
    assert Joints(groups[j].place)[2] == Joint("nat", "POSTROUTING", ["-j", groups[j].place.chain]);
  }

  /** The group lets the packet out through its interface. */
  predicate LetsOut(g: Group, bypass: string, p: Packet)
  {
    bypass !in p.source && g.place.main in p.dest && g.place.route.Interface? && g.place.route.iface == p.output
  }

  lemma JumpForwards(k: Kernel, groups: seq<Group>, bypass: string, p: Packet, j: nat)
    requires AllCarried(k, groups, bypass) && j < |groups| && IsLink(groups[j])
    ensures Pass(["-j", groups[j].place.chain], TableOf(k, "filter"), p)
            == if LetsOut(groups[j], bypass, p) then Ended(p, Accepted) else Through(p)
    ensures Pass(["-j", groups[j].place.chain], TableOf(k, "nat"), p)
            == if bypass !in p.source && groups[j].place.main in p.dest then Ended(p, Masqueraded) else Through(p)
  {
    LinkJoints(k, groups, bypass, j);
    PlainJumpPasses(groups[j].place.chain, TableOf(k, "filter"), p);
    PlainJumpPasses(groups[j].place.chain, TableOf(k, "nat"), p);
    LinkFilterChain(groups[j].place, bypass, groups[j].mark, p);
    LinkNatChain(groups[j].place, bypass, groups[j].mark, p);
  }

  /** Once the kernel carries the groups, a forwarded packet is accepted exactly if it leaves
      through the interface of a group that lists its destination. */
  lemma ForwardedIff(k: Kernel, groups: seq<Group>, bypass: string, p: Packet)
    requires AllCarried(k, groups, bypass) && OnlyLinksTake(k, "filter", "FORWARD", groups, p)
    ensures Traverse(Rules(ChainAt(k, "filter", "FORWARD")), TableOf(k, "filter"), p)
            == if exists j | 0 <= j < |groups| :: LetsOut(groups[j], bypass, p)
               then Ended(p, Accepted) else Through(p)
  {
    var rules := Rules(ChainAt(k, "filter", "FORWARD"));
    forall i | 0 <= i < |rules|
      ensures Pass(rules[i], TableOf(k, "filter"), p) in {Through(p), Ended(p, Accepted)}
      ensures Pass(rules[i], TableOf(k, "filter"), p) == Ended(p, Accepted) ==>
                exists j | 0 <= j < |groups| :: LetsOut(groups[j], bypass, p)
    {
      if IsLinkJump(rules[i], groups) {
        var j :| 0 <= j < |groups| && IsLink(groups[j]) && rules[i] == ["-j", groups[j].place.chain];
        JumpForwards(k, groups, bypass, p, j);
      }
    }
    TakenByOne(rules, TableOf(k, "filter"), p, Accepted);
    if j :| 0 <= j < |groups| && LetsOut(groups[j], bypass, p) {
      JumpForwards(k, groups, bypass, p, j);
      LinkJoints(k, groups, bypass, j);
      var i :| 0 <= i < |rules| && rules[i] == ["-j", groups[j].place.chain];
    }
  }

  /** ... and what leaves for an address that such a group lists is masqueraded. */
  lemma MasqueradedIff(k: Kernel, groups: seq<Group>, bypass: string, p: Packet)
    requires AllCarried(k, groups, bypass) && OnlyLinksTake(k, "nat", "POSTROUTING", groups, p)
    ensures Traverse(Rules(ChainAt(k, "nat", "POSTROUTING")), TableOf(k, "nat"), p)
            == if bypass !in p.source
                  && exists j | 0 <= j < |groups| :: IsLink(groups[j]) && groups[j].place.main in p.dest
               then Ended(p, Masqueraded) else Through(p)
  {
    var rules := Rules(ChainAt(k, "nat", "POSTROUTING"));
    forall i | 0 <= i < |rules|
      ensures Pass(rules[i], TableOf(k, "nat"), p) in {Through(p), Ended(p, Masqueraded)}
      ensures Pass(rules[i], TableOf(k, "nat"), p) == Ended(p, Masqueraded) ==>
                bypass !in p.source
                && exists j | 0 <= j < |groups| :: IsLink(groups[j]) && groups[j].place.main in p.dest
    {
      if IsLinkJump(rules[i], groups) {
        var j :| 0 <= j < |groups| && IsLink(groups[j]) && rules[i] == ["-j", groups[j].place.chain];
        JumpForwards(k, groups, bypass, p, j);
      }
    }
    TakenByOne(rules, TableOf(k, "nat"), p, Masqueraded);
    if j :| 0 <= j < |groups| && IsLink(groups[j]) && groups[j].place.main in p.dest {
      JumpForwards(k, groups, bypass, p, j);
      LinkJoints(k, groups, bypass, j);
      var i :| 0 <= i < |rules| && rules[i] == ["-j", groups[j].place.chain];
    }
  }
}

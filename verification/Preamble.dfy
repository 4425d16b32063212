/**
  The preamble shared by all interface groups: installed when the first of them comes up,
  removed when the last goes away, and ahead of every jump to an interface group's chain.
  Enabling can fail at every step; what fails half-way is undone by disabling.
 */
module Preamble {
  import opened Netfilter
  import opened Chains

  const PREAMBLE := "PREAMBLE"

  /** What a group routes through. Only an interface needs the preamble. */
  datatype Kind = Direct | Interface | TProxy

  /** The rule that sends traffic from PREROUTING into a chain, except from the loopback. */
  function JumpTo(chain: string): Rule { ["!", "-i", "lo", "-j", chain] }

  predicate IsJumpTo(r: PatchRule, chain: string) { !r.option.PatchDelete? && r.rule == JumpTo(chain) }

  /** The preamble's jump is there, and no jump to a chain of `held` comes before it. */
  ghost predicate Led(ordered: seq<PatchRule>, held: set<string>)
  {
    exists k | 0 <= k < |ordered| ::
      && ordered[k] == PatchRule(PatchAppend, 0, JumpTo(PREAMBLE))
      && forall i, n | 0 <= i < k && n in held :: !IsJumpTo(ordered[i], n)
  }

  /** All jumps lead to the preamble or to one of the chains. */
  ghost predicate JumpsWithin(ordered: seq<PatchRule>, chains: set<string>)
  {
    forall i | 0 <= i < |ordered| && !ordered[i].option.PatchDelete? ::
      ordered[i].rule == JumpTo(PREAMBLE) || exists n :: n in chains && ordered[i].rule == JumpTo(n)
  }

  lemma JumpsDiffer(a: string, b: string)
    ensures JumpTo(a) == JumpTo(b) ==> a == b
  {
    assert JumpTo(a)[4] == a && JumpTo(b)[4] == b;
  }

  lemma WithoutAt(ordered: seq<PatchRule>, r: Rule)
    ensures forall i | 0 <= i < |Without(ordered, r)| ::
              Without(ordered, r)[i].rule != r && exists j :: 0 <= j < |ordered| && ordered[j] == Without(ordered, r)[i]
  {
    WithoutMembers(ordered, r);
    forall i | 0 <= i < |Without(ordered, r)|
      ensures Without(ordered, r)[i].rule != r && exists j :: 0 <= j < |ordered| && ordered[j] == Without(ordered, r)[i]
    {
      assert Without(ordered, r)[i] in Without(ordered, r);
      assert Without(ordered, r)[i] in ordered;
    }
  }

  /** Moving any other rule to the end keeps the preamble in front. */
  lemma LedKept(ordered: seq<PatchRule>, held: set<string>, chain: string, option: PatchOption)
    requires Led(ordered, held) && chain != PREAMBLE
    ensures Led(WithJump(ordered, chain, option), held)
  {
    JumpsDiffer(chain, PREAMBLE);
    var k :| 0 <= k < |ordered|
             && ordered[k] == PatchRule(PatchAppend, 0, JumpTo(PREAMBLE))
             && forall i, n | 0 <= i < k && n in held :: !IsJumpTo(ordered[i], n);
    var front := ordered[..k];
    WithoutUpTo(ordered, k, JumpTo(chain));
    NoneJumpsWithout(front, held, JumpTo(chain));
    var after, at := WithJump(ordered, chain, option), |Without(front, JumpTo(chain))|;
    assert after[at] == ordered[k];
    assert forall i | 0 <= i < at :: after[i] == Without(front, JumpTo(chain))[i];
  }

  /** An entry for another rule keeps its place behind what is left of those before it. */
  lemma WithoutUpTo(ordered: seq<PatchRule>, k: nat, r: Rule)
    requires k < |ordered| && ordered[k].rule != r
    ensures Without(ordered[..k], r) + [ordered[k]] <= Without(ordered, r)
  {
    assert ordered == ordered[..k] + ordered[k..];
    WithoutAppend(ordered[..k], ordered[k..], r);
    assert ordered[k..][0] == ordered[k];
  }

  lemma NoneJumpsWithout(front: seq<PatchRule>, held: set<string>, r: Rule)
    requires forall i, n | 0 <= i < |front| && n in held :: !IsJumpTo(front[i], n)
    ensures forall i, n | 0 <= i < |Without(front, r)| && n in held :: !IsJumpTo(Without(front, r)[i], n)
  {
    WithoutAt(front, r);
  }

  /** A preamble installed while no chain of `held` is jumped to leads. */
  lemma LedFresh(ordered: seq<PatchRule>, chains: set<string>, held: set<string>)
    requires JumpsWithin(ordered, chains) && chains !! held && PREAMBLE !in held
    ensures Led(WithJump(ordered, PREAMBLE, PatchAppend), held)
  {
    var kept := Without(ordered, JumpTo(PREAMBLE));
    var after := kept + [PatchRule(PatchAppend, 0, JumpTo(PREAMBLE))];
    WithoutAt(ordered, JumpTo(PREAMBLE));
    assert after[|kept|] == PatchRule(PatchAppend, 0, JumpTo(PREAMBLE));
    forall i, n | 0 <= i < |kept| && !kept[i].option.PatchDelete? && n in held
      ensures kept[i].rule != JumpTo(n)
    {
      var j :| 0 <= j < |ordered| && ordered[j] == kept[i];
      var m :| m in chains && ordered[j].rule == JumpTo(m);
      JumpsDiffer(m, n);
      assert m != n;
    }
  }

  /** No jump to the chain is wanted. */
  ghost predicate Unlinked(ordered: seq<PatchRule>, chain: string)
  {
    forall i | 0 <= i < |ordered| :: !IsJumpTo(ordered[i], chain)
  }

  /** The rules after a jump is registered anew: in front, at the end, or to be taken out. */
  function WithJump(ordered: seq<PatchRule>, chain: string, option: PatchOption): seq<PatchRule>
  {
    Without(ordered, JumpTo(chain)) + [PatchRule(option, if option.PatchInsert? then 1 else 0, JumpTo(chain))]
  }

  lemma DeletedIsUnlinked(ordered: seq<PatchRule>, chain: string)
    ensures Unlinked(WithJump(ordered, chain, PatchDelete), chain)
  {
    WithoutAt(ordered, JumpTo(chain));
  }

  lemma JumpsStayWithin(ordered: seq<PatchRule>, chains: set<string>, chain: string, option: PatchOption)
    requires JumpsWithin(ordered, chains)
    ensures JumpsWithin(WithJump(ordered, chain, option), if chain == PREAMBLE then chains else chains + {chain})
    ensures option.PatchDelete? ==> JumpsWithin(WithJump(ordered, chain, option), chains - {chain})
  {
    WithoutAt(ordered, JumpTo(chain));
    var kept := Without(ordered, JumpTo(chain));
    var more := if chain == PREAMBLE then chains else chains + {chain};
    forall i | 0 <= i < |kept| && !kept[i].option.PatchDelete? && kept[i].rule != JumpTo(PREAMBLE)
      ensures exists n :: n in more && n in chains - {chain} && kept[i].rule == JumpTo(n)
    {
      var j :| 0 <= j < |ordered| && ordered[j] == kept[i];
      var n :| n in chains && ordered[j].rule == JumpTo(n);
      assert n in more;
    }
  }

  /** Nobody jumps to a chain that is not among `chains`. */
  lemma LedMore(ordered: seq<PatchRule>, chains: set<string>, held: set<string>, n: string)
    requires Led(ordered, held) && JumpsWithin(ordered, chains) && n !in chains && n != PREAMBLE
    ensures Led(ordered, held + {n})
  {
    forall i | 0 <= i < |ordered| && !ordered[i].option.PatchDelete?
      ensures ordered[i].rule != JumpTo(n)
    {
      JumpsDiffer(PREAMBLE, n);
      if ordered[i].rule != JumpTo(PREAMBLE) {
        var m :| m in chains && ordered[i].rule == JumpTo(m);
        JumpsDiffer(m, n);
      }
    }
  }

  lemma JumpsWithinFewer(ordered: seq<PatchRule>, chains: set<string>, more: set<string>)
    requires JumpsWithin(ordered, chains) && chains <= more
    ensures JumpsWithin(ordered, more)
  {
  }

  // ---- The helper and the links ----

  class Helper {
    /** PREROUTING of the mangle table, for each address family in use. */
    const chains: seq<ChainPatch>
    /** Steps can fail for reasons outside the program. */
    const mayFail: bool
    var preambleRefs: nat
    var directPriorityByOrder: bool
    /** The link of each chain name, the names with a jump, and the names holding the preamble. */
    ghost var links: map<string, IPSetToLink>
    ghost var jumped: set<string>
    ghost var held: set<string>

    ghost predicate ChainsFine()
      reads this, chains
    {
      && (forall i, j | 0 <= i < j < |chains| :: chains[i] != chains[j])
      && (forall i | 0 <= i < |chains| :: chains[i].Valid() && JumpsWithin(chains[i].orderedRules, jumped))
    }

    /** In every family the preamble precedes the jumps to the chains of `held`. */
    ghost predicate Leads(held: set<string>)
      reads this, chains
    {
      forall i | 0 <= i < |chains| :: Led(chains[i].orderedRules, held)
    }

    /** A link that has a jump is enabled, and holds the preamble if it is for an interface. */
    ghost predicate LinksFine()
      reads this, links.Values
    {
      && jumped <= links.Keys && held <= links.Keys && PREAMBLE !in links
      && forall n | n in links ::
           && links[n].chainName == n && links[n].nh == this
           && (links[n].preambleHeld <==> n in held)
           && (links[n].preambleHeld ==> links[n].enabled && links[n].kind.Interface?)
           && (n in jumped ==> links[n].enabled && (links[n].kind.Interface? ==> links[n].preambleHeld))
    }

    /** The references count the links that hold the preamble; while there are any, the
        preamble leads. */
    ghost predicate Valid()
      reads this, links.Values, chains
    {
      ChainsFine() && LinksFine() && preambleRefs == |held| && (preambleRefs > 0 ==> Leads(held))
    }

    constructor (chains: seq<ChainPatch>, mayFail: bool)
      requires forall i, j | 0 <= i < j < |chains| :: chains[i] != chains[j]
      requires forall i | 0 <= i < |chains| :: chains[i].orderedRules == []
      ensures Valid() && links == map[] && preambleRefs == 0 && this.chains == chains && this.mayFail == mayFail
    {
      this.chains, this.mayFail, preambleRefs, directPriorityByOrder := chains, mayFail, 0, false;
      links, jumped, held := map[], {}, {};
    }

    /** A link for a group. The chain name is free, or its last link is disabled. */
    method NewLink(chainName: string, kind: Kind) returns (link: IPSetToLink)
      requires Valid() && chainName != PREAMBLE && (chainName in links ==> !links[chainName].enabled)
      modifies this`links
      ensures Valid() && fresh(link) && links == old(links)[chainName := link]
      ensures link.nh == this && link.chainName == chainName && link.kind == kind && !link.enabled
    {
      link := new IPSetToLink(this, chainName, kind);
      assert chainName !in held && chainName !in jumped;
      links := links[chainName := link];
    }

    /** Whether a step succeeds. */
    method Succeeds() returns (ok: bool)
      ensures !mayFail ==> ok
    {
      ok := *;
      ok := ok || !mayFail;
    }

    method InstallInterfacePreamble(i: nat, ghost n: string) returns (ok: bool)
      requires i < |chains| && ChainsFine() && n !in jumped && n != PREAMBLE
      modifies chains[i]
      ensures ChainsFine() && (ok ==> Led(chains[i].orderedRules, {n})) && (!mayFail ==> ok)
      ensures ok ==> chains[i].orderedRules == WithJump(old(chains[i].orderedRules), PREAMBLE, PatchAppend)
    {
      ghost var before := chains[i].orderedRules;
      ok := Succeeds();
      if !ok {
        return;
      }
      chains[i].AppendRule(JumpTo(PREAMBLE));
      JumpsStayWithin(before, jumped, PREAMBLE, PatchAppend);
      LedFresh(before, jumped, {n});
      ok := Succeeds();
    }

    /** Both families are tried even when the first fails. */
    method InstallAll(ghost n: string) returns (ok: bool)
      requires ChainsFine() && n !in jumped && n != PREAMBLE
      modifies chains
      ensures ChainsFine() && (ok ==> Leads({n})) && (!mayFail ==> ok)
      ensures ok ==> forall i | 0 <= i < |chains| ::
                chains[i].orderedRules == WithJump(old(chains[i].orderedRules), PREAMBLE, PatchAppend)
    {
      ok := true;
      for i := 0 to |chains|
        invariant ChainsFine() && (!mayFail ==> ok)
        invariant ok ==> forall j | 0 <= j < i :: Led(chains[j].orderedRules, {n})
        invariant forall j | i <= j < |chains| :: chains[j].orderedRules == old(chains[j].orderedRules)
        invariant ok ==> forall j | 0 <= j < i ::
                    chains[j].orderedRules == WithJump(old(chains[j].orderedRules), PREAMBLE, PatchAppend)
      {
        var installed := InstallInterfacePreamble(i, n);
        ok := ok && installed;
      }
    }

    /** Takes a reference for `n`; a failure takes none. */
    method AcquireInterfacePreamble(ghost n: string) returns (ok: bool)
      requires ChainsFine() && n !in jumped && n != PREAMBLE
      requires preambleRefs == 0 ==> held == {}
      requires preambleRefs > 0 ==> Leads(held)
      modifies this`preambleRefs, chains
      ensures ChainsFine() && (!mayFail ==> ok)
      ensures preambleRefs == old(preambleRefs) + if ok then 1 else 0
      ensures preambleRefs > 0 ==> Leads(if ok then held + {n} else held)
      ensures ok ==> forall i | 0 <= i < |chains| ::
                chains[i].orderedRules == if old(preambleRefs) > 0 then old(chains[i].orderedRules)
                                          else WithJump(old(chains[i].orderedRules), PREAMBLE, PatchAppend)
    {
      ok := true;
      if preambleRefs == 0 {
        ok := InstallAll(n);
        if !ok {
          return;
        }
        assert held + {n} == {n};
      } else {
        forall i | 0 <= i < |chains|
          ensures Led(chains[i].orderedRules, held + {n})
        {
          LedMore(chains[i].orderedRules, jumped, held, n);
        }
      }
      preambleRefs := preambleRefs + 1;
    }

    /** Gives a reference back; the last one takes the preamble out. */
    method ReleaseInterfacePreamble() returns (ok: bool)
      requires ChainsFine() && preambleRefs > 0 && Leads(held)
      modifies this`preambleRefs, chains
      ensures ChainsFine() && preambleRefs == old(preambleRefs) - 1 && (!mayFail ==> ok)
      ensures preambleRefs > 0 ==> Leads(held)
      ensures preambleRefs == 0 ==> forall i | 0 <= i < |chains| :: Unlinked(chains[i].orderedRules, PREAMBLE)
    {
      preambleRefs := preambleRefs - 1;
      ok := true;
      if preambleRefs > 0 {
        return;
      }
      for i := 0 to |chains|
        invariant ChainsFine() && preambleRefs == 0
        invariant forall j | 0 <= j < i :: Unlinked(chains[j].orderedRules, PREAMBLE)
      {
        ghost var before := chains[i].orderedRules;
        chains[i].DeleteRule(JumpTo(PREAMBLE));
        DeletedIsUnlinked(before, PREAMBLE);
        JumpsStayWithin(before, jumped, PREAMBLE, PatchDelete);
      }
      ok := Succeeds();
    }

    /** Moves the jump to chain `n` to the end of a family's rules, as `option` says. */
    method MoveJump(i: nat, n: string, option: PatchOption)
      requires i < |chains| && ChainsFine() && n in jumped && n != PREAMBLE
      modifies chains[i]
      ensures ChainsFine()
      ensures chains[i].orderedRules == WithJump(old(chains[i].orderedRules), n, option)
      ensures forall h :: Led(old(chains[i].orderedRules), h) ==> Led(chains[i].orderedRules, h)
    {
      ghost var before := chains[i].orderedRules;
      match option {
        case PatchAppend => chains[i].AppendRule(JumpTo(n));
        case PatchInsert => chains[i].InsertRule(1, JumpTo(n));
        case PatchDelete => chains[i].DeleteRule(JumpTo(n));
      }
      JumpsStayWithin(before, jumped, n, option);
      assert jumped + {n} == jumped;
      forall h | Led(before, h)
        ensures Led(chains[i].orderedRules, h)
      {
        LedKept(before, h, n, option);
      }
    }
  }

  lemma CountsOneMore(s: set<string>, x: string)
    ensures x !in s ==> |s + {x}| == |s| + 1
  {
  }

  class IPSetToLink {
    const nh: Helper
    const chainName: string
    const kind: Kind
    var enabled: bool
    var preambleHeld: bool

    constructor (nh: Helper, chainName: string, kind: Kind)
      ensures this.nh == nh && this.chainName == chainName && this.kind == kind && !enabled && !preambleHeld
    {
      this.nh, this.chainName, this.kind := nh, chainName, kind;
      enabled, preambleHeld := false, false;
    }

    ghost predicate Current()
      reads this, nh
    {
      chainName in nh.links && nh.links[chainName] == this
    }

    /** A direct chain goes in front unless direct groups keep their order. */
    function JumpOption(): PatchOption
      reads this, nh
    {
      if kind.Direct? && !nh.directPriorityByOrder then PatchInsert else PatchAppend
    }

    /** Moving the chain's jump, in some families or all, keeps the preamble in front. */
    twostate lemma StillLeads(new option: PatchOption)
      requires old(nh.Leads(nh.held)) && nh.held == old(nh.held) && chainName != PREAMBLE
      requires forall i | 0 <= i < |nh.chains| ::
                 || nh.chains[i].orderedRules == old(nh.chains[i].orderedRules)
                 || nh.chains[i].orderedRules == WithJump(old(nh.chains[i].orderedRules), chainName, option)
      ensures nh.Leads(nh.held)
    {
      forall i | 0 <= i < |nh.chains|
        ensures Led(nh.chains[i].orderedRules, nh.held)
      {
        LedKept(old(nh.chains[i].orderedRules), nh.held, chainName, option);
      }
    }

    /** The group's own chains and rules; somewhere among them, per family, its jump. */
    method InsertIPTablesRules() returns (ok: bool)
      requires nh.ChainsFine() && chainName in nh.jumped && chainName != PREAMBLE
      modifies nh.chains
      ensures nh.ChainsFine() && (!nh.mayFail ==> ok)
      ensures old(nh.Leads(nh.held)) ==> nh.Leads(nh.held)
      ensures ok ==> forall i | 0 <= i < |nh.chains| ::
                nh.chains[i].orderedRules == WithJump(old(nh.chains[i].orderedRules), chainName, JumpOption())
    {
      ok := InsertInAll();
      if old(nh.Leads(nh.held)) {
        StillLeads(JumpOption());
      }
    }

    /** Stops at the first family that fails, which can be before its jump or after. */
    method InsertInAll() returns (ok: bool)
      requires nh.ChainsFine() && chainName in nh.jumped && chainName != PREAMBLE
      modifies nh.chains
      ensures nh.ChainsFine() && (!nh.mayFail ==> ok)
      ensures forall i | 0 <= i < |nh.chains| ::
                || nh.chains[i].orderedRules == WithJump(old(nh.chains[i].orderedRules), chainName, JumpOption())
                || (!ok && nh.chains[i].orderedRules == old(nh.chains[i].orderedRules))
    {
      ok := true;
      var i := 0;
      while i < |nh.chains| && ok
        invariant i <= |nh.chains| && nh.ChainsFine() && (!nh.mayFail ==> ok)
        invariant forall j | i <= j < |nh.chains| :: nh.chains[j].orderedRules == old(nh.chains[j].orderedRules)
        invariant forall j | 0 <= j < i ::
                    || nh.chains[j].orderedRules == WithJump(old(nh.chains[j].orderedRules), chainName, JumpOption())
                    || (!ok && nh.chains[j].orderedRules == old(nh.chains[j].orderedRules))
      {
        ok := nh.Succeeds();
        if ok {
          nh.MoveJump(i, chainName, JumpOption());
          ok := nh.Succeeds();
        }
        i := i + 1;
      }
    }

    method DeleteIPTablesRules() returns (ok: bool)
      requires nh.ChainsFine() && chainName in nh.jumped && chainName != PREAMBLE
      modifies nh.chains
      ensures nh.ChainsFine() && (!nh.mayFail ==> ok)
      ensures old(nh.Leads(nh.held)) ==> nh.Leads(nh.held)
      ensures forall i | 0 <= i < |nh.chains| :: JumpsWithin(nh.chains[i].orderedRules, nh.jumped - {chainName})
      ensures forall i | 0 <= i < |nh.chains| ::
                nh.chains[i].orderedRules == WithJump(old(nh.chains[i].orderedRules), chainName, PatchDelete)
    {
      TakeJumpsOut();
      if old(nh.Leads(nh.held)) {
        StillLeads(PatchDelete);
      }
      forall i | 0 <= i < |nh.chains|
        ensures JumpsWithin(nh.chains[i].orderedRules, nh.jumped - {chainName})
      {
        JumpsStayWithin(old(nh.chains[i].orderedRules), nh.jumped, chainName, PatchDelete);
      }
      ok := nh.Succeeds();
    }

    method TakeJumpsOut()
      requires nh.ChainsFine() && chainName in nh.jumped && chainName != PREAMBLE
      modifies nh.chains
      ensures nh.ChainsFine()
      ensures forall i | 0 <= i < |nh.chains| ::
                nh.chains[i].orderedRules == WithJump(old(nh.chains[i].orderedRules), chainName, PatchDelete)
    {
      for i := 0 to |nh.chains|
        invariant nh.ChainsFine()
        invariant forall j | i <= j < |nh.chains| :: nh.chains[j].orderedRules == old(nh.chains[j].orderedRules)
        invariant forall j | 0 <= j < i ::
                    nh.chains[j].orderedRules == WithJump(old(nh.chains[j].orderedRules), chainName, PatchDelete)
      {
        nh.MoveJump(i, chainName, PatchDelete);
      }
    }

    ghost method MayJump()
      requires nh.ChainsFine()
      modifies nh`jumped
      ensures nh.ChainsFine() && nh.jumped == old(nh.jumped) + {chainName}
    {
      forall i | 0 <= i < |nh.chains|
        ensures JumpsWithin(nh.chains[i].orderedRules, nh.jumped + {chainName})
      {
        JumpsWithinFewer(nh.chains[i].orderedRules, nh.jumped, nh.jumped + {chainName});
      }
      nh.jumped := nh.jumped + {chainName};
    }

    /** After this no family's rules jump to the chain. */
    method ClearRules() returns (ok: bool)
      requires nh.ChainsFine() && chainName != PREAMBLE
      modifies nh`jumped, nh.chains
      ensures nh.ChainsFine() && nh.jumped == old(nh.jumped) - {chainName} && (!nh.mayFail ==> ok)
      ensures old(nh.Leads(nh.held)) ==> nh.Leads(nh.held)
      ensures forall i | 0 <= i < |nh.chains| ::
                nh.chains[i].orderedRules == WithJump(old(nh.chains[i].orderedRules), chainName, PatchDelete)
    {
      MayJump();
      ok := DeleteIPTablesRules();
      assert nh.jumped - {chainName} == old(nh.jumped) - {chainName};
      nh.jumped := nh.jumped - {chainName};
    }

    method HoldPreamble() returns (ok: bool)
      requires nh.Valid() && Current() && enabled && kind.Interface? && !preambleHeld && chainName !in nh.jumped
      modifies this`preambleHeld, nh`preambleRefs, nh`held, nh.chains
      ensures !nh.mayFail ==> ok
      ensures nh.Valid() && preambleHeld == ok && nh.preambleRefs == old(nh.preambleRefs) + if ok then 1 else 0
      ensures ok ==> forall i | 0 <= i < |nh.chains| ::
                nh.chains[i].orderedRules == if old(nh.preambleRefs) > 0 then old(nh.chains[i].orderedRules)
                                             else WithJump(old(nh.chains[i].orderedRules), PREAMBLE, PatchAppend)
    {
      ok := nh.AcquireInterfacePreamble(chainName);
      if ok {
        CountsOneMore(nh.held, chainName);
        BecomeHolder();
      }
    }

    /** The reference was counted; now the link is among the holders. */
    method BecomeHolder()
      requires nh.ChainsFine() && nh.LinksFine() && Current() && enabled && kind.Interface?
      requires nh.preambleRefs == |nh.held + {chainName}| && nh.Leads(nh.held + {chainName})
      modifies this`preambleHeld, nh`held
      ensures nh.Valid() && preambleHeld
    {
      preambleHeld, nh.held := true, nh.held + {chainName};
    }

    method DropPreamble() returns (ok: bool)
      requires nh.Valid() && Current() && preambleHeld && chainName !in nh.jumped
      modifies this`preambleHeld, nh`preambleRefs, nh`held, nh.chains
      ensures nh.Valid() && !preambleHeld && (!nh.mayFail ==> ok)
    {
      assert nh.held - {chainName} <= nh.held && |nh.held - {chainName}| == |nh.held| - 1;
      ok := nh.ReleaseInterfacePreamble();
      preambleHeld, nh.held := false, nh.held - {chainName};
    }

    method Link() returns (ok: bool)
      requires nh.Valid() && Current() && enabled && (kind.Interface? ==> preambleHeld)
      modifies nh`jumped, nh.chains
      ensures nh.Valid() && (!nh.mayFail ==> ok)
      ensures ok ==> forall i | 0 <= i < |nh.chains| ::
                nh.chains[i].orderedRules == WithJump(old(nh.chains[i].orderedRules), chainName, JumpOption())
    {
      MayJump();
      ok := InsertIPTablesRules();
    }

    method Unlink() returns (ok: bool)
      requires nh.Valid() && Current()
      modifies nh`jumped, nh.chains
      ensures nh.Valid() && chainName !in nh.jumped && (!nh.mayFail ==> ok)
      ensures forall i | 0 <= i < |nh.chains| ::
                nh.chains[i].orderedRules == WithJump(old(nh.chains[i].orderedRules), chainName, PatchDelete)
    {
      ok := ClearRules();
    }

    /** A family's rules after a successful enable. */
    ghost function Enabled(ordered: seq<PatchRule>, refs: nat): seq<PatchRule>
      reads this, nh
    {
      WithJump(if kind.Interface? && refs == 0 then WithJump(ordered, PREAMBLE, PatchAppend) else ordered,
               chainName, JumpOption())
    }

    method EnableSteps() returns (ok: bool)
      requires nh.Valid() && Current() && !enabled
      modifies this, nh`preambleRefs, nh`held, nh`jumped, nh.chains
      ensures nh.Valid() && enabled && (ok ==> preambleHeld == kind.Interface?) && (!nh.mayFail ==> ok)
      ensures ok ==> nh.preambleRefs == old(nh.preambleRefs) + if kind.Interface? then 1 else 0
      ensures ok ==> forall i | 0 <= i < |nh.chains| ::
                nh.chains[i].orderedRules == Enabled(old(nh.chains[i].orderedRules), old(nh.preambleRefs))
    {
      enabled := true;
      if kind.Interface? {
        ok := HoldPreamble();
        if !ok {
          return;
        }
        ok := nh.Succeeds();
        if !ok {
          return;
        }
      }
      ok := Link();
    }

    method Enable() returns (ok: bool)
      requires nh.Valid() && Current()
      modifies this, nh`preambleRefs, nh`held, nh`jumped, nh.chains
      ensures nh.Valid()
      ensures (ok ==> enabled) && (!nh.mayFail ==> ok)
      ensures ok && !old(enabled) ==> preambleHeld == kind.Interface?
      ensures ok && !old(enabled) ==> nh.preambleRefs == old(nh.preambleRefs) + if kind.Interface? then 1 else 0
      ensures ok && !old(enabled) ==> forall i | 0 <= i < |nh.chains| ::
                nh.chains[i].orderedRules == Enabled(old(nh.chains[i].orderedRules), old(nh.preambleRefs))
      ensures !ok ==> !enabled && !preambleHeld && chainName !in nh.jumped
    {
      if enabled {
        return true;
      }
      ok := EnableSteps();
      if !ok {
        var _ := Disable();
      }
    }

    method Disable() returns (ok: bool)
      requires nh.Valid() && Current()
      modifies this, nh`preambleRefs, nh`held, nh`jumped, nh.chains
      ensures nh.Valid() && !enabled && !preambleHeld && chainName !in nh.jumped && (!nh.mayFail ==> ok)
    {
      if !enabled {
        return true;
      }
      ok := Unlink();
      if preambleHeld {
        var released := DropPreamble();
        ok := ok && released;
      }
      enabled := false;
      var removed := nh.Succeeds();
      ok := ok && removed;
    }

    /** Takes out what an earlier run may have left under this chain name. */
    method ClearIfDisabled() returns (ok: bool)
      requires nh.Valid() && Current()
      modifies nh`jumped, nh.chains
      ensures nh.Valid() && (!nh.mayFail ==> ok)
      ensures forall i | 0 <= i < |nh.chains| ::
                nh.chains[i].orderedRules == if enabled then old(nh.chains[i].orderedRules)
                                             else WithJump(old(nh.chains[i].orderedRules), chainName, PatchDelete)
    {
      if enabled {
        return true;
      }
      ok := ClearRules();
      var removed := nh.Succeeds();
      ok := ok && removed;
    }
  }
}

/**
  The life of a group's sets: additions from DNS answers, passes of `sync`, reassertions
  of the permanent networks, time, and the kernel's own refresh of live entries.
 */
module GroupRuns {
  import opened Text
  import opened TimedSets
  import opened GroupSets
  import Ttl

  /** The main set, the mirror of the permanent networks, the permanent single addresses. */
  datatype Sets = Sets(main: map<Subnet, Timeout>, mirror: map<Subnet, Timeout>, hosts: set<nat>)

  function HostsOf(statics: seq<Subnet>, width: nat): (hosts: set<nat>)
    ensures forall h: nat :: h in hosts <==> Subnet(h, width) in statics
  {
    if statics == [] then {}
    else
      var last := statics[|statics| - 1];
      HostsOf(statics[..|statics| - 1], width) + if last.cidr == width then {last.addr} else {}
  }

  function StaticKeys(statics: seq<Subnet>): set<Subnet> { AllPermanent(statics).Keys }

  lemma StaticKeysAre(statics: seq<Subnet>)
    ensures StaticKeys(statics) == set s | s in statics
  {
    forall s
      ensures s in StaticKeys(statics) <==> s in statics
    {
      StaticsArePermanent(statics, s);
    }
  }

  // ---- What each operation does to the sets ----

  /** An answer for an address that is permanent already is not added. */
  predicate Guarded(s: Sets, subnet: Subnet, seconds: nat, width: nat)
  {
    seconds != 0 && (subnet.cidr == 0 || subnet.cidr == width) && subnet.addr in s.hosts
  }

  function AfterAdd(s: Sets, subnet: Subnet, seconds: nat, width: nat): Sets
    requires subnet.cidr <= width
  {
    if Guarded(s, subnet, seconds, width) then s
    else s.(main := s.main[Canon(subnet, width) := FromSeconds(seconds)])
  }

  /** An answer for a single address, bare or with its full prefix, goes into the set for its
      time, exactly unless the address is a permanent network. */
  lemma AnswerIsAdded(s: Sets, statics: seq<Subnet>, width: nat, addr: nat, bare: bool, seconds: nat)
    requires s.hosts == HostsOf(statics, width) && seconds > 0 && width > 0
    ensures var after := AfterAdd(s, Subnet(addr, if bare then 0 else width), seconds, width);
            && after.mirror == s.mirror && after.hosts == s.hosts
            && after.main == if Subnet(addr, width) in statics then s.main
                             else s.main[Subnet(addr, width) := Secs(seconds)]
  {
    assert Mask(addr, width, width) == addr;
  }

  /** The calls of a pass that came through: the keys reached in the main set and in the
      mirror, and whether the mirror could be listed. */
  datatype Reach = Reach(main: set<Subnet>, listed: bool, mirror: set<Subnet>)

  function AfterMirror(s: Sets, statics: seq<Subnet>, r: Reach): map<Subnet, Timeout>
  {
    Partly(s.mirror, MirrorTarget(s.mirror, StaticKeys(statics), r.listed), r.mirror)
  }

  function AfterSync(s: Sets, statics: seq<Subnet>, seen: seq<CachedAddress>, width: nat, r: Reach): Sets
  {
    Sets(Partly(s.main, Synced(s.main, Desired(statics, seen, width)), r.main),
         AfterMirror(s, statics, r), HostsOf(statics, width))
  }

  function AfterReassert(s: Sets, statics: seq<Subnet>, width: nat, r: Reach): Sets
  {
    Sets(Partly(s.main, s.main + AllPermanent(statics), r.main), AfterMirror(s, statics, r), HostsOf(statics, width))
  }

  /** What the passes lead to when every call comes through. */
  function CleanSync(s: Sets, statics: seq<Subnet>, seen: seq<CachedAddress>, width: nat): Sets
  {
    Sets(Synced(s.main, Desired(statics, seen, width)), Mirrored(s.mirror, StaticKeys(statics)),
         HostsOf(statics, width))
  }

  function CleanReassert(s: Sets, statics: seq<Subnet>, width: nat): Sets
  {
    Sets(s.main + AllPermanent(statics), Mirrored(s.mirror, StaticKeys(statics)), HostsOf(statics, width))
  }

  /** The main set has exactly what the rules and the DNS cache ask for, each entry as long as
      they ask or as it had anyway; the mirror has the permanent networks, the cache the
      single addresses among them. */
  ghost predicate InSync(s: Sets, before: Sets, statics: seq<Subnet>, rules: seq<Rule>, names: seq<string>,
                         matches: (Rule, string) -> bool, lookup: string -> seq<CachedAddress>, width: nat)
  {
    && (exists want :: WantedIs(want, statics, rules, names, matches, lookup, width)
                       && HasWanted(s.main, before.main, want))
    && s.mirror.Keys == (set k | k in statics)
    && (forall h: nat :: h in s.hosts <==> Subnet(h, width) in statics)
  }

  lemma CleanIsInSync(s: Sets, statics: seq<Subnet>, rules: seq<Rule>, names: seq<string>,
                      matches: (Rule, string) -> bool, lookup: string -> seq<CachedAddress>, width: nat)
    ensures InSync(CleanSync(s, statics, Sightings(rules, names, matches, lookup, width), width), s, statics, rules,
                   names, matches, lookup, width)
  {
    StaticKeysAre(statics);
    DesiredIsWanted(statics, rules, names, matches, lookup, width);
  }

  /** Every network of the rules is permanent, everything else in the main set is as it was;
      the mirror has these networks, the cache the single addresses among them. */
  ghost predicate Reasserted(s: Sets, before: Sets, statics: seq<Subnet>, width: nat)
  {
    && (forall k | k in statics :: k in s.main && s.main[k] == Permanent)
    && (forall k | k !in statics ::
          (k in s.main <==> k in before.main) && (k in s.main ==> s.main[k] == before.main[k]))
    && s.mirror.Keys == (set k | k in statics)
    && (forall h: nat :: h in s.hosts <==> Subnet(h, width) in statics)
  }

  lemma CleanIsReasserted(s: Sets, statics: seq<Subnet>, width: nat)
    ensures Reasserted(CleanReassert(s, statics, width), s, statics, width)
  {
    StaticKeysAre(statics);
    forall k
      ensures k in AllPermanent(statics) <==> k in statics
      ensures k in statics ==> AllPermanent(statics)[k] == Permanent
    {
      StaticsArePermanent(statics, k);
    }
  }

  /** The sets of one address family of a group. */
  class FamilySets {
    const family: Family
    const main: TimedSet
    const mirror: TimedSet
    var hosts: set<nat>
    /** The group runs and is enabled. */
    var on: bool

    ghost predicate Valid()
      reads this, main, mirror
    {
      && IsFamily(family) && main.Valid() && mirror.Valid() && main != mirror
      && main.width == family.width == mirror.width
    }

    ghost function State(): Sets
      reads this, main, mirror
    {
      Sets(main.entries, mirror.entries, hosts)
    }

    constructor (family: Family, mayFail: bool)
      requires IsFamily(family)
      ensures Valid() && fresh(main) && fresh(mirror) && this.family == family
      ensures State() == Sets(map[], map[], {}) && !on && main.mayFail == mirror.mayFail == mayFail
    {
      this.family := family;
      main := new TimedSet(family.width, mayFail);
      mirror := new TimedSet(family.width, mayFail);
      hosts, on := {}, false;
    }

    method AddSubnet(subnet: Subnet, seconds: nat) returns (ok: bool)
      requires Valid() && subnet.cidr <= family.width
      modifies main
      ensures Valid()
      ensures State() == if on && ok then AfterAdd(old(State()), subnet, seconds, family.width) else old(State())
      ensures !on || !main.mayFail ==> ok
    {
      if !on {
        return true;
      }
      if seconds != 0 && (subnet.cidr == 0 || subnet.cidr == family.width) && subnet.addr in hosts {
        return true;
      }
      ok := main.Add(subnet, seconds);
    }

    method UpdateHosts(statics: seq<Subnet>)
      modifies this`hosts
      ensures hosts == HostsOf(statics, family.width)
    {
      var found := {};
      for i := 0 to |statics|
        invariant found == HostsOf(statics[..i], family.width)
      {
        assert statics[..i + 1][..i] == statics[..i];
        if statics[i].cidr == family.width {
          found := found + {statics[i].addr};
        }
      }
      assert statics[..|statics|] == statics;
      hosts := found;
    }

    /** `sync`: an error only if the main set cannot be listed; other failing calls are
        skipped, and each key is then as before or as it should be. */
    method Sync(rules: seq<Rule>, names: seq<string>, matches: (Rule, string) -> bool,
                lookup: string -> seq<CachedAddress>)
      returns (ok: bool, clean: bool)
      requires Valid()
      modifies this`hosts, main, mirror
      ensures Valid() && (!on ==> ok && State() == old(State()))
      ensures !main.mayFail && !mirror.mayFail ==> ok && clean
      ensures on && clean ==>
                ok && State() == CleanSync(old(State()), Statics(rules, family),
                                           Sightings(rules, names, matches, lookup, family.width), family.width)
      ensures on && clean ==>
                InSync(State(), old(State()), Statics(rules, family), rules, names, matches, lookup, family.width)
      ensures on ==>
                exists r :: State() == AfterSync(old(State()), Statics(rules, family),
                                                 Sightings(rules, names, matches, lookup, family.width),
                                                 family.width, r)
    {
      if !on {
        return true, true;
      }
      ghost var before := State();
      var statics := StaticSubnets(rules, family);
      UpdateHosts(statics);
      StaticsAreCanonical(rules, family);
      PermanentKeys(statics);
      var mirrored := SyncMirror(mirror, AllPermanent(statics).Keys);
      var want := DesiredSubnets(statics, rules, names, matches, lookup, family.width);
      ghost var seen := Sightings(rules, names, matches, lookup, family.width);
      DesiredIsCanonical(statics, seen, family.width);
      ok, clean := SyncSet(main, want);
      clean := clean && mirrored;
      CleanIsInSync(before, statics, rules, names, matches, lookup, family.width);
      ghost var listed: bool, inMirror :|
        mirror.entries == Partly(before.mirror, MirrorTarget(before.mirror, StaticKeys(statics), listed), inMirror);
      ghost var inMain :| main.entries == Partly(before.main, Synced(before.main, want), inMain);
      assert State() == AfterSync(before, statics, seen, family.width, Reach(inMain, listed, inMirror));
    }

    method Reassert(rules: seq<Rule>) returns (ok: bool)
      requires Valid()
      modifies this`hosts, main, mirror
      ensures Valid() && (!on ==> ok && State() == old(State()))
      ensures !main.mayFail && !mirror.mayFail ==> ok
      ensures on && ok ==> State() == CleanReassert(old(State()), Statics(rules, family), family.width)
      ensures on && ok ==> Reasserted(State(), old(State()), Statics(rules, family), family.width)
      ensures on ==> exists r :: State() == AfterReassert(old(State()), Statics(rules, family), family.width, r)
    {
      if !on {
        return true;
      }
      ghost var before := State();
      var statics := StaticSubnets(rules, family);
      UpdateHosts(statics);
      StaticsAreCanonical(rules, family);
      PermanentKeys(statics);
      var mirrored := SyncMirror(mirror, AllPermanent(statics).Keys);
      ghost var listed: bool, inMirror :|
        mirror.entries == Partly(before.mirror, MirrorTarget(before.mirror, StaticKeys(statics), listed), inMirror);
      ghost var inMain;
      ok, inMain := AddPermanent(statics);
      ok := ok && mirrored;
      CleanIsReasserted(before, statics, family.width);
      assert State() == AfterReassert(before, statics, family.width, Reach(inMain, listed, inMirror));
    }

    lemma PermanentNext(before: map<Subnet, Timeout>, subnets: seq<Subnet>, i: nat)
      requires i < |subnets|
      ensures before + AllPermanent(subnets[..i + 1]) == (before + AllPermanent(subnets[..i]))[subnets[i] := Permanent]
      ensures Look(before + AllPermanent(subnets), subnets[i]) == Some(Permanent)
    {
      assert subnets[..i + 1][..i] == subnets[..i];
    }

    method AddOne(subnet: Subnet, ghost sofar: set<Subnet>, ghost before: map<Subnet, Timeout>,
                  ghost after: map<Subnet, Timeout>)
      returns (added: bool, ghost reached: set<Subnet>)
      requires main.Valid() && main.width == family.width && IsCanonical(subnet, family.width)
      requires OnTheWay(before, after, sofar, main.entries) && Look(after, subnet) == Some(Permanent)
      modifies main
      ensures main.Valid() && OnTheWay(before, after, reached, main.entries) && (!main.mayFail ==> added)
      ensures added ==> main.entries == old(main.entries)[subnet := Permanent]
    {
      assert Canon(subnet, main.width) == subnet;
      added := main.Add(subnet, 0);
      reached := if added then sofar + {subnet} else sofar;
    }

    method AddPermanent(subnets: seq<Subnet>) returns (ok: bool, ghost reached: set<Subnet>)
      requires main.Valid() && main.width == family.width
      requires forall i | 0 <= i < |subnets| :: IsCanonical(subnets[i], family.width)
      modifies main
      ensures main.Valid() && (ok ==> main.entries == old(main.entries) + AllPermanent(subnets))
      ensures !main.mayFail ==> ok
      ensures main.entries == Partly(old(main.entries), old(main.entries) + AllPermanent(subnets), reached)
    {
      ghost var before := main.entries;
      ghost var after := before + AllPermanent(subnets);
      assert before + map[] == before;
      ok, reached := true, {};
      for i := 0 to |subnets|
        invariant main.Valid() && OnTheWay(before, after, reached, main.entries) && (!main.mayFail ==> ok)
        invariant ok ==> main.entries == before + AllPermanent(subnets[..i])
      {
        PermanentNext(before, subnets, i);
        var added;
        added, reached := AddOne(subnets[i], reached, before, after);
        ok := ok && added;
      }
      assert subnets[..|subnets|] == subnets;
      OnTheWayIsPartly(before, after, reached, main.entries);
    }
  }

  // ---- Runs ----

  datatype Event =
    | Answer(addr: nat, bare: bool, recordTtl: Ttl.uint32, additional: Ttl.uint32)
    | SyncPass(seen: seq<CachedAddress>, reach: Reach)
    | ReassertPass(reach: Reach)
    | Elapse(seconds: nat)
    | Refresh(addr: nat, seconds: nat)

  ghost predicate Matches(entries: map<Subnet, Timeout>, width: nat, ip: nat)
  {
    exists k :: k in entries && k.cidr <= width && Covers(k, width, ip)
  }

  /** Time passes: timed entries run down and vanish, permanent ones stay. */
  function Aged(entries: map<Subnet, Timeout>, seconds: nat): map<Subnet, Timeout>
  {
    map k | k in entries && (entries[k].Permanent? || entries[k].seconds > seconds) ::
      if entries[k].Permanent? then Permanent else Secs(entries[k].seconds - seconds)
  }

  /** The refresh rule writes the packet's address into the main set, unless the mirror matches it. */
  ghost function AfterRefresh(s: Sets, addr: nat, seconds: nat, width: nat): Sets
  {
    if seconds > 0 && Matches(s.main, width, addr) && !Matches(s.mirror, width, addr) then
      s.(main := s.main[Canon(Subnet(addr, width), width) := FromSeconds(seconds)])
    else s
  }

  ghost function Step(s: Sets, e: Event, statics: seq<Subnet>, width: nat): Sets
  {
    match e
    case Answer(addr, bare, recordTtl, additional) =>
      AfterAdd(s, Subnet(addr, if bare then 0 else width), Ttl.FromRecord(recordTtl, additional) as nat, width)
    case SyncPass(seen, reach) => AfterSync(s, statics, seen, width, reach)
    case ReassertPass(reach) => AfterReassert(s, statics, width, reach)
    case Elapse(seconds) => Sets(Aged(s.main, seconds), Aged(s.mirror, seconds), s.hosts)
    case Refresh(addr, seconds) => AfterRefresh(s, addr, seconds, width)
  }

  ghost function Run(events: seq<Event>, statics: seq<Subnet>, width: nat): Sets
  {
    if events == [] then Sets(map[], map[], {})
    else Step(Run(events[..|events| - 1], statics, width), events[|events| - 1], statics, width)
  }

  /** A pass in which the calls for the permanent networks themselves came through. */
  predicate Establishes(e: Event, statics: seq<Subnet>)
  {
    (e.SyncPass? || e.ReassertPass?) && StaticKeys(statics) <= e.reach.main && StaticKeys(statics) <= e.reach.mirror
  }

  predicate Established(events: seq<Event>, statics: seq<Subnet>)
  {
    exists i | 0 <= i < |events| :: Establishes(events[i], statics)
  }

  /** Only permanent networks are permanent; the mirror holds nothing else. */
  ghost predicate OnlyStaticsStay(s: Sets, statics: seq<Subnet>)
  {
    && (forall k | k in s.main && s.main[k].Permanent? :: k in StaticKeys(statics))
    && (forall k | k in s.mirror :: s.mirror[k].Permanent?)
  }

  /** Every permanent network is in the main set for good, mirrored, and guarded. */
  ghost predicate StaticsStay(s: Sets, statics: seq<Subnet>, width: nat)
  {
    && (forall k | k in StaticKeys(statics) :: k in s.main && s.main[k].Permanent? && k in s.mirror)
    && s.hosts == HostsOf(statics, width)
  }

  lemma {:induction false} HostsOfHas(statics: seq<Subnet>, width: nat, s: Subnet)
    requires s in StaticKeys(statics) && s.cidr == width
    ensures s.addr in HostsOf(statics, width)
  {
    var n := |statics| - 1;
    if statics[n] != s {
      HostsOfHas(statics[..n], width, s);
    }
  }

  /** A key of a permanent network after a pass, reached or not. */
  lemma PassKeepsKey(s: Sets, statics: seq<Subnet>, after: map<Subnet, Timeout>, r: Reach, k: Subnet)
    requires k in after && after[k].Permanent? ==> k in StaticKeys(statics)
    requires k in StaticKeys(statics) ==> k in after && after[k].Permanent?
    requires k in s.main && s.main[k].Permanent? ==> k in StaticKeys(statics)
    ensures var now := Partly(s.main, after, r.main);
            && (k in now && now[k].Permanent? ==> k in StaticKeys(statics))
            && (k in StaticKeys(statics) && (k in r.main || (k in s.main && s.main[k].Permanent?)) ==>
                  k in now && now[k].Permanent?)
  {
    PartlyLook(s.main, after, r.main, k);
  }

  lemma SyncedOnlyStaticsForGood(s: Sets, statics: seq<Subnet>, seen: seq<CachedAddress>, width: nat, k: Subnet)
    requires OnlyStaticsStay(s, statics)
    ensures var after := Synced(s.main, Desired(statics, seen, width));
            k in after && after[k].Permanent? <==> k in StaticKeys(statics)
  {
    DesiredIs(statics, seen, width, k);
  }

  lemma MirrorKeeps(s: Sets, statics: seq<Subnet>, r: Reach)
    requires forall k | k in s.mirror :: s.mirror[k].Permanent?
    ensures var now := AfterMirror(s, statics, r);
            && (forall k | k in now :: now[k].Permanent?)
            && (forall k | k in StaticKeys(statics) && (k in r.mirror || k in s.mirror) :: k in now)
  {
    var after := MirrorTarget(s.mirror, StaticKeys(statics), r.listed);
    var now := AfterMirror(s, statics, r);
    forall k
      ensures Look(now, k) == if k in r.mirror then Look(after, k) else Look(s.mirror, k)
    {
      PartlyLook(s.mirror, after, r.mirror, k);
    }
    assert forall k | k in now :: Look(now, k) == Some(now[k]);
  }

  /** A pass, whatever fails in it, makes nothing else permanent and takes no permanence away. */
  lemma SyncKeeps(s: Sets, statics: seq<Subnet>, seen: seq<CachedAddress>, width: nat, r: Reach)
    requires OnlyStaticsStay(s, statics)
    ensures OnlyStaticsStay(AfterSync(s, statics, seen, width, r), statics)
    ensures StaticsStay(s, statics, width) || Establishes(SyncPass(seen, r), statics)
            ==> StaticsStay(AfterSync(s, statics, seen, width, r), statics, width)
  {
    forall k
      ensures k in Synced(s.main, Desired(statics, seen, width))
              && Synced(s.main, Desired(statics, seen, width))[k].Permanent?
              <==> k in StaticKeys(statics)
    {
      SyncedOnlyStaticsForGood(s, statics, seen, width, k);
    }
    PassKeeps(s, statics, Synced(s.main, Desired(statics, seen, width)), r);
    MirrorKeeps(s, statics, r);
  }

  lemma PassKeeps(s: Sets, statics: seq<Subnet>, after: map<Subnet, Timeout>, r: Reach)
    requires OnlyStaticsStay(s, statics)
    requires forall k :: k in after && after[k].Permanent? <==> k in StaticKeys(statics)
    ensures var now := Partly(s.main, after, r.main);
            && (forall k | k in now && now[k].Permanent? :: k in StaticKeys(statics))
            && (forall k | k in StaticKeys(statics) && (k in r.main || (k in s.main && s.main[k].Permanent?)) ::
                  k in now && now[k].Permanent?)
  {
    var now := Partly(s.main, after, r.main);
    forall k
      ensures k in now && now[k].Permanent? ==> k in StaticKeys(statics)
      ensures k in StaticKeys(statics) && (k in r.main || (k in s.main && s.main[k].Permanent?)) ==>
                k in now && now[k].Permanent?
    {
      PassKeepsKey(s, statics, after, r, k);
    }
  }

  lemma ReassertKeeps(s: Sets, statics: seq<Subnet>, width: nat, r: Reach)
    requires OnlyStaticsStay(s, statics)
    ensures OnlyStaticsStay(AfterReassert(s, statics, width, r), statics)
    ensures StaticsStay(s, statics, width) || Establishes(ReassertPass(r), statics)
            ==> StaticsStay(AfterReassert(s, statics, width, r), statics, width)
  {
    PassKeeps(s, statics, s.main + AllPermanent(statics), r);
    MirrorKeeps(s, statics, r);
  }

  lemma AddKeeps(s: Sets, statics: seq<Subnet>, width: nat, subnet: Subnet, seconds: nat)
    requires subnet.cidr <= width && seconds > 0 && (subnet.cidr == 0 || subnet.cidr == width)
    requires OnlyStaticsStay(s, statics)
    ensures OnlyStaticsStay(AfterAdd(s, subnet, seconds, width), statics)
    ensures StaticsStay(s, statics, width) ==> StaticsStay(AfterAdd(s, subnet, seconds, width), statics, width)
  {
    var k := Canon(subnet, width);
    assert k == Subnet(subnet.addr, width);
    if StaticsStay(s, statics, width) && k in StaticKeys(statics) {
      HostsOfHas(statics, width, k);
    }
  }

  lemma RefreshKeeps(s: Sets, statics: seq<Subnet>, width: nat, addr: nat, seconds: nat)
    requires OnlyStaticsStay(s, statics)
    ensures OnlyStaticsStay(AfterRefresh(s, addr, seconds, width), statics)
    ensures StaticsStay(s, statics, width) ==> StaticsStay(AfterRefresh(s, addr, seconds, width), statics, width)
  {
    var k := Canon(Subnet(addr, width), width);
    if StaticsStay(s, statics, width) && k in StaticKeys(statics) {
      assert Covers(k, width, addr);
    }
  }

  /** Over every run from the empty sets, whatever calls fail in its passes: nothing becomes
      permanent that is not a permanent network, and from the first sync or reassertion on
      that reached the permanent networks they all are in the set for good. */
  lemma {:induction false} RunKeepsStatics(events: seq<Event>, statics: seq<Subnet>, width: nat)
    ensures OnlyStaticsStay(Run(events, statics, width), statics)
    ensures Established(events, statics) ==> StaticsStay(Run(events, statics, width), statics, width)
  {
    if events != [] {
      var front, e := events[..|events| - 1], events[|events| - 1];
      RunKeepsStatics(front, statics, width);
      EstablishedBefore(events, statics);
      var s := Run(front, statics, width);
      match e {
        case Answer(addr, bare, recordTtl, additional) =>
          var ttl := Ttl.FromRecord(recordTtl, additional);
          AddKeeps(s, statics, width, Subnet(addr, if bare then 0 else width), ttl as nat);
        case SyncPass(seen, reach) => SyncKeeps(s, statics, seen, width, reach);
        case ReassertPass(reach) => ReassertKeeps(s, statics, width, reach);
        case Elapse(seconds) =>
        case Refresh(addr, seconds) => RefreshKeeps(s, statics, width, addr, seconds);
      }
    }
  }

  lemma EstablishedBefore(events: seq<Event>, statics: seq<Subnet>)
    requires |events| > 0
    ensures Established(events, statics) <==>
            Established(events[..|events| - 1], statics) || Establishes(events[|events| - 1], statics)
  {
    var n := |events| - 1;
    if i :| 0 <= i < n && Establishes(events[..n][i], statics) {
      assert Establishes(events[i], statics);
    }
    if i :| 0 <= i < |events| && Establishes(events[i], statics) {
      assert i < n ==> Establishes(events[..n][i], statics);
    }
  }

  /** The guard is for single addresses: an answer for a wider network that is permanent
      would take its permanence away, and nothing else would. */
  lemma AddKeepsIff(s: Sets, statics: seq<Subnet>, width: nat, subnet: Subnet, seconds: nat)
    requires subnet.cidr <= width && seconds > 0
    requires OnlyStaticsStay(s, statics) && StaticsStay(s, statics, width)
    ensures StaticsStay(AfterAdd(s, subnet, seconds, width), statics, width) <==>
            !(0 < subnet.cidr < width && Canon(subnet, width) in StaticKeys(statics))
  {
    if subnet.cidr == 0 || subnet.cidr == width {
      AddKeeps(s, statics, width, subnet, seconds);
    }
  }
}

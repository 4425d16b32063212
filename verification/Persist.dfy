/**
  Saving part of the records cache and loading it again. A snapshot keeps the names a
  predicate accepts and everything their aliases lead to; deadlines are cut to whole
  seconds. Loading drops what has expired by then.
 */
module Persist {
  import opened Text
  import Ttl
  import opened RecordsCache

  const SNAPSHOT_VERSION := 1

  datatype SavedAddress = SavedAddress(ip: IP, deadline: int)

  datatype SavedAlias = SavedAlias(target: string, deadline: int)

  datatype Snapshot = Snapshot(version: int, addresses: map<string, seq<SavedAddress>>,
                               aliases: map<string, SavedAlias>)

  /** Whole seconds, rounded down. */
  function Unix(deadline: int): int { deadline / Ttl.SECOND }

  function SavedList(list: seq<Address>): (out: seq<SavedAddress>)
    ensures |out| == |list|
  {
    seq(|list|, i requires 0 <= i < |list| => SavedAddress(list[i].ip, Unix(list[i].deadline)))
  }

  function SnapshotOf(c: Cache, want: set<string>): Snapshot
  {
    Snapshot(SNAPSHOT_VERSION,
             map n | n in c.addresses && n in want && c.addresses[n] != [] :: SavedList(c.addresses[n]),
             map n | n in c.aliases && n in want :: SavedAlias(c.aliases[n].target, Unix(c.aliases[n].deadline)))
  }

  predicate Known(c: Cache, n: string) { n in c.addresses || n in c.aliases }

  predicate Kept(c: Cache, keep: string -> bool, d: string) { Known(c, d) && keep(d) }

  /** `n` is a kept name or lies on the alias path of one. */
  ghost predicate InClosure(c: Cache, keep: string -> bool, n: string)
  {
    exists d :: Kept(c, keep, d) && Reaches(c.aliases, d, n)
  }

  method ListKnownDomains(r: Records) returns (domains: seq<string>)
    ensures forall n :: n in domains <==> Known(r.View(), n)
    ensures NoDup(domains)
  {
    domains := [];
    var todo := r.addresses.Keys + r.aliases.Keys;
    while todo != {}
      invariant todo <= r.addresses.Keys + r.aliases.Keys
      invariant NoDup(domains) && forall n :: n in domains <==> Known(r.View(), n) && n !in todo
    {
      var n :| n in todo;
      todo := todo - {n};
      domains := domains + [n];
    }
  }

  /** Every name wanted so far has its alias wanted too, except `current` and the kept names
      still to be visited. */
  ghost predicate ClosedBut(aliases: map<string, Alias>, want: set<string>, visit: seq<string>, kept: set<string>,
                            current: Option<string>)
  {
    forall n | n in want && n in aliases ::
      aliases[n].target in want || (n in kept && n in visit) || current == Some(n)
  }

  method Matching(domains: seq<string>, keep: string -> bool) returns (want: set<string>)
    ensures forall n :: n in want <==> n in domains && keep(n)
  {
    want := {};
    for i := 0 to |domains|
      invariant forall n :: n in want <==> n in domains[..i] && keep(n)
    {
      if keep(domains[i]) {
        want := want + {domains[i]};
      }
    }
    assert domains[..|domains|] == domains;
  }

  /** The kept names, then the alias chain of each, stopping at names already wanted. */
  method Collect(r: Records, keep: string -> bool) returns (want: set<string>)
    requires r.Valid()
    ensures forall n :: n in want <==> InClosure(r.View(), keep, n)
  {
    var domains := ListKnownDomains(r);
    want := Matching(domains, keep);
    ghost var kept := want;
    KeptInClosure(r.View(), keep, kept);
    for i := 0 to |domains|
      invariant kept <= want && forall n | n in want :: InClosure(r.View(), keep, n)
      invariant ClosedBut(r.aliases, want, domains[i..], kept, None)
    {
      var domain := domains[i];
      NextVisited(r.aliases, want, domains, i, kept);
      if domain !in want {
        continue;
      }
      want := Chain(r, keep, want, domain, domains[i + 1..], kept);
    }
    assert domains[|domains|..] == [];
    ClosedHoldsClosure(r.View(), keep, kept, want);
  }

  lemma NextVisited(aliases: map<string, Alias>, want: set<string>, domains: seq<string>, i: nat, kept: set<string>)
    requires i < |domains| && ClosedBut(aliases, want, domains[i..], kept, None)
    ensures ClosedBut(aliases, want, domains[i + 1..], kept, Some(domains[i]))
    ensures domains[i] !in want ==> ClosedBut(aliases, want, domains[i + 1..], kept, None)
  {
    assert domains[i..] == [domains[i]] + domains[i + 1..];
  }

  method Chain(r: Records, ghost keep: string -> bool, wanted: set<string>, domain: string,
               ghost visit: seq<string>, ghost kept: set<string>)
    returns (want: set<string>)
    requires domain in wanted && kept <= wanted
    requires forall n | n in wanted :: InClosure(r.View(), keep, n)
    requires ClosedBut(r.aliases, wanted, visit, kept, Some(domain))
    ensures wanted <= want && forall n | n in want :: InClosure(r.View(), keep, n)
    ensures ClosedBut(r.aliases, want, visit, kept, None)
  {
    want := wanted;
    var current := domain;
    ghost var targets := set d | d in r.aliases :: r.aliases[d].target;
    while true
      invariant wanted <= want && current in want
      invariant forall n | n in want :: InClosure(r.View(), keep, n)
      invariant ClosedBut(r.aliases, want, visit, kept, Some(current))
      decreases targets - want
    {
      if current !in r.aliases {
        break;
      }
      var next := r.aliases[current].target;
      if next in want {
        break;
      }
      NextInClosure(r.View(), keep, current);
      want := want + {next};
      current := next;
    }
  }

  /** The records of the wanted names, name by name. */
  method SnapshotLocked(r: Records, want: set<string>) returns (snap: Snapshot)
    ensures snap == SnapshotOf(r.View(), want)
  {
    var addresses := SnapshotAddresses(r, want);
    var aliases := SnapshotAliases(r, want);
    snap := Snapshot(SNAPSHOT_VERSION, addresses, aliases);
  }

  method SnapshotAddresses(r: Records, want: set<string>) returns (addresses: map<string, seq<SavedAddress>>)
    ensures addresses == SnapshotOf(r.View(), want).addresses
  {
    addresses := map[];
    var todo := r.addresses.Keys;
    while todo != {}
      invariant todo <= r.addresses.Keys
      invariant addresses == map n | n in r.addresses.Keys - todo && n in want && r.addresses[n] != [] ::
                               SavedList(r.addresses[n])
    {
      var name :| name in todo;
      todo := todo - {name};
      if name !in want {
        continue;
      }
      var out := SaveList(r.addresses[name]);
      if |out| > 0 {
        addresses := addresses[name := out];
      }
    }
  }

  method SnapshotAliases(r: Records, want: set<string>) returns (aliases: map<string, SavedAlias>)
    ensures aliases == SnapshotOf(r.View(), want).aliases
  {
    aliases := map[];
    var todo := r.aliases.Keys;
    while todo != {}
      invariant todo <= r.aliases.Keys
      invariant aliases == map n | n in r.aliases.Keys - todo && n in want ::
                             SavedAlias(r.aliases[n].target, Unix(r.aliases[n].deadline))
    {
      var name :| name in todo;
      todo := todo - {name};
      if name !in want {
        continue;
      }
      aliases := aliases[name := SavedAlias(r.aliases[name].target, Unix(r.aliases[name].deadline))];
    }
  }

  method SaveList(list: seq<Address>) returns (out: seq<SavedAddress>)
    ensures out == SavedList(list)
  {
    out := [];
    for i := 0 to |list|
      invariant out == SavedList(list[..i])
    {
      assert SavedList(list[..i + 1]) == SavedList(list[..i]) + [SavedAddress(list[i].ip, Unix(list[i].deadline))];
      out := out + [SavedAddress(list[i].ip, Unix(list[i].deadline))];
    }
    assert list[..|list|] == list;
  }

  /** The snapshot holds the records of exactly the closure of the kept names. */
  ghost predicate SavesClosure(c: Cache, keep: string -> bool, snap: Snapshot)
  {
    && snap.version == SNAPSHOT_VERSION
    && (forall n :: n in snap.addresses <==> n in c.addresses && c.addresses[n] != [] && InClosure(c, keep, n))
    && (forall n | n in snap.addresses :: n in c.addresses && snap.addresses[n] == SavedList(c.addresses[n]))
    && (forall n :: n in snap.aliases <==> n in c.aliases && InClosure(c, keep, n))
    && (forall n | n in snap.aliases ::
          n in c.aliases && snap.aliases[n] == SavedAlias(c.aliases[n].target, Unix(c.aliases[n].deadline)))
  }

  method SnapshotFiltered(r: Records, keep: string -> bool) returns (snap: Snapshot)
    requires r.Valid()
    ensures SavesClosure(r.View(), keep, snap)
    ensures exists want :: snap == SnapshotOf(r.View(), want) && forall n :: n in want <==> InClosure(r.View(), keep, n)
  {
    var want := Collect(r, keep);
    snap := SnapshotLocked(r, want);
  }

  lemma NextInClosure(c: Cache, keep: string -> bool, n: string)
    requires InClosure(c, keep, n) && n in c.aliases
    ensures InClosure(c, keep, c.aliases[n].target)
  {
    var d :| Kept(c, keep, d) && Reaches(c.aliases, d, n);
    var k: nat :| Walk(c.aliases, d, k) == Some(n);
    WalkStep(c.aliases, d, k);
    assert Walk(c.aliases, d, k + 1) == Some(c.aliases[n].target);
  }

  lemma KeptInClosure(c: Cache, keep: string -> bool, kept: set<string>)
    requires forall n | n in kept :: Kept(c, keep, n)
    ensures forall n | n in kept :: InClosure(c, keep, n)
  {
    forall n | n in kept
      ensures InClosure(c, keep, n)
    {
      assert Walk(c.aliases, n, 0) == Some(n);
      assert Reaches(c.aliases, n, n);
    }
  }

  /** The early stop loses nothing: what is wanted in the end is closed under aliases. */
  lemma ClosedHoldsClosure(c: Cache, keep: string -> bool, kept: set<string>, want: set<string>)
    requires forall n :: n in kept <==> Kept(c, keep, n)
    requires kept <= want && ClosedBut(c.aliases, want, [], kept, None)
    ensures forall n | InClosure(c, keep, n) :: n in want
  {
    forall n | InClosure(c, keep, n)
      ensures n in want
    {
      var d :| Kept(c, keep, d) && Reaches(c.aliases, d, n);
      var k: nat :| Walk(c.aliases, d, k) == Some(n);
      WalkStaysIn(c.aliases, d, k, want);
    }
  }

  // ---- Loading ----

  /** Storing what has not expired, address by address. */
  function LoadedList(list: seq<Address>, saved: seq<SavedAddress>, now: int): seq<Address>
    decreases |saved|
  {
    if saved == [] then list
    else if now < saved[0].deadline * Ttl.SECOND
    then LoadedList(Stored(list, saved[0].ip, saved[0].deadline * Ttl.SECOND), saved[1..], now)
    else LoadedList(list, saved[1..], now)
  }

  /** The addresses once the names in `done` have been loaded. */
  function LoadedAddresses(addresses: map<string, seq<Address>>, snap: Snapshot, done: set<string>, now: int)
    : map<string, seq<Address>>
  {
    map n | n in addresses.Keys + snap.addresses.Keys && LoadedAt(addresses, snap, done, now, n) != [] ::
      LoadedAt(addresses, snap, done, now, n)
  }

  function LoadedAt(addresses: map<string, seq<Address>>, snap: Snapshot, done: set<string>, now: int, n: string)
    : seq<Address>
  {
    if n in snap.addresses && n in done then LoadedList(AddressesOf(addresses, n), snap.addresses[n], now)
    else AddressesOf(addresses, n)
  }

  predicate AliasLoads(snap: Snapshot, now: int, d: string)
  {
    d in snap.aliases && now < snap.aliases[d].deadline * Ttl.SECOND && snap.aliases[d].target != d
  }

  function LoadedAliases(aliases: map<string, Alias>, snap: Snapshot, done: set<string>, now: int): map<string, Alias>
  {
    map d | d in aliases.Keys + snap.aliases.Keys && (d in aliases || (d in done && AliasLoads(snap, now, d))) ::
      if d in done && AliasLoads(snap, now, d)
      then Alias(snap.aliases[d].target, snap.aliases[d].deadline * Ttl.SECOND) else aliases[d]
  }

  function Loaded(c: Cache, snap: Snapshot, now: int): Cache
  {
    Cache(LoadedAddresses(c.addresses, snap, snap.addresses.Keys, now),
          LoadedAliases(c.aliases, snap, snap.aliases.Keys, now))
  }

  method LoadSnapshot(r: Records, snap: Snapshot, now: int)
    requires r.Valid()
    modifies r`addresses, r`aliases, r`reverseAliases
    ensures r.Valid() && r.View() == Loaded(old(r.View()), snap, now)
    ensures LaidOver(old(r.View()), r.View(), snap, now)
  {
    LoadedIsLaidOver(r.View(), snap, now);
    LoadAddresses(r, snap, now);
    LoadAliases(r, snap, now);
  }

  method LoadAliases(r: Records, snap: Snapshot, now: int)
    requires r.Valid()
    modifies r`aliases, r`reverseAliases
    ensures r.Valid() && r.aliases == LoadedAliases(old(r.aliases), snap, snap.aliases.Keys, now)
  {
    ghost var before := r.aliases;
    ghost var done := {};
    var todo := snap.aliases.Keys;
    while todo != {}
      invariant done + todo == snap.aliases.Keys && done !! todo && r.Valid()
      invariant r.aliases == LoadedAliases(before, snap, done, now)
    {
      var name :| name in todo;
      LoadedAliasesStep(before, snap, done, now, name);
      todo, done := todo - {name}, done + {name};
      var deadline := snap.aliases[name].deadline * Ttl.SECOND;
      if now < deadline {
        r.AddAliasLocked(name, snap.aliases[name].target, deadline);
      }
    }
  }

  method LoadAddresses(r: Records, snap: Snapshot, now: int)
    requires r.Valid()
    modifies r`addresses
    ensures r.Valid() && r.addresses == LoadedAddresses(old(r.addresses), snap, snap.addresses.Keys, now)
  {
    ghost var before := r.addresses;
    var todo := snap.addresses.Keys;
    assert before == LoadedAddresses(before, snap, {}, now);
    while todo != {}
      invariant todo <= snap.addresses.Keys && r.Valid()
      invariant r.addresses == LoadedAddresses(before, snap, snap.addresses.Keys - todo, now)
    {
      var name :| name in todo;
      LoadedAddressesStep(before, snap, snap.addresses.Keys - todo, now, name);
      assert snap.addresses.Keys - todo + {name} == snap.addresses.Keys - (todo - {name});
      todo := todo - {name};
      LoadName(r, name, snap.addresses[name], now);
    }
    assert snap.addresses.Keys - todo == snap.addresses.Keys;
  }

  method LoadName(r: Records, name: string, saved: seq<SavedAddress>, now: int)
    requires r.Valid()
    modifies r`addresses
    ensures r.Valid()
    ensures var list := LoadedList(AddressesOf(old(r.addresses), name), saved, now);
            r.addresses == if list == [] then old(r.addresses) else old(r.addresses)[name := list]
  {
    ghost var before := r.addresses;
    for i := 0 to |saved|
      invariant r.Valid()
      invariant LoadedList(AddressesOf(r.addresses, name), saved[i..], now) ==
                LoadedList(AddressesOf(before, name), saved, now)
      invariant r.addresses == if AddressesOf(r.addresses, name) == [] then before
                               else before[name := AddressesOf(r.addresses, name)]
    {
      assert saved[i..][0] == saved[i] && saved[i..][1..] == saved[i + 1..];
      var deadline := saved[i].deadline * Ttl.SECOND;
      if now < deadline {
        StoredIPs(AddressesOf(r.addresses, name), saved[i].ip, deadline);
        r.AddAddressLocked(name, saved[i].ip, deadline);
      }
    }
    assert saved[|saved|..] == [];
  }

  lemma LoadedAliasesStep(aliases: map<string, Alias>, snap: Snapshot, done: set<string>, now: int, name: string)
    requires name in snap.aliases && name !in done
    ensures LoadedAliases(aliases, snap, done + {name}, now) ==
            if AliasLoads(snap, now, name)
            then LoadedAliases(aliases, snap, done, now)
                   [name := Alias(snap.aliases[name].target, snap.aliases[name].deadline * Ttl.SECOND)]
            else LoadedAliases(aliases, snap, done, now)
  {
  }

  lemma LoadedAddressesStep(addresses: map<string, seq<Address>>, snap: Snapshot, done: set<string>, now: int,
                            name: string)
    requires name in snap.addresses && name !in done
    requires forall n | n in addresses :: addresses[n] != []
    ensures var before := LoadedAddresses(addresses, snap, done, now);
            var list := LoadedList(AddressesOf(addresses, name), snap.addresses[name], now);
            && AddressesOf(before, name) == AddressesOf(addresses, name)
            && LoadedAddresses(addresses, snap, done + {name}, now) ==
               if list == [] then before else before[name := list]
  {
    LoadedListGrows(AddressesOf(addresses, name), snap.addresses[name], now);
  }

  lemma {:induction false} LoadedListGrows(list: seq<Address>, saved: seq<SavedAddress>, now: int)
    ensures list != [] ==> LoadedList(list, saved, now) != []
    decreases |saved|
  {
    if saved != [] {
      StoredIPs(list, saved[0].ip, saved[0].deadline * Ttl.SECOND);
      LoadedListGrows(Stored(list, saved[0].ip, saved[0].deadline * Ttl.SECOND), saved[1..], now);
      LoadedListGrows(list, saved[1..], now);
    }
  }

  // ---- What loading does to a cache that has records ----

  /** The last saved record of the address whose deadline is still to come. */
  ghost predicate LastSaved(saved: seq<SavedAddress>, ip: IP, now: int, j: nat)
  {
    && j < |saved| && saved[j].ip == ip && now < saved[j].deadline * Ttl.SECOND
    && forall i | j < i < |saved| && saved[i].ip == ip :: saved[i].deadline * Ttl.SECOND <= now
  }

  ghost predicate NoneSaved(saved: seq<SavedAddress>, ip: IP, now: int)
  {
    forall i | 0 <= i < |saved| && saved[i].ip == ip :: saved[i].deadline * Ttl.SECOND <= now
  }

  /** A record as it is after loading: the last saved one of its address, or its own. */
  ghost predicate HasOrigin(out: seq<Address>, i: nat, list: seq<Address>, saved: seq<SavedAddress>, now: int)
    requires i < |out|
  {
    || (exists j: nat :: LastSaved(saved, out[i].ip, now, j) && out[i].deadline == saved[j].deadline * Ttl.SECOND)
    || (NoneSaved(saved, out[i].ip, now) && i < |list| && out[i] == list[i])
  }

  ghost predicate HasAddress(list: seq<Address>, ip: IP)
  {
    exists i | 0 <= i < |list| :: list[i].ip == ip
  }

  /** The addresses that were there keep their places, the saved ones are there, each once,
      and every record is the last saved one of its address or the one that was there. */
  ghost predicate ListLaidOver(list: seq<Address>, out: seq<Address>, saved: seq<SavedAddress>, now: int)
  {
    && DistinctIPs(out) && |list| <= |out|
    && (forall i | 0 <= i < |list| :: out[i].ip == list[i].ip)
    && (forall i: nat | i < |out| :: HasOrigin(out, i, list, saved, now))
    && (forall j | 0 <= j < |saved| && now < saved[j].deadline * Ttl.SECOND :: HasAddress(out, saved[j].ip))
  }

  ghost predicate LaidOver(before: Cache, after: Cache, snap: Snapshot, now: int)
  {
    && (forall n | n in after.addresses || n in before.addresses || n in snap.addresses ::
          ListLaidOver(AddressesOf(before.addresses, n), AddressesOf(after.addresses, n),
                       if n in snap.addresses then snap.addresses[n] else [], now))
    && (forall d | d in snap.aliases && snap.aliases[d].target != d && now < snap.aliases[d].deadline * Ttl.SECOND ::
          d in after.aliases
          && after.aliases[d] == Alias(snap.aliases[d].target, snap.aliases[d].deadline * Ttl.SECOND))
    && (forall d | !(d in snap.aliases && snap.aliases[d].target != d
                     && now < snap.aliases[d].deadline * Ttl.SECOND) ::
          (d in after.aliases <==> d in before.aliases)
          && (d in before.aliases ==> after.aliases[d] == before.aliases[d]))
  }

  lemma StoredAddresses(list: seq<Address>, ip: IP, deadline: int)
    requires DistinctIPs(list)
    ensures var out := Stored(list, ip, deadline);
            && DistinctIPs(out) && |list| <= |out| && HasAddress(out, ip)
            && (forall i | 0 <= i < |list| :: out[i].ip == list[i].ip)
            && (forall i: nat | i < |out| ::
                  if out[i].ip == ip then out[i].deadline == deadline else i < |list| && out[i] == list[i])
  {
    StoredKeepsDistinct(list, ip, deadline);
    if k :| 0 <= k < |list| && list[k].ip == ip {
      StoredInPlace(list, k, ip, deadline);
      assert Stored(list, ip, deadline)[k].ip == ip;
    } else {
      StoredAtEnd(list, ip, deadline);
      assert Stored(list, ip, deadline)[|list|].ip == ip;
    }
  }

  lemma {:induction false} ListIsLaidOver(list: seq<Address>, saved: seq<SavedAddress>, now: int)
    requires DistinctIPs(list)
    ensures ListLaidOver(list, LoadedList(list, saved, now), saved, now)
    decreases |saved|
  {
    if saved == [] {
      assert forall i: nat | i < |list| :: HasOrigin(list, i, list, saved, now);
    } else if now < saved[0].deadline * Ttl.SECOND {
      var first := Stored(list, saved[0].ip, saved[0].deadline * Ttl.SECOND);
      StoredAddresses(list, saved[0].ip, saved[0].deadline * Ttl.SECOND);
      ListIsLaidOver(first, saved[1..], now);
      LaidOverStored(list, first, LoadedList(first, saved[1..], now), saved, now);
    } else {
      ListIsLaidOver(list, saved[1..], now);
      LaidOverSkipped(list, LoadedList(list, saved[1..], now), saved, now);
    }
  }

  lemma LaterSaved(saved: seq<SavedAddress>, ip: IP, now: int)
    requires saved != []
    ensures forall j: nat :: LastSaved(saved[1..], ip, now, j) ==> LastSaved(saved, ip, now, j + 1)
    ensures NoneSaved(saved[1..], ip, now) ==>
              if saved[0].ip == ip && now < saved[0].deadline * Ttl.SECOND then LastSaved(saved, ip, now, 0)
              else NoneSaved(saved, ip, now)
  {
    assert forall i | 0 < i < |saved| :: saved[i] == saved[1..][i - 1];
  }

  lemma LaidOverSkipped(list: seq<Address>, out: seq<Address>, saved: seq<SavedAddress>, now: int)
    requires saved != [] && saved[0].deadline * Ttl.SECOND <= now && ListLaidOver(list, out, saved[1..], now)
    ensures ListLaidOver(list, out, saved, now)
  {
    forall i: nat | i < |out|
      ensures HasOrigin(out, i, list, saved, now)
    {
      assert HasOrigin(out, i, list, saved[1..], now);
      LaterSaved(saved, out[i].ip, now);
    }
    SavedAreThere(out, saved, now);
  }

  lemma SavedAreThere(out: seq<Address>, saved: seq<SavedAddress>, now: int)
    requires saved != [] && (now < saved[0].deadline * Ttl.SECOND ==> HasAddress(out, saved[0].ip))
    requires forall j | 0 <= j < |saved[1..]| && now < saved[1..][j].deadline * Ttl.SECOND ::
               HasAddress(out, saved[1..][j].ip)
    ensures forall j | 0 <= j < |saved| && now < saved[j].deadline * Ttl.SECOND :: HasAddress(out, saved[j].ip)
  {
    forall j | 0 < j < |saved| && now < saved[j].deadline * Ttl.SECOND
      ensures HasAddress(out, saved[j].ip)
    {
      assert saved[1..][j - 1] == saved[j];
    }
  }

  lemma LaidOverStored(list: seq<Address>, first: seq<Address>, out: seq<Address>, saved: seq<SavedAddress>, now: int)
    requires saved != [] && now < saved[0].deadline * Ttl.SECOND
    requires |list| <= |first| && HasAddress(first, saved[0].ip)
    requires forall i | 0 <= i < |list| :: first[i].ip == list[i].ip
    requires forall i: nat | i < |first| :: if first[i].ip == saved[0].ip
                                            then first[i].deadline == saved[0].deadline * Ttl.SECOND
                                            else i < |list| && first[i] == list[i]
    requires ListLaidOver(first, out, saved[1..], now)
    ensures ListLaidOver(list, out, saved, now)
  {
    forall i: nat | i < |out|
      ensures HasOrigin(out, i, list, saved, now)
    {
      assert HasOrigin(out, i, first, saved[1..], now);
      LaterSaved(saved, out[i].ip, now);
    }
    var k :| 0 <= k < |first| && first[k].ip == saved[0].ip;
    assert out[k].ip == saved[0].ip;
    SavedAreThere(out, saved, now);
  }

  lemma LoadedIsLaidOver(c: Cache, snap: Snapshot, now: int)
    requires forall n | n in c.addresses :: DistinctIPs(c.addresses[n])
    ensures LaidOver(c, Loaded(c, snap, now), snap, now)
  {
    var after := Loaded(c, snap, now);
    forall n | n in after.addresses || n in c.addresses || n in snap.addresses
      ensures ListLaidOver(AddressesOf(c.addresses, n), AddressesOf(after.addresses, n),
                           if n in snap.addresses then snap.addresses[n] else [], now)
    {
      var saved := if n in snap.addresses then snap.addresses[n] else [];
      ListIsLaidOver(AddressesOf(c.addresses, n), saved, now);
      assert AddressesOf(after.addresses, n) == LoadedList(AddressesOf(c.addresses, n), saved, now);
    }
  }

  // ---- Saving, then loading into an empty cache ----

  const EMPTY := Cache(map[], map[])

  function Reloaded(c: Cache, want: set<string>, loadedAt: int): Cache
  {
    Loaded(EMPTY, SnapshotOf(c, want), loadedAt)
  }

  /** At time `t` a record with this deadline is live after reloading exactly if it was
      live before. */
  predicate Survives(deadline: int, loadedAt: int, t: int)
  {
    (t <= deadline) == (loadedAt < Unix(deadline) * Ttl.SECOND && t <= Unix(deadline) * Ttl.SECOND)
  }

  /** Expired by then, or a whole number of seconds and not the very instant of loading. */
  predicate SafeDeadline(deadline: int, loadedAt: int)
  {
    deadline < loadedAt || (deadline % Ttl.SECOND == 0 && deadline != loadedAt)
  }

  lemma SurvivesIffSafe(deadline: int, loadedAt: int)
    ensures (forall t | loadedAt <= t :: Survives(deadline, loadedAt, t)) <==> SafeDeadline(deadline, loadedAt)
  {
    if !SafeDeadline(deadline, loadedAt) {
      assert !Survives(deadline, loadedAt, deadline);
    }
  }

  function IPs(list: seq<Address>): (out: seq<IP>)
    ensures |out| == |list| && forall i | 0 <= i < |list| :: out[i] == list[i].ip
  {
    seq(|list|, i requires 0 <= i < |list| => list[i].ip)
  }

  /** The records of the saved names survive at `t`. */
  ghost predicate AllSurvive(c: Cache, want: set<string>, loadedAt: int, t: int)
  {
    && (forall n, a | n in want && n in c.addresses && a in c.addresses[n] :: Survives(a.deadline, loadedAt, t))
    && (forall n | n in want && n in c.aliases :: Survives(c.aliases[n].deadline, loadedAt, t))
  }

  /** Addresses that are new to a list are appended. */
  function Fresh(list: seq<Address>, loadedAt: int): seq<Address>
  {
    if list == [] then []
    else (if loadedAt < Unix(list[0].deadline) * Ttl.SECOND
          then [Address(list[0].ip, Unix(list[0].deadline) * Ttl.SECOND)] else [])
         + Fresh(list[1..], loadedAt)
  }

  ghost predicate Apart(a: seq<Address>, b: seq<Address>)
  {
    forall i, j | 0 <= i < |a| && 0 <= j < |b| :: a[i].ip != b[j].ip
  }

  /** An address as it comes back from a snapshot. */
  function Truncated(a: Address): Address { Address(a.ip, Unix(a.deadline) * Ttl.SECOND) }

  lemma LoadNext(done: seq<Address>, list: seq<Address>, loadedAt: int)
    requires list != [] && Apart(done, list)
    ensures LoadedList(done, SavedList(list), loadedAt) ==
            LoadedList(done + if loadedAt < Truncated(list[0]).deadline then [Truncated(list[0])] else [],
                       SavedList(list[1..]), loadedAt)
  {
    assert SavedList(list)[1..] == SavedList(list[1..]);
    assert done + [] == done;
    if loadedAt < Truncated(list[0]).deadline {
      StoredAtEnd(done, list[0].ip, Truncated(list[0]).deadline);
    }
  }

  lemma FreshNext(done: seq<Address>, list: seq<Address>, loadedAt: int)
    requires list != []
    ensures done + Fresh(list, loadedAt) ==
            done + (if loadedAt < Truncated(list[0]).deadline then [Truncated(list[0])] else [])
            + Fresh(list[1..], loadedAt)
  {
  }

  lemma ApartNext(done: seq<Address>, list: seq<Address>, a: seq<Address>)
    requires list != [] && DistinctIPs(list) && Apart(done, list) && (a == [] || a == [Truncated(list[0])])
    ensures DistinctIPs(list[1..]) && Apart(done + a, list[1..])
  {
  }

  lemma {:induction false} LoadedIsFresh(done: seq<Address>, list: seq<Address>, loadedAt: int)
    requires DistinctIPs(list) && Apart(done, list)
    ensures LoadedList(done, SavedList(list), loadedAt) == done + Fresh(list, loadedAt)
    decreases |list|
  {
    if list == [] {
      assert done + [] == done;
    } else {
      var a := if loadedAt < Truncated(list[0]).deadline then [Truncated(list[0])] else [];
      LoadNext(done, list, loadedAt);
      ApartNext(done, list, a);
      LoadedIsFresh(done + a, list[1..], loadedAt);
      FreshNext(done, list, loadedAt);
    }
  }

  function AllTruncated(list: seq<Address>): (out: seq<Address>)
    ensures |out| == |list|
  {
    seq(|list|, i requires 0 <= i < |list| => Truncated(list[i]))
  }

  lemma LiveOfHead(a: Address, rest: seq<Address>, t: int)
    ensures Live([a] + rest, t) == (if t <= a.deadline then [a] else []) + Live(rest, t)
  {
    assert ([a] + rest)[1..] == rest;
  }

  lemma TruncatedOfHead(a: Address, rest: seq<Address>)
    ensures AllTruncated([a] + rest) == [Truncated(a)] + AllTruncated(rest)
  {
  }

  lemma {:induction false} FreshLive(list: seq<Address>, loadedAt: int, t: int)
    requires forall i | 0 <= i < |list| :: Survives(list[i].deadline, loadedAt, t)
    ensures Live(Fresh(list, loadedAt), t) == AllTruncated(Live(list, t))
  {
    if list != [] {
      var head, rest := list[0], list[1..];
      FreshLive(rest, loadedAt, t);
      FreshLiveHead(head, rest, loadedAt, t);
      assert list == [head] + rest;
    }
  }

  lemma FreshLiveHead(head: Address, rest: seq<Address>, loadedAt: int, t: int)
    requires Survives(head.deadline, loadedAt, t)
    requires Live(Fresh(rest, loadedAt), t) == AllTruncated(Live(rest, t))
    ensures Live(Fresh([head] + rest, loadedAt), t) == AllTruncated(Live([head] + rest, t))
  {
    var a := Truncated(head);
    assert ([head] + rest)[1..] == rest;
    LiveOfHead(head, rest, t);
    LiveOfHead(a, Fresh(rest, loadedAt), t);
    TruncatedOfHead(head, Live(rest, t));
    assert Fresh([head] + rest, loadedAt) ==
           if loadedAt < a.deadline then [a] + Fresh(rest, loadedAt) else Fresh(rest, loadedAt);
    assert Live([a] + Fresh(rest, loadedAt), t) ==
           if t <= a.deadline then [a] + Live(Fresh(rest, loadedAt), t) else Live(Fresh(rest, loadedAt), t);
    assert Live([head] + rest, t) == if t <= head.deadline then [head] + Live(rest, t) else Live(rest, t);
  }

  lemma ReloadedLiveAt(c: Cache, want: set<string>, loadedAt: int, t: int, n: string)
    requires n in want && AllSurvive(c, want, loadedAt, t)
    requires n in c.addresses ==> DistinctIPs(c.addresses[n])
    ensures LiveAt(Reloaded(c, want, loadedAt), n, t) == AllTruncated(LiveAt(c, n, t))
  {
    if n in c.addresses && c.addresses[n] != [] {
      var list := c.addresses[n];
      assert forall i | 0 <= i < |list| :: list[i] in list;
      LoadedIsFresh([], list, loadedAt);
      assert [] + Fresh(list, loadedAt) == Fresh(list, loadedAt);
      FreshLive(list, loadedAt, t);
      var reloaded := Reloaded(c, want, loadedAt).addresses;
      assert AddressesOf(reloaded, n) == Fresh(list, loadedAt);
    }
  }

  /** A live record with a safe deadline comes back as it was. */
  lemma SafeIsExact(a: Address, loadedAt: int, t: int)
    requires SafeDeadline(a.deadline, loadedAt) && loadedAt <= t <= a.deadline
    ensures Truncated(a) == a
  {
  }

  lemma {:induction false} LiveMembers(list: seq<Address>, t: int)
    ensures forall a | a in Live(list, t) :: a in list && t <= a.deadline
  {
    if list != [] {
      LiveMembers(list[1..], t);
    }
  }

  lemma SafeListIsExact(c: Cache, want: set<string>, loadedAt: int, t: int, n: string)
    requires n in want && loadedAt <= t
    requires forall n, a | n in want && n in c.addresses && a in c.addresses[n] :: SafeDeadline(a.deadline, loadedAt)
    ensures AllTruncated(LiveAt(c, n, t)) == LiveAt(c, n, t)
  {
    if n in c.addresses {
      LiveMembers(c.addresses[n], t);
    }
    var live := LiveAt(c, n, t);
    forall i | 0 <= i < |live|
      ensures Truncated(live[i]) == live[i]
    {
      assert live[i] in live;
      SafeIsExact(live[i], loadedAt, t);
    }
  }

  lemma {:induction false} ReloadedWalk(c: Cache, want: set<string>, loadedAt: int, t: int, d: string, k: nat)
    requires d in want && AllSurvive(c, want, loadedAt, t)
    requires forall n | n in want && n in c.aliases :: c.aliases[n].target in want && c.aliases[n].target != n
    ensures Walk(LiveAliases(Reloaded(c, want, loadedAt).aliases, t), d, k) == Walk(LiveAliases(c.aliases, t), d, k)
    decreases k
  {
    if k > 0 {
      var reloaded := Reloaded(c, want, loadedAt).aliases;
      assert d in LiveAliases(reloaded, t) <==> d in LiveAliases(c.aliases, t);
      if d in LiveAliases(c.aliases, t) {
        assert LiveAliases(reloaded, t)[d].target == c.aliases[d].target;
        ReloadedWalk(c, want, loadedAt, t, c.aliases[d].target, k - 1);
      }
    }
  }

  lemma ReloadedHit(c: Cache, want: set<string>, loadedAt: int, t: int, d: string, k: nat)
    requires d in want && AllSurvive(c, want, loadedAt, t)
    requires forall n | n in want && n in c.aliases :: c.aliases[n].target in want && c.aliases[n].target != n
    requires forall n | n in c.addresses :: DistinctIPs(c.addresses[n])
    ensures HitAt(Reloaded(c, want, loadedAt), d, t, k) == HitAt(c, d, t, k)
    ensures HitAt(c, d, t, k) ==>
              var n := Walk(LiveAliases(c.aliases, t), d, k).value;
              && Walk(LiveAliases(Reloaded(c, want, loadedAt).aliases, t), d, k) == Some(n)
              && n in want && LiveAt(Reloaded(c, want, loadedAt), n, t) == AllTruncated(LiveAt(c, n, t))
  {
    ReloadedWalk(c, want, loadedAt, t, d, k);
    var w := Walk(LiveAliases(c.aliases, t), d, k);
    if w.Some? {
      LiveWalkIsWalk(c.aliases, t, d, k);
      WalkStaysIn(c.aliases, d, k, want);
      ReloadedLiveAt(c, want, loadedAt, t, w.value);
    }
  }

  /** A reloaded cache answers for every saved name as the original does, at every time the
      records survive to, with the deadlines cut to seconds. */
  lemma ReloadAnswers(c: Cache, want: set<string>, loadedAt: int, t: int, d: string)
    requires d in want && AllSurvive(c, want, loadedAt, t)
    requires forall n | n in want && n in c.aliases :: c.aliases[n].target in want && c.aliases[n].target != n
    requires forall n | n in c.addresses :: DistinctIPs(c.addresses[n])
    ensures Answer(Reloaded(c, want, loadedAt), d, t) == AllTruncated(Answer(c, d, t))
    ensures Answer(c, d, t) == [] || exists n :: n in want && Answer(c, d, t) == LiveAt(c, n, t)
  {
    var reloaded := Reloaded(c, want, loadedAt);
    forall k: nat
      ensures HitAt(reloaded, d, t, k) == HitAt(c, d, t, k)
    {
      ReloadedHit(c, want, loadedAt, t, d, k);
    }
    assert forall k: nat :: FirstAt(reloaded, d, t, k) == FirstAt(c, d, t, k);
    if k: nat :| FirstAt(c, d, t, k) {
      AnswerAt(c, d, t, k);
      AnswerAt(reloaded, d, t, k);
      ReloadedHit(c, want, loadedAt, t, d, k);
      assert Answer(c, d, t) == LiveAt(c, Walk(LiveAliases(c.aliases, t), d, k).value, t);
    } else {
      assert Answer(c, d, t) == [] && Answer(reloaded, d, t) == [];
    }
  }

  /** Save what `keep` accepts and load it: every kept name gets the answer it got before,
      with the same deadlines, at every later time, if every saved deadline is safe. */
  lemma SaveThenLoad(c: Cache, keep: string -> bool, want: set<string>, loadedAt: int, d: string)
    requires forall n :: n in want <==> InClosure(c, keep, n)
    requires Kept(c, keep, d)
    requires forall n | n in c.addresses :: DistinctIPs(c.addresses[n])
    requires forall n | n in c.aliases :: c.aliases[n].target != n
    requires forall n, a | n in want && n in c.addresses && a in c.addresses[n] :: SafeDeadline(a.deadline, loadedAt)
    requires forall n | n in want && n in c.aliases :: SafeDeadline(c.aliases[n].deadline, loadedAt)
    ensures forall t | loadedAt <= t :: Answer(Reloaded(c, want, loadedAt), d, t) == Answer(c, d, t)
  {
    KeptInClosure(c, keep, {d});
    forall n | n in want && n in c.aliases
      ensures c.aliases[n].target in want
    {
      NextInClosure(c, keep, n);
    }
    forall t | loadedAt <= t
      ensures Answer(Reloaded(c, want, loadedAt), d, t) == Answer(c, d, t)
    {
      forall deadline | SafeDeadline(deadline, loadedAt)
        ensures Survives(deadline, loadedAt, t)
      {
        SurvivesIffSafe(deadline, loadedAt);
      }
      ReloadAnswers(c, want, loadedAt, t, d);
      if n :| n in want && Answer(c, d, t) == LiveAt(c, n, t) {
        SafeListIsExact(c, want, loadedAt, t, n);
      }
    }
  }

  /** And no weaker condition on deadlines will do: a single record with an unsafe deadline
      is answered differently at some later time. */
  lemma UnsafeDeadlineIsNoticed(name: string, ip: IP, deadline: int, loadedAt: int)
    requires !SafeDeadline(deadline, loadedAt)
    ensures var c := Cache(map[name := [Address(ip, deadline)]], map[]);
            && loadedAt <= deadline
            && IPs(Answer(c, name, deadline)) == [ip]
            && Answer(Reloaded(c, {name}, loadedAt), name, deadline) == []
  {
    var list := [Address(ip, deadline)];
    var c := Cache(map[name := list], map[]);
    var reloaded := Reloaded(c, {name}, loadedAt);
    assert Live(list, deadline) == list;
    assert FirstAt(c, name, deadline, 0);
    AnswerAt(c, name, deadline, 0);
    LoadedIsFresh([], list, loadedAt);
    forall k: nat
      ensures !HitAt(reloaded, name, deadline, k)
    {
      if k == 0 {
        var at := Unix(deadline) * Ttl.SECOND;
        assert Fresh(list, loadedAt) == if loadedAt < at then [Address(ip, at)] else [];
        assert AddressesOf(reloaded.addresses, name) == [] + Fresh(list, loadedAt);
        assert LiveAt(reloaded, name, deadline) == [];
      } else {
        assert reloaded.aliases == map[];
      }
    }
    NoAnswer(reloaded, name, deadline);
  }
}

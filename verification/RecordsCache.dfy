/**
  The DNS records cache: addresses and CNAME aliases with deadlines, and a reverse index
  from each alias to the names pointing at it. Times are nanoseconds; a record is live up
  to and including its deadline.
 */
module RecordsCache {
  import opened Text
  import Ttl

  /** A canonical address: equal exactly when `net.IP.Equal` says so. */
  type IP = string

  datatype Address = Address(ip: IP, deadline: int)

  datatype Alias = Alias(target: string, deadline: int)

  /** The two forward maps. */
  datatype Cache = Cache(addresses: map<string, seq<Address>>, aliases: map<string, Alias>)

  ghost predicate NoDup<T(!new)>(s: seq<T>)
  {
    forall i, j | 0 <= i < j < |s| :: s[i] != s[j]
  }

  // ---- What the cache means ----

  function Live(list: seq<Address>, now: int): seq<Address>
  {
    if list == [] then []
    else (if now <= list[0].deadline then [list[0]] else []) + Live(list[1..], now)
  }

  /** The list at the positions, which ascend. */
  ghost predicate PickedAt(out: seq<Address>, list: seq<Address>, at: seq<nat>)
  {
    && |at| == |out|
    && (forall i | 0 <= i < |at| :: at[i] < |list| && out[i] == list[at[i]])
    && (forall i, j | 0 <= i < j < |at| :: at[i] < at[j])
  }

  /** Exactly the records of the list whose deadline is not over, in their order. */
  ghost predicate IsLive(out: seq<Address>, list: seq<Address>, now: int)
  {
    exists at: seq<nat> :: PickedAt(out, list, at) && forall i: nat | i < |list| :: i in at <==> now <= list[i].deadline
  }

  lemma {:induction false} LiveIsLive(list: seq<Address>, now: int)
    ensures IsLive(Live(list, now), list, now)
  {
    if list == [] {
      assert PickedAt([], list, []);
    } else {
      var rest := list[1..];
      LiveIsLive(rest, now);
      var at: seq<nat> :| PickedAt(Live(rest, now), rest, at)
                          && forall i: nat | i < |rest| :: i in at <==> now <= rest[i].deadline;
      LiveOneMore(list, now, at);
    }
  }

  /** The positions in the tail, in the whole list. */
  function Moved(at: seq<nat>): (moved: seq<nat>)
    ensures |moved| == |at| && forall i | 0 <= i < |at| :: moved[i] == at[i] + 1
  {
    seq(|at|, i requires 0 <= i < |at| => at[i] + 1)
  }

  lemma MovedHolds(at: seq<nat>, i: nat)
    ensures i in Moved(at) <==> i > 0 && i - 1 in at
  {
    if i in Moved(at) {
      var j :| 0 <= j < |at| && Moved(at)[j] == i;
      assert at[j] == i - 1;
    }
    if i > 0 && i - 1 in at {
      var j :| 0 <= j < |at| && at[j] == i - 1;
      assert Moved(at)[j] == i;
    }
  }

  lemma LiveOneMore(list: seq<Address>, now: int, at: seq<nat>)
    requires list != [] && PickedAt(Live(list[1..], now), list[1..], at)
    requires forall i: nat | i < |list[1..]| :: i in at <==> now <= list[1..][i].deadline
    ensures IsLive(Live(list, now), list, now)
  {
    var all := (if now <= list[0].deadline then [0] else []) + Moved(at);
    assert PickedAt(Live(list, now), list, all);
    forall i: nat | i < |list|
      ensures i in all <==> now <= list[i].deadline
    {
      MovedHolds(at, i);
      assert i > 0 ==> list[1..][i - 1] == list[i];
    }
  }

  function LiveAt(c: Cache, name: string, now: int): seq<Address>
  {
    if name in c.addresses then Live(c.addresses[name], now) else []
  }

  /** The name `k` aliases further on. */
  function Walk(aliases: map<string, Alias>, d: string, k: nat): Option<string>
    decreases k
  {
    if k == 0 then Some(d)
    else if d !in aliases then None
    else Walk(aliases, aliases[d].target, k - 1)
  }

  ghost predicate Reaches(aliases: map<string, Alias>, d: string, t: string)
  {
    exists k: nat :: Walk(aliases, d, k) == Some(t)
  }

  function LiveAliases(aliases: map<string, Alias>, now: int): map<string, Alias>
  {
    map d | d in aliases && now <= aliases[d].deadline :: aliases[d]
  }

  /** The first live addresses along the path of live aliases sit `k` aliases away. */
  predicate HitAt(c: Cache, d: string, now: int, k: nat)
  {
    var w := Walk(LiveAliases(c.aliases, now), d, k);
    w.Some? && LiveAt(c, w.value, now) != []
  }

  ghost predicate NoHitBefore(c: Cache, d: string, now: int, k: nat)
  {
    forall j: nat | j < k :: !HitAt(c, d, now, j)
  }

  ghost predicate FirstAt(c: Cache, d: string, now: int, k: nat)
  {
    HitAt(c, d, now, k) && NoHitBefore(c, d, now, k)
  }

  /** What a lookup answers: the live addresses at the first name that has any, or nothing
      when no name on the path, however long, has any. */
  ghost function Answer(c: Cache, d: string, now: int): seq<Address>
  {
    if k: nat :| FirstAt(c, d, now, k) then LiveAt(c, Walk(LiveAliases(c.aliases, now), d, k).value, now)
    else []
  }

  lemma FirstIsOne(c: Cache, d: string, now: int, j: nat, k: nat)
    requires FirstAt(c, d, now, j) && FirstAt(c, d, now, k)
    ensures j == k
  {
  }

  lemma AnswerAt(c: Cache, d: string, now: int, k: nat)
    requires FirstAt(c, d, now, k)
    ensures Answer(c, d, now) == LiveAt(c, Walk(LiveAliases(c.aliases, now), d, k).value, now)
  {
    forall j: nat | FirstAt(c, d, now, j)
      ensures j == k
    {
      FirstIsOne(c, d, now, j, k);
    }
  }

  lemma NoAnswer(c: Cache, d: string, now: int)
    requires forall k: nat :: !HitAt(c, d, now, k)
    ensures Answer(c, d, now) == []
  {
  }

  lemma {:induction false} FirstHitExists(c: Cache, d: string, now: int, k: nat) returns (first: nat)
    requires HitAt(c, d, now, k)
    ensures first <= k && FirstAt(c, d, now, first)
  {
    if j: nat :| j < k && HitAt(c, d, now, j) {
      first := FirstHitExists(c, d, now, j);
    } else {
      first := k;
    }
  }

  lemma {:induction false} WalkStep(aliases: map<string, Alias>, d: string, k: nat)
    ensures Walk(aliases, d, k + 1) ==
            match Walk(aliases, d, k)
            case None => None
            case Some(n) => if n in aliases then Some(aliases[n].target) else None
    decreases k
  {
    if k > 0 && d in aliases {
      WalkStep(aliases, aliases[d].target, k - 1);
    }
  }

  /** A set that holds `d` and is closed under aliases holds every name on its path. */
  lemma {:induction false} WalkStaysIn(aliases: map<string, Alias>, d: string, k: nat, s: set<string>)
    requires d in s && forall n | n in s && n in aliases :: aliases[n].target in s
    requires Walk(aliases, d, k).Some?
    ensures Walk(aliases, d, k).value in s
    decreases k
  {
    if k > 0 {
      WalkStaysIn(aliases, aliases[d].target, k - 1, s);
    }
  }

  lemma {:induction false} LiveWalkIsWalk(aliases: map<string, Alias>, now: int, d: string, k: nat)
    requires Walk(LiveAliases(aliases, now), d, k).Some?
    ensures Walk(aliases, d, k) == Walk(LiveAliases(aliases, now), d, k)
    decreases k
  {
    if k > 0 {
      LiveWalkIsWalk(aliases, now, aliases[d].target, k - 1);
    }
  }

  /** Whatever a lookup of `d` answers is stored under a name `t` that `d`'s aliases lead to,
      so `d` is among the names `GetAliases(t)` lists. */
  lemma AnswerComesFromReachable(c: Cache, d: string, now: int) returns (t: string)
    requires Answer(c, d, now) != []
    ensures Reaches(c.aliases, d, t) && t in c.addresses && Answer(c, d, now) == Live(c.addresses[t], now)
  {
    if k: nat :| FirstAt(c, d, now, k) {
      AnswerAt(c, d, now, k);
      LiveWalkIsWalk(c.aliases, now, d, k);
      t := Walk(LiveAliases(c.aliases, now), d, k).value;
    }
  }

  /** A path of aliases whose deadlines are not over. */
  ghost predicate LivePath(aliases: map<string, Alias>, path: seq<string>, d: string, now: int)
  {
    && path != [] && path[0] == d
    && forall i | 0 <= i < |path| - 1 ::
         path[i] in aliases && now <= aliases[path[i]].deadline && aliases[path[i]].target == path[i + 1]
  }

  ghost predicate NoneLive(c: Cache, n: string, now: int)
  {
    n in c.addresses ==> forall a | a in c.addresses[n] :: a.deadline < now
  }

  /** The path leads to the first name on it that has live addresses, and these are all of them. */
  ghost predicate FoundBy(c: Cache, path: seq<string>, d: string, now: int, out: seq<Address>)
  {
    && LivePath(c.aliases, path, d, now) && out != []
    && (forall i | 0 <= i < |path| - 1 :: NoneLive(c, path[i], now))
    && path[|path| - 1] in c.addresses && IsLive(out, c.addresses[path[|path| - 1]], now)
  }

  /** What a lookup has to answer, in terms of the stored records. */
  ghost predicate IsAnswer(c: Cache, d: string, now: int, out: seq<Address>)
  {
    || (exists path :: FoundBy(c, path, d, now, out))
    || (out == [] && forall path | LivePath(c.aliases, path, d, now) :: NoneLive(c, path[|path| - 1], now))
  }

  lemma {:induction false} PathOfWalk(aliases: map<string, Alias>, d: string, now: int, k: nat)
    returns (path: seq<string>)
    requires Walk(LiveAliases(aliases, now), d, k).Some?
    ensures LivePath(aliases, path, d, now) && |path| == k + 1
    ensures forall i | 0 <= i <= k :: Walk(LiveAliases(aliases, now), d, i) == Some(path[i])
    decreases k
  {
    var live := LiveAliases(aliases, now);
    if k == 0 {
      path := [d];
    } else {
      var rest := PathOfWalk(aliases, live[d].target, now, k - 1);
      path := [d] + rest;
      forall i | 0 <= i <= k
        ensures Walk(live, d, i) == Some(path[i])
      {
        if i > 0 {
          assert Walk(live, d, i) == Walk(live, live[d].target, i - 1);
        }
      }
    }
  }

  lemma {:induction false} WalkOfPath(aliases: map<string, Alias>, path: seq<string>, d: string, now: int, k: nat)
    requires LivePath(aliases, path, d, now) && k < |path|
    ensures Walk(LiveAliases(aliases, now), d, k) == Some(path[k])
    decreases k
  {
    if k > 0 {
      assert path[1..][0] == aliases[d].target;
      WalkOfPath(aliases, path[1..], aliases[d].target, now, k - 1);
    }
  }

  lemma NoneLiveIff(c: Cache, n: string, now: int)
    ensures NoneLive(c, n, now) <==> LiveAt(c, n, now) == []
  {
    if n in c.addresses {
      LiveMembers(c.addresses[n], now);
      if LiveAt(c, n, now) != [] {
        assert LiveAt(c, n, now)[0] in Live(c.addresses[n], now);
      }
    }
  }

  lemma AnswerIsAnswer(c: Cache, d: string, now: int)
    ensures IsAnswer(c, d, now, Answer(c, d, now))
  {
    if k: nat :| FirstAt(c, d, now, k) {
      AnswerAt(c, d, now, k);
      var path := PathOfWalk(c.aliases, d, now, k);
      LiveIsLive(c.addresses[path[k]], now);
      forall i | 0 <= i < k
        ensures NoneLive(c, path[i], now)
      {
        NoneLiveIff(c, path[i], now);
        assert !HitAt(c, d, now, i);
      }
      assert FoundBy(c, path, d, now, Answer(c, d, now));
    } else {
      forall path | LivePath(c.aliases, path, d, now)
        ensures NoneLive(c, path[|path| - 1], now)
      {
        var k := |path| - 1;
        WalkOfPath(c.aliases, path, d, now, k);
        NoneLiveIff(c, path[k], now);
        if HitAt(c, d, now, k) {
          var first := FirstHitExists(c, d, now, k);
        }
      }
    }
  }

  // ---- The reverse index ----

  ghost predicate IsInverse(aliases: map<string, Alias>, reverse: map<string, seq<string>>)
  {
    && (forall a | a in reverse :: reverse[a] != [] && NoDup(reverse[a]))
    && (forall a, d | a in reverse && d in reverse[a] :: d in aliases && aliases[d].target == a)
    && (forall d | d in aliases :: aliases[d].target in reverse && d in reverse[aliases[d].target])
  }

  function Pointing(reverse: map<string, seq<string>>, a: string): seq<string>
  {
    if a in reverse then reverse[a] else []
  }

  /** `after` is `before` without `d` among the names pointing at `a`. */
  ghost predicate Unpointed(before: map<string, seq<string>>, after: map<string, seq<string>>, a: string, d: string)
  {
    && (forall x | x != a :: (x in after <==> x in before) && (x in before ==> after[x] == before[x]))
    && (forall x :: x in Pointing(after, a) <==> x in Pointing(before, a) && x != d)
    && NoDup(Pointing(after, a))
    && (a in after ==> after[a] != [])
  }

  function TargetsOf(aliases: map<string, Alias>): set<string>
  {
    set d | d in aliases :: aliases[d].target
  }

  class Records {
    var addresses: map<string, seq<Address>>
    var aliases: map<string, Alias>
    var reverseAliases: map<string, seq<string>>
    var dirty: bool

    ghost predicate Valid()
      reads this
    {
      && IsInverse(aliases, reverseAliases)
      && (forall n | n in addresses :: addresses[n] != [] && DistinctIPs(addresses[n]))
      && (forall n | n in aliases :: aliases[n].target != n)
    }

    function View(): Cache
      reads this
    {
      Cache(addresses, aliases)
    }

    constructor ()
      ensures Valid() && View() == Cache(map[], map[]) && !dirty
    {
      addresses, aliases, reverseAliases, dirty := map[], map[], map[], false;
    }

    method AddAlias(domainName: string, alias: string, ttl: nat, now: int)
      requires Valid()
      modifies this
      ensures Valid() && addresses == old(addresses)
      ensures aliases == if domainName == alias then old(aliases)
                         else old(aliases)[domainName := Alias(alias, now + ttl * Ttl.SECOND)]
      ensures dirty == (old(dirty) || domainName != alias)
    {
      if domainName == alias {
        return;
      }
      AddAliasLocked(domainName, alias, now + ttl * Ttl.SECOND);
      dirty := true;
    }

    method AddAliasLocked(domainName: string, alias: string, deadline: int)
      requires Valid()
      modifies this`aliases, this`reverseAliases
      ensures Valid()
      ensures aliases == if domainName == alias then old(aliases)
                         else old(aliases)[domainName := Alias(alias, deadline)]
    {
      if domainName == alias {
        return;
      }
      ReplacedEntry(aliases, domainName, Alias(alias, deadline));
      if domainName in aliases {
        Forget(domainName);
      }
      Point(domainName, alias, deadline);
    }

    lemma ReplacedEntry(aliases: map<string, Alias>, name: string, a: Alias)
      ensures (aliases - {name})[name := a] == aliases[name := a]
    {
    }

    /** Adds a name that has no alias yet to both maps. */
    method Point(name: string, alias: string, deadline: int)
      requires Valid() && name !in aliases && name != alias
      modifies this`aliases, this`reverseAliases
      ensures Valid() && aliases == old(aliases)[name := Alias(alias, deadline)]
    {
      PointKeepsInverse(aliases, reverseAliases, name, alias, deadline);
      var pointing := if alias in reverseAliases then reverseAliases[alias] else [];
      aliases := aliases[name := Alias(alias, deadline)];
      reverseAliases := reverseAliases[alias := pointing + [name]];
    }

    /** Takes a name out of the index and out of the alias map. */
    method Forget(name: string)
      requires Valid() && name in aliases
      modifies this`aliases, this`reverseAliases
      ensures Valid() && aliases == old(aliases) - {name}
    {
      ghost var index := reverseAliases;
      var target := aliases[name].target;
      RemoveReverseAlias(target, name);
      UnpointKeepsInverse(aliases, index, reverseAliases, target, name);
      aliases := aliases - {name};
    }

    /** Finds the entry, overwrites it with the last one and cuts the list. */
    method RemoveReverseAlias(alias: string, domainName: string)
      requires NoDup(Pointing(reverseAliases, alias))
      requires alias in reverseAliases ==> reverseAliases[alias] != []
      modifies this`reverseAliases
      ensures Unpointed(old(reverseAliases), reverseAliases, alias, domainName)
    {
      var domains := if alias in reverseAliases then reverseAliases[alias] else [];
      var rest := domains;
      for i := 0 to |domains|
        invariant rest == domains && domainName !in domains[..i] && reverseAliases == old(reverseAliases)
      {
        if domains[i] == domainName {
          var last := |domains| - 1;
          rest := domains[i := domains[last]][..last];
          SwapRemove(domains, i);
          reverseAliases := reverseAliases[alias := rest];
          break;
        }
      }
      assert domains[..|domains|] == domains;
      if rest == [] {
        reverseAliases := reverseAliases - {alias};
      }
    }

    method AddAddress(domainName: string, addr: IP, ttl: nat, now: int)
      requires Valid()
      modifies this
      ensures Valid() && aliases == old(aliases) && dirty
      ensures addresses == old(addresses)[domainName :=
                             Stored(AddressesOf(old(addresses), domainName), addr, now + ttl * Ttl.SECOND)]
    {
      AddAddressLocked(domainName, addr, now + ttl * Ttl.SECOND);
      dirty := true;
    }

    method AddAddressLocked(domainName: string, addr: IP, deadline: int)
      requires Valid()
      modifies this`addresses
      ensures Valid()
      ensures addresses == old(addresses)[domainName := Stored(AddressesOf(old(addresses), domainName), addr, deadline)]
      ensures IsStored(AddressesOf(old(addresses), domainName), addresses[domainName], addr, deadline)
    {
      var list := if domainName in addresses then addresses[domainName] else [];
      StoredKeepsDistinct(list, addr, deadline);
      var i := FindAddress(list, addr);
      if i < |list| {
        StoredInPlace(list, i, addr, deadline);
        addresses := addresses[domainName := list[i := list[i].(deadline := deadline)]];
        return;
      }
      StoredAtEnd(list, addr, deadline);
      addresses := addresses[domainName := list + [Address(addr, deadline)]];
    }

    static method FindAddress(list: seq<Address>, addr: IP) returns (i: nat)
      ensures i <= |list| && (i < |list| ==> list[i].ip == addr)
      ensures forall j | 0 <= j < i :: list[j].ip != addr
    {
      i := 0;
      while i < |list| && list[i].ip != addr
        invariant i <= |list| && forall j | 0 <= j < i :: list[j].ip != addr
      {
        i := i + 1;
      }
    }

    /** Breadth-first over the reverse index. */
    method GetAliases(domainName: string) returns (result: seq<string>)
      requires Valid()
      ensures NoDup(result) && result != [] && result[0] == domainName
      ensures forall d :: d in result <==> Reaches(aliases, d, domainName)
    {
      result := [domainName];
      var queue := [domainName];
      var seen := {domainName};
      ghost var done := [];
      SearchStart(aliases, reverseAliases, domainName);
      while |queue| > 0
        invariant Searching(result, done, queue, seen, aliases, reverseAliases, domainName)
        decreases |aliases.Keys + {domainName}| - |done|
      {
        FoundFits(result, seen, aliases, domainName);
        var current := queue[0];
        InIndex(aliases, reverseAliases, current);
        assert current == result[|done|];
        var list := if current in reverseAliases then reverseAliases[current] else [];
        var more, all := Discover(list, result, seen, current, domainName);
        SearchStep(result, done, queue, seen, more, all, aliases, reverseAliases, domainName);
        done := done + [current];
        queue := queue[1..] + more;
        result := result + more;
        seen := all;
      }
      ClosedIsComplete(aliases, reverseAliases, domainName, result, seen);
    }

    /** The names pointing at `current` that have not been seen. */
    method Discover(list: seq<string>, ghost result: seq<string>, known: set<string>,
                    ghost current: string, ghost t: string)
      returns (more: seq<string>, seen: set<string>)
      requires Found(result, known, aliases, t) && current in known
      requires forall d | d in list :: d in aliases && aliases[d].target == current
      ensures Found(result + more, seen, aliases, t) && known <= seen
      ensures forall d | d in list :: d in seen
    {
      more, seen := [], known;
      assert result + [] == result;
      for i := 0 to |list|
        invariant Found(result + more, seen, aliases, t) && known <= seen
        invariant forall j | 0 <= j < i :: list[j] in seen
      {
        var pointing := list[i];
        if pointing !in seen {
          PointingReaches(aliases, pointing, current, t);
          FoundOneMore(result + more, seen, aliases, t, pointing);
          assert result + more + [pointing] == result + (more + [pointing]);
          seen := seen + {pointing};
          more := more + [pointing];
        }
      }
    }

    /** Follows live aliases until a name has live addresses, the path ends, or it loops. */
    method GetAddresses(domain: string, now: int) returns (out: seq<Address>)
      requires Valid()
      ensures out == Answer(View(), domain, now) && IsAnswer(View(), domain, now, out)
    {
      AnswerIsAnswer(View(), domain, now);
      var domainName := domain;
      var seen := {domain};
      ghost var k := 0;
      ghost var view := View();
      ghost var live := LiveAliases(aliases, now);
      ghost var names := {domain} + TargetsOf(aliases);
      while true
        invariant Walk(live, domain, k) == Some(domainName)
        invariant NoHitBefore(view, domain, now, k)
        invariant seen <= names
        invariant OnPath(live, domain, k, seen)
        decreases names - seen
      {
        var list := if domainName in addresses then addresses[domainName] else [];
        var valid := Filter(list, now);
        HitHere(view, domain, now, k, domainName);
        if |valid| > 0 {
          AnswerAt(view, domain, now, k);
          return valid;
        }
        WalkStep(live, domain, k);
        if domainName !in aliases || now > aliases[domainName].deadline {
          PathEnds(view, domain, now, k);
          return [];
        }
        var next := aliases[domainName].target;
        if next in seen {
          PathLoops(view, domain, now, k, seen);
          return [];
        }
        PathGrows(live, domain, k, seen, domainName);
        assert next in TargetsOf(aliases);
        seen := seen + {next};
        domainName := next;
        k := k + 1;
      }
    }

    static method Filter(list: seq<Address>, now: int) returns (valid: seq<Address>)
      ensures valid == Live(list, now)
    {
      valid := [];
      for i := 0 to |list|
        invariant Live(list, now) == valid + Live(list[i..], now)
      {
        assert list[i..][0] == list[i] && list[i..][1..] == list[i + 1..];
        if now <= list[i].deadline {
          valid := valid + [list[i]];
        }
      }
    }

    /** Removes what has expired. */
    method CleanupRecords(now: int)
      requires Valid()
      modifies this`addresses, this`aliases, this`reverseAliases
      ensures Valid() && View() == Cleaned(old(View()), now) && IsCleaned(old(View()), View(), now)
    {
      CleanedIsCleaned(View(), now);
      CleanupAddresses(now);
      var todo := aliases.Keys;
      ghost var before := aliases;
      while todo != {}
        invariant todo <= before.Keys && Valid() && addresses == KeptAddresses(old(addresses), {}, now)
        invariant aliases == KeptAliases(before, todo, now)
      {
        var name :| name in todo;
        KeptAliasesStep(before, todo, now, name);
        todo := todo - {name};
        if now > aliases[name].deadline {
          Forget(name);
        }
      }
    }

    method CleanupAddresses(now: int)
      requires Valid()
      modifies this`addresses
      ensures Valid() && addresses == KeptAddresses(old(addresses), {}, now)
    {
      var todo := addresses.Keys;
      ghost var before := addresses;
      while todo != {}
        invariant todo <= before.Keys && Valid()
        invariant addresses == KeptAddresses(before, todo, now)
      {
        var name :| name in todo;
        KeptAddressesStep(before, todo, now, name);
        todo := todo - {name};
        var kept := Filter(addresses[name], now);
        LiveKeepsDistinct(addresses[name], now);
        if |kept| == 0 {
          addresses := addresses - {name};
        } else {
          addresses := addresses[name := kept];
        }
      }
    }
  }

  // ---- Address lists ----

  ghost predicate DistinctIPs(list: seq<Address>)
  {
    forall i, j | 0 <= i < j < |list| :: list[i].ip != list[j].ip
  }

  function AddressesOf(addresses: map<string, seq<Address>>, name: string): seq<Address>
  {
    if name in addresses then addresses[name] else []
  }

  /** A known address gets the new deadline, a new one goes to the end. */
  function Stored(list: seq<Address>, ip: IP, deadline: int): seq<Address>
  {
    if list == [] then [Address(ip, deadline)]
    else if list[0].ip == ip then [Address(ip, deadline)] + list[1..]
    else [list[0]] + Stored(list[1..], ip, deadline)
  }

  /** The record of the address has the new deadline, at its place or at the end; the others
      are as they were. */
  ghost predicate IsStored(list: seq<Address>, out: seq<Address>, ip: IP, deadline: int)
  {
    || (out == list + [Address(ip, deadline)] && forall i | 0 <= i < |list| :: list[i].ip != ip)
    || (exists i | 0 <= i < |list| :: list[i].ip == ip && out == list[i := Address(ip, deadline)])
  }

  lemma {:induction false} StoredIPs(list: seq<Address>, ip: IP, deadline: int)
    ensures |Stored(list, ip, deadline)| >= |list| && Stored(list, ip, deadline) != []
    ensures forall a | a in Stored(list, ip, deadline) :: a == Address(ip, deadline) || a in list
  {
    if list != [] && list[0].ip != ip {
      StoredIPs(list[1..], ip, deadline);
    }
  }

  lemma {:induction false} StoredKeepsDistinct(list: seq<Address>, ip: IP, deadline: int)
    requires DistinctIPs(list)
    ensures Stored(list, ip, deadline) != [] && DistinctIPs(Stored(list, ip, deadline))
  {
    if list != [] && list[0].ip != ip {
      StoredKeepsDistinct(list[1..], ip, deadline);
      StoredIPs(list[1..], ip, deadline);
      var rest := Stored(list[1..], ip, deadline);
      forall j | 0 <= j < |rest|
        ensures rest[j].ip != list[0].ip
      {
        assert rest[j] in rest;
      }
    }
  }

  lemma {:induction false} StoredInPlace(list: seq<Address>, i: nat, ip: IP, deadline: int)
    requires i < |list| && list[i].ip == ip && forall j | 0 <= j < i :: list[j].ip != ip
    ensures Stored(list, ip, deadline) == list[i := list[i].(deadline := deadline)]
  {
    if i > 0 {
      StoredInPlace(list[1..], i - 1, ip, deadline);
      assert list[i := Address(ip, deadline)] == [list[0]] + list[1..][i - 1 := Address(ip, deadline)];
    }
  }

  lemma {:induction false} StoredAtEnd(list: seq<Address>, ip: IP, deadline: int)
    requires forall j | 0 <= j < |list| :: list[j].ip != ip
    ensures Stored(list, ip, deadline) == list + [Address(ip, deadline)]
  {
    if list != [] {
      StoredAtEnd(list[1..], ip, deadline);
      assert list + [Address(ip, deadline)] == [list[0]] + (list[1..] + [Address(ip, deadline)]);
    }
  }

  lemma {:induction false} LiveMembers(list: seq<Address>, now: int)
    ensures forall a :: a in Live(list, now) <==> a in list && now <= a.deadline
  {
    if list != [] {
      LiveMembers(list[1..], now);
      assert list == [list[0]] + list[1..];
    }
  }

  lemma {:induction false} LiveKeepsDistinct(list: seq<Address>, now: int)
    requires DistinctIPs(list)
    ensures DistinctIPs(Live(list, now))
  {
    if list != [] {
      LiveKeepsDistinct(list[1..], now);
      LiveMembers(list[1..], now);
      var rest := Live(list[1..], now);
      forall j | 0 <= j < |rest|
        ensures rest[j].ip != list[0].ip
      {
        assert rest[j] in list[1..];
      }
    }
  }

  // ---- Reverse index lemmas ----

  lemma SwapRemove(s: seq<string>, i: nat)
    requires i < |s| && NoDup(s)
    ensures var rest := s[i := s[|s| - 1]][..|s| - 1];
            NoDup(rest) && forall x :: x in rest <==> x in s && x != s[i]
  {
    var last := |s| - 1;
    var rest := s[i := s[last]][..last];
    forall x | x in s && x != s[i]
      ensures x in rest
    {
      var j :| 0 <= j < |s| && s[j] == x;
      assert if j == last then rest[i] == x else rest[j] == x;
    }
  }

  lemma PointKeepsInverse(aliases: map<string, Alias>, reverse: map<string, seq<string>>,
                          d: string, a: string, deadline: int)
    requires IsInverse(aliases, reverse) && d !in aliases
    ensures IsInverse(aliases[d := Alias(a, deadline)], reverse[a := Pointing(reverse, a) + [d]])
  {
    assert d !in Pointing(reverse, a);
  }

  lemma UnpointKeepsInverse(aliases: map<string, Alias>, before: map<string, seq<string>>,
                            after: map<string, seq<string>>, a: string, d: string)
    requires IsInverse(aliases, before) && d in aliases && aliases[d].target == a
    requires Unpointed(before, after, a, d)
    ensures IsInverse(aliases - {d}, after)
  {
    var left := aliases - {d};
    forall n | n in left
      ensures left[n].target in after && n in after[left[n].target]
    {
      assert n in Pointing(before, left[n].target);
      assert n in Pointing(after, left[n].target);
    }
    forall b, n | b in after && n in after[b]
      ensures n in left && left[n].target == b
    {
      assert n in Pointing(after, b);
      assert n in Pointing(before, b);
    }
    forall b | b in after
      ensures after[b] != [] && NoDup(after[b])
    {
      if b == a {
        assert after[b] == Pointing(after, a);
      }
    }
  }

  // ---- Breadth-first search ----

  ghost predicate Found(result: seq<string>, seen: set<string>, aliases: map<string, Alias>, t: string)
  {
    && NoDup(result)
    && (forall d :: d in seen <==> d in result)
    && (forall d | d in seen :: Reaches(aliases, d, t) && d in aliases.Keys + {t})
  }

  ghost predicate Covered(reverse: map<string, seq<string>>, a: string, seen: set<string>)
  {
    forall d | d in Pointing(reverse, a) :: d in seen
  }

  ghost predicate AllCovered(reverse: map<string, seq<string>>, done: seq<string>, seen: set<string>)
  {
    forall i | 0 <= i < |done| :: Covered(reverse, done[i], seen)
  }

  lemma CoveredMore(reverse: map<string, seq<string>>, done: seq<string>, before: set<string>,
                    current: string, seen: set<string>)
    requires AllCovered(reverse, done, before) && before <= seen && Covered(reverse, current, seen)
    ensures AllCovered(reverse, done + [current], seen)
  {
    forall i | 0 <= i < |done|
      ensures Covered(reverse, done[i], seen)
    {
      assert Covered(reverse, done[i], before);
    }
  }

  ghost predicate Searching(result: seq<string>, done: seq<string>, queue: seq<string>, seen: set<string>,
                            aliases: map<string, Alias>, reverse: map<string, seq<string>>, t: string)
  {
    && result == done + queue && result != [] && result[0] == t
    && Found(result, seen, aliases, t)
    && AllCovered(reverse, done, seen)
  }

  lemma SearchStart(aliases: map<string, Alias>, reverse: map<string, seq<string>>, t: string)
    ensures Searching([t], [], [t], {t}, aliases, reverse, t)
  {
    assert Walk(aliases, t, 0) == Some(t);
    assert [t] == [] + [t];
  }

  lemma InIndex(aliases: map<string, Alias>, reverse: map<string, seq<string>>, a: string)
    requires IsInverse(aliases, reverse)
    ensures forall d | d in Pointing(reverse, a) :: d in aliases && aliases[d].target == a
  {
  }

  lemma Advance(done: seq<string>, queue: seq<string>, more: seq<string>)
    requires queue != []
    ensures done + queue + more == done + [queue[0]] + (queue[1..] + more)
  {
  }

  lemma SearchStep(result: seq<string>, done: seq<string>, queue: seq<string>, seen: set<string>,
                   more: seq<string>, all: set<string>,
                   aliases: map<string, Alias>, reverse: map<string, seq<string>>, t: string)
    requires Searching(result, done, queue, seen, aliases, reverse, t) && queue != []
    requires Found(result + more, all, aliases, t) && seen <= all && Covered(reverse, queue[0], all)
    ensures Searching(result + more, done + [queue[0]], queue[1..] + more, all, aliases, reverse, t)
  {
    CoveredMore(reverse, done, seen, queue[0], all);
    Advance(done, queue, more);
  }

  lemma FoundOneMore(result: seq<string>, seen: set<string>, aliases: map<string, Alias>, t: string, d: string)
    requires Found(result, seen, aliases, t) && d !in seen && d in aliases && Reaches(aliases, d, t)
    ensures Found(result + [d], seen + {d}, aliases, t)
  {
    assert forall i | 0 <= i < |result| :: result[i] in seen;
  }

  lemma {:induction false} SizeOfNoDup(s: seq<string>, all: set<string>)
    requires NoDup(s) && forall x | x in s :: x in all
    ensures |s| <= |all|
  {
    if s != [] {
      var rest := s[1..];
      assert s[0] in all && s[0] !in rest;
      assert forall x | x in rest :: x in s;
      SizeOfNoDup(rest, all - {s[0]});
    }
  }

  lemma FoundFits(result: seq<string>, seen: set<string>, aliases: map<string, Alias>, t: string)
    requires Found(result, seen, aliases, t)
    ensures |result| <= |aliases.Keys + {t}|
  {
    SizeOfNoDup(result, aliases.Keys + {t});
  }

  lemma PointingReaches(aliases: map<string, Alias>, d: string, current: string, t: string)
    requires d in aliases && aliases[d].target == current && Reaches(aliases, current, t)
    ensures Reaches(aliases, d, t)
  {
    var k: nat :| Walk(aliases, current, k) == Some(t);
    assert Walk(aliases, d, k + 1) == Some(t);
  }

  lemma {:induction false} ReachingIsSeen(aliases: map<string, Alias>, reverse: map<string, seq<string>>,
                                          t: string, seen: set<string>, d: string, k: nat)
    requires IsInverse(aliases, reverse) && t in seen
    requires forall x | x in seen :: Covered(reverse, x, seen)
    requires Walk(aliases, d, k) == Some(t)
    ensures d in seen
    decreases k
  {
    if k > 0 {
      ReachingIsSeen(aliases, reverse, t, seen, aliases[d].target, k - 1);
      assert d in Pointing(reverse, aliases[d].target);
    }
  }

  lemma ClosedIsComplete(aliases: map<string, Alias>, reverse: map<string, seq<string>>, t: string,
                         result: seq<string>, seen: set<string>)
    requires IsInverse(aliases, reverse) && Found(result, seen, aliases, t) && t in seen
    requires AllCovered(reverse, result, seen)
    ensures NoDup(result) && forall d :: d in result <==> Reaches(aliases, d, t)
  {
    assert forall x | x in seen :: x in result && Covered(reverse, x, seen);
    forall d | Reaches(aliases, d, t)
      ensures d in result
    {
      var k: nat :| Walk(aliases, d, k) == Some(t);
      ReachingIsSeen(aliases, reverse, t, seen, d, k);
    }
  }

  // ---- Following a path ----

  /** `seen` is the set of the first `k + 1` names on the path. */
  ghost predicate OnPath(live: map<string, Alias>, d: string, k: nat, seen: set<string>)
  {
    && (forall j: nat | j <= k :: Walk(live, d, j).Some? && Walk(live, d, j).value in seen)
    && (forall n | n in seen :: exists j: nat :: j <= k && Walk(live, d, j) == Some(n))
  }

  lemma HitHere(c: Cache, d: string, now: int, k: nat, name: string)
    requires Walk(LiveAliases(c.aliases, now), d, k) == Some(name) && NoHitBefore(c, d, now, k)
    ensures if LiveAt(c, name, now) == [] then NoHitBefore(c, d, now, k + 1) else FirstAt(c, d, now, k)
  {
    assert HitAt(c, d, now, k) <==> LiveAt(c, name, now) != [];
  }

  lemma PathGrows(live: map<string, Alias>, d: string, k: nat, seen: set<string>, current: string)
    requires OnPath(live, d, k, seen) && Walk(live, d, k) == Some(current) && current in live
    ensures Walk(live, d, k + 1) == Some(live[current].target)
    ensures OnPath(live, d, k + 1, seen + {live[current].target})
  {
    WalkStep(live, d, k);
  }

  lemma {:induction false} WalkEnded(live: map<string, Alias>, d: string, k: nat, j: nat)
    requires Walk(live, d, k).None? && k <= j
    ensures Walk(live, d, j).None?
    decreases j
  {
    if k < j {
      WalkEnded(live, d, k, j - 1);
      WalkStep(live, d, j - 1);
    }
  }

  lemma PathEnds(c: Cache, d: string, now: int, k: nat)
    requires Walk(LiveAliases(c.aliases, now), d, k + 1).None?
    requires forall j: nat | j <= k :: !HitAt(c, d, now, j)
    ensures Answer(c, d, now) == []
  {
    forall j: nat
      ensures !HitAt(c, d, now, j)
    {
      if j > k {
        WalkEnded(LiveAliases(c.aliases, now), d, k + 1, j);
      }
    }
    NoAnswer(c, d, now);
  }

  lemma PathLoops(c: Cache, d: string, now: int, k: nat, seen: set<string>)
    requires OnPath(LiveAliases(c.aliases, now), d, k, seen)
    requires forall j: nat | j <= k :: !HitAt(c, d, now, j)
    requires Walk(LiveAliases(c.aliases, now), d, k + 1).Some?
             && Walk(LiveAliases(c.aliases, now), d, k + 1).value in seen
    ensures Answer(c, d, now) == []
  {
    var live := LiveAliases(c.aliases, now);
    forall n | n in seen && n in live
      ensures live[n].target in seen
    {
      var j: nat :| j <= k && Walk(live, d, j) == Some(n);
      WalkStep(live, d, j);
      assert j < k ==> Walk(live, d, j + 1).value in seen;
    }
    forall j: nat
      ensures !HitAt(c, d, now, j)
    {
      if Walk(live, d, j).Some? {
        assert Walk(live, d, 0) == Some(d);
        WalkStaysIn(live, d, j, seen);
        var i: nat :| i <= k && Walk(live, d, i) == Walk(live, d, j);
        assert !HitAt(c, d, now, i);
      }
    }
    NoAnswer(c, d, now);
  }

  // ---- Cleanup ----

  /** The addresses when only the names in `todo` are still to be cleaned. */
  function KeptAddresses(addresses: map<string, seq<Address>>, todo: set<string>, now: int): map<string, seq<Address>>
  {
    map n | n in addresses && (n in todo || Live(addresses[n], now) != []) ::
      if n in todo then addresses[n] else Live(addresses[n], now)
  }

  lemma KeptAddressesStep(addresses: map<string, seq<Address>>, todo: set<string>, now: int, name: string)
    requires name in todo && name in addresses
    ensures var kept := KeptAddresses(addresses, todo, now);
            && name in kept && kept[name] == addresses[name]
            && KeptAddresses(addresses, todo - {name}, now) ==
               if Live(addresses[name], now) == [] then kept - {name} else kept[name := Live(addresses[name], now)]
  {
  }

  function KeptAliases(aliases: map<string, Alias>, todo: set<string>, now: int): map<string, Alias>
  {
    map d | d in aliases && (d in todo || now <= aliases[d].deadline) :: aliases[d]
  }

  lemma KeptAliasesStep(aliases: map<string, Alias>, todo: set<string>, now: int, name: string)
    requires name in todo && name in aliases
    ensures var kept := KeptAliases(aliases, todo, now);
            && name in kept && kept[name] == aliases[name]
            && KeptAliases(aliases, todo - {name}, now) ==
               if now > aliases[name].deadline then kept - {name} else kept
  {
  }

  function Cleaned(c: Cache, now: int): Cache
  {
    Cache(KeptAddresses(c.addresses, {}, now), KeptAliases(c.aliases, {}, now))
  }

  /** Exactly the records whose deadline is over are gone, and names left without any. */
  ghost predicate IsCleaned(before: Cache, after: Cache, now: int)
  {
    && (forall n :: n in after.addresses <==> n in before.addresses && !NoneLive(before, n, now))
    && (forall n | n in after.addresses ::
          n in before.addresses && IsLive(after.addresses[n], before.addresses[n], now))
    && (forall d :: d in after.aliases <==> d in before.aliases && now <= before.aliases[d].deadline)
    && (forall d | d in after.aliases :: d in before.aliases && after.aliases[d] == before.aliases[d])
  }

  lemma CleanedIsCleaned(c: Cache, now: int)
    ensures IsCleaned(c, Cleaned(c, now), now)
  {
    forall n | n in c.addresses
      ensures NoneLive(c, n, now) <==> Live(c.addresses[n], now) == []
      ensures IsLive(Live(c.addresses[n], now), c.addresses[n], now)
    {
      NoneLiveIff(c, n, now);
      LiveIsLive(c.addresses[n], now);
    }
  }

  lemma {:induction false} LiveOfLive(list: seq<Address>, now: int, later: int)
    requires now <= later
    ensures Live(Live(list, now), later) == Live(list, later)
  {
    if list != [] {
      LiveOfLive(list[1..], now, later);
      if now <= list[0].deadline {
        assert Live(list, now)[1..] == Live(list[1..], now);
      } else {
        assert Live(list, now) == Live(list[1..], now);
      }
    }
  }

  /** Cleaning up changes no answer, now or later. */
  lemma CleanupKeepsAnswers(c: Cache, now: int, later: int, d: string)
    requires now <= later
    ensures Answer(Cleaned(c, now), d, later) == Answer(c, d, later)
  {
    var cleaned := Cleaned(c, now);
    assert LiveAliases(cleaned.aliases, later) == LiveAliases(c.aliases, later);
    forall n
      ensures LiveAt(cleaned, n, later) == LiveAt(c, n, later)
    {
      if n in c.addresses {
        LiveOfLive(c.addresses[n], now, later);
      }
    }
    assert forall k: nat :: HitAt(cleaned, d, later, k) == HitAt(c, d, later, k);
    assert forall k: nat :: FirstAt(cleaned, d, later, k) == FirstAt(c, d, later, k);
    if k: nat :| FirstAt(c, d, later, k) {
      AnswerAt(c, d, later, k);
      AnswerAt(cleaned, d, later, k);
    }
  }
}

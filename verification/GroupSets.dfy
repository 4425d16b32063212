/**
  The address sets of one group and one address family: the main set, the mirror of its
  permanent networks, and the cache of its permanent single addresses. What a group wants
  in its set comes from its subnet rules and from the DNS records its other rules match.
 */
module GroupSets {
  import opened Text
  import opened TimedSets
  import Ttl
  import DomainSearch

  type Rule = DomainSearch.Rule

  /** What parsing the text of a subnet rule gives. A bare address belongs to the family
      at hand; a network tells the width of its own family. */
  datatype Parsed = NotAnAddress | Address(addr: nat) | Network(addr: nat, ones: nat, bits: nat)

  /** An address family: its width, the kind of rule that names its networks, and the parser. */
  datatype Family = Family(width: nat, kind: DomainSearch.RuleType, parse: string -> Parsed)

  ghost predicate IsFamily(f: Family)
  {
    && f.width > 0
    && (forall s :: f.parse(s).Address? ==> f.parse(s).addr < Pow2(f.width))
    && (forall s :: f.parse(s).Network? ==>
          f.parse(s).ones <= f.parse(s).bits && f.parse(s).addr < Pow2(f.parse(s).bits))
  }

  // ---- Permanent networks ----

  /** A network as stored: everything is split in two halves, as the kernel has no prefix 0. */
  function Stored(addr: nat, ones: nat, width: nat): seq<Subnet>
    requires ones <= width && width > 0
  {
    var masked := Mask(addr, ones, width);
    if masked == 0 && ones == 0 then [Subnet(0, 1), Subnet(Pow2(width - 1), 1)] else [Subnet(masked, ones)]
  }

  function StoredOf(rule: Rule, f: Family): seq<Subnet>
    requires f.width > 0
  {
    if !rule.enabled || rule.kind != f.kind then []
    else
      match f.parse(rule.text)
      case NotAnAddress => []
      case Address(a) => Stored(a, f.width, f.width)
      case Network(a, ones, bits) => if bits != f.width || ones > f.width then [] else Stored(a, ones, f.width)
  }

  function Statics(rules: seq<Rule>, f: Family): seq<Subnet>
    requires f.width > 0
  {
    if rules == [] then []
    else Statics(rules[..|rules| - 1], f) + StoredOf(rules[|rules| - 1], f)
  }

  method StaticSubnets(rules: seq<Rule>, f: Family) returns (out: seq<Subnet>)
    requires f.width > 0
    ensures out == Statics(rules, f)
  {
    out := [];
    for i := 0 to |rules|
      invariant out == Statics(rules[..i], f)
    {
      var rule := rules[i];
      assert rules[..i + 1][..i] == rules[..i];
      if !rule.enabled || rule.kind != f.kind {
        continue;
      }
      var parsed := f.parse(rule.text);
      if parsed.NotAnAddress? {
        continue;
      }
      var ones, bits := f.width, f.width;
      if parsed.Network? {
        ones, bits := parsed.ones, parsed.bits;
      }
      if bits != f.width || ones > f.width {
        continue;
      }
      var addr := Mask(parsed.addr, ones, f.width);
      if addr == 0 && ones == 0 {
        out := out + [Subnet(0, 1), Subnet(Pow2(f.width - 1), 1)];
      } else {
        out := out + [Subnet(addr, ones)];
      }
    }
    assert rules[..|rules|] == rules;
  }

  /** The addresses a rule means. */
  ghost predicate Means(rule: Rule, f: Family, ip: nat)
    requires f.width > 0
  {
    rule.enabled && rule.kind == f.kind &&
    match f.parse(rule.text)
    case NotAnAddress => false
    case Address(a) => ip == a
    case Network(a, ones, bits) =>
      bits == f.width && ones <= f.width && Mask(ip, ones, f.width) == Mask(a, ones, f.width)
  }

  ghost predicate Covers(s: Subnet, width: nat, ip: nat)
    requires s.cidr <= width
  {
    Mask(ip, s.cidr, width) == s.addr
  }

  ghost predicate SomeCovers(subnets: seq<Subnet>, width: nat, ip: nat)
    requires forall i | 0 <= i < |subnets| :: subnets[i].cidr <= width
  {
    exists i | 0 <= i < |subnets| :: Covers(subnets[i], width, ip)
  }

  /** Below the modulus there is nothing to keep. */
  lemma MaskNothing(addr: nat, width: nat)
    requires addr < Pow2(width)
    ensures Mask(addr, 0, width) == 0
  {
    SmallMod(addr, Pow2(width));
  }

  lemma SmallMod(x: nat, p: nat)
    requires x < p
    ensures x % p == x
  {
  }

  lemma HalfMod(x: nat, h: nat)
    requires h > 0 && x < 2 * h
    ensures x - x % h == if x < h then 0 else h
  {
    if x >= h {
      assert x == h * 1 + (x - h);
      assert x / h == 1;
    } else {
      SmallMod(x, h);
    }
  }

  lemma HalvesAreExact(width: nat, ip: nat)
    requires 0 < width && ip < Pow2(width)
    ensures var half := Pow2(width - 1);
            && IsCanonical(Subnet(0, 1), width) && IsCanonical(Subnet(half, 1), width)
            && (Covers(Subnet(0, 1), width, ip) || Covers(Subnet(half, 1), width, ip))
  {
    var half := Pow2(width - 1);
    HalfMod(ip, half);
    HalfMod(half, half);
    SmallMod(0, half);
  }

  /** What is stored for a network is canonical and covers exactly the network: everything,
      split in two halves, included. */
  lemma StoredIsExact(addr: nat, ones: nat, width: nat, ip: nat)
    requires 0 < width && ones <= width && addr < Pow2(width) && ip < Pow2(width)
    ensures forall i | 0 <= i < |Stored(addr, ones, width)| :: IsCanonical(Stored(addr, ones, width)[i], width)
    ensures SomeCovers(Stored(addr, ones, width), width, ip) <==> Mask(ip, ones, width) == Mask(addr, ones, width)
  {
    var stored := Stored(addr, ones, width);
    if ones == 0 {
      MaskNothing(addr, width);
      MaskNothing(ip, width);
      HalvesAreExact(width, ip);
      assert stored == [Subnet(0, 1), Subnet(Pow2(width - 1), 1)];
      assert Covers(stored[0], width, ip) || Covers(stored[1], width, ip);
    } else {
      MaskTwice(addr, ones, width);
      assert stored == [Subnet(Mask(addr, ones, width), ones)];
      assert Covers(stored[0], width, ip) <==> Mask(ip, ones, width) == Mask(addr, ones, width);
    }
  }

  /** Every permanent network is canonical, so the kernel lists it under the same name. */
  lemma {:induction false} StaticsAreCanonical(rules: seq<Rule>, f: Family)
    requires IsFamily(f)
    ensures forall i | 0 <= i < |Statics(rules, f)| :: IsCanonical(Statics(rules, f)[i], f.width)
  {
    if rules != [] {
      StaticsAreCanonical(rules[..|rules| - 1], f);
      StoredOfIsExact(rules[|rules| - 1], f, 0);
    }
  }

  lemma StoredOfIsExact(rule: Rule, f: Family, ip: nat)
    requires IsFamily(f) && ip < Pow2(f.width)
    ensures forall i | 0 <= i < |StoredOf(rule, f)| :: IsCanonical(StoredOf(rule, f)[i], f.width)
    ensures SomeCovers(StoredOf(rule, f), f.width, ip) <==> Means(rule, f, ip)
  {
    if rule.enabled && rule.kind == f.kind {
      match f.parse(rule.text) {
        case NotAnAddress =>
        case Address(a) => StoredIsExact(a, f.width, f.width, ip);
        case Network(a, ones, bits) =>
          if bits == f.width && ones <= f.width {
            StoredIsExact(a, ones, f.width, ip);
          }
      }
    }
  }

  ghost predicate SomeMeans(rules: seq<Rule>, f: Family, ip: nat)
    requires f.width > 0
  {
    exists i | 0 <= i < |rules| :: Means(rules[i], f, ip)
  }

  /** The permanent networks cover exactly the addresses some enabled rule means. */
  lemma {:induction false} StaticsCover(rules: seq<Rule>, f: Family, ip: nat)
    requires IsFamily(f) && ip < Pow2(f.width)
    ensures forall i | 0 <= i < |Statics(rules, f)| :: Statics(rules, f)[i].cidr <= f.width
    ensures SomeCovers(Statics(rules, f), f.width, ip) <==> SomeMeans(rules, f, ip)
  {
    StaticsAreCanonical(rules, f);
    if rules != [] {
      var front, last := rules[..|rules| - 1], rules[|rules| - 1];
      StaticsCover(front, f, ip);
      StoredOfIsExact(last, f, ip);
      CoversEither(Statics(front, f), StoredOf(last, f), f.width, ip);
      MeansEither(front, last, f, ip);
      assert rules == front + [last];
    }
  }

  lemma CoversEither(a: seq<Subnet>, b: seq<Subnet>, width: nat, ip: nat)
    requires forall i | 0 <= i < |a| :: a[i].cidr <= width
    requires forall i | 0 <= i < |b| :: b[i].cidr <= width
    ensures SomeCovers(a + b, width, ip) <==> SomeCovers(a, width, ip) || SomeCovers(b, width, ip)
  {
    if i :| 0 <= i < |a| && Covers(a[i], width, ip) {
      assert Covers((a + b)[i], width, ip);
    }
    if i :| 0 <= i < |b| && Covers(b[i], width, ip) {
      assert Covers((a + b)[|a| + i], width, ip);
    }
  }

  lemma MeansEither(front: seq<Rule>, last: Rule, f: Family, ip: nat)
    requires f.width > 0
    ensures SomeMeans(front + [last], f, ip) <==> SomeMeans(front, f, ip) || Means(last, f, ip)
  {
    if i :| 0 <= i < |front| && Means(front[i], f, ip) {
      assert Means((front + [last])[i], f, ip);
    }
    assert (front + [last])[|front|] == last;
  }

  // ---- What a group wants in its set ----

  /** An address the DNS cache answers with, the nanoseconds left to its deadline included. */
  datatype CachedAddress = CachedAddress(bits: nat, value: nat, left: Ttl.int64)

  function Seen(addresses: seq<CachedAddress>, width: nat): seq<CachedAddress>
  {
    if addresses == [] then []
    else
      var last := addresses[|addresses| - 1];
      Seen(addresses[..|addresses| - 1], width) +
      if last.bits == width && Ttl.FromDeadline(last.left).Some? then [last] else []
  }

  function SeenUnder(names: seq<string>, rule: Rule, matches: (Rule, string) -> bool,
                     lookup: string -> seq<CachedAddress>, width: nat): seq<CachedAddress>
  {
    if names == [] then []
    else
      var name := names[|names| - 1];
      SeenUnder(names[..|names| - 1], rule, matches, lookup, width) +
      if matches(rule, name) then Seen(lookup(name), width) else []
  }

  predicate MatchesNames(rule: Rule) { rule.enabled && !rule.kind.SubnetRule? && !rule.kind.Subnet6Rule? }

  /** The live addresses of the family that the rules match, rule by rule. */
  function Sightings(rules: seq<Rule>, names: seq<string>, matches: (Rule, string) -> bool,
                     lookup: string -> seq<CachedAddress>, width: nat): seq<CachedAddress>
  {
    if rules == [] then []
    else
      var rule := rules[|rules| - 1];
      Sightings(rules[..|rules| - 1], names, matches, lookup, width) +
      if MatchesNames(rule) then SeenUnder(names, rule, matches, lookup, width) else []
  }

  function AllPermanent(subnets: seq<Subnet>): (m: map<Subnet, Timeout>)
    ensures forall k | k in m :: m[k] == Permanent
    ensures forall i | 0 <= i < |subnets| :: subnets[i] in m
  {
    if subnets == [] then map[]
    else AllPermanent(subnets[..|subnets| - 1])[subnets[|subnets| - 1] := Permanent]
  }

  function WithSighting(m: map<Subnet, Timeout>, a: CachedAddress, width: nat): map<Subnet, Timeout>
  {
    var ttl := Ttl.FromDeadline(a.left);
    var k := Subnet(a.value, width);
    if ttl.None? || a.bits != width then m
    else if k !in m || (m[k].Secs? && ttl.value as nat > m[k].seconds) then m[k := Secs(ttl.value as nat)]
    else m
  }

  function WithSightings(m: map<Subnet, Timeout>, seen: seq<CachedAddress>, width: nat): map<Subnet, Timeout>
  {
    if seen == [] then m
    else WithSighting(WithSightings(m, seen[..|seen| - 1], width), seen[|seen| - 1], width)
  }

  lemma {:induction false} WithSightingsAppend(m: map<Subnet, Timeout>, a: seq<CachedAddress>,
                                               b: seq<CachedAddress>, width: nat)
    ensures WithSightings(m, a + b, width) == WithSightings(WithSightings(m, a, width), b, width)
  {
    if b == [] {
      assert a + b == a;
    } else {
      assert (a + b)[..|a + b| - 1] == a + b[..|b| - 1];
      WithSightingsAppend(m, a, b[..|b| - 1], width);
    }
  }

  lemma SeenStep(want: map<Subnet, Timeout>, addresses: seq<CachedAddress>, i: nat, width: nat)
    requires i < |addresses|
    ensures WithSightings(want, Seen(addresses[..i + 1], width), width)
            == WithSighting(WithSightings(want, Seen(addresses[..i], width), width), addresses[i], width)
  {
    assert addresses[..i + 1][..i] == addresses[..i];
    var seen, a := Seen(addresses[..i], width), addresses[i];
    var tail := if a.bits == width && Ttl.FromDeadline(a.left).Some? then [a] else [];
    assert Seen(addresses[..i + 1], width) == seen + tail;
    WithSightingsAppend(want, seen, tail, width);
    assert [a][..0] == [];
  }

  method AddSightings(want: map<Subnet, Timeout>, addresses: seq<CachedAddress>, width: nat)
    returns (out: map<Subnet, Timeout>)
    ensures out == WithSightings(want, Seen(addresses, width), width)
  {
    out := want;
    for i := 0 to |addresses|
      invariant out == WithSightings(want, Seen(addresses[..i], width), width)
    {
      var address := addresses[i];
      SeenStep(want, addresses, i, width);
      var ttl := Ttl.FromDeadline(address.left);
      if ttl.None? {
        continue;
      }
      if address.bits == width {
        var subnet := Subnet(address.value, width);
        if subnet !in out || (out[subnet].Secs? && ttl.value as nat > out[subnet].seconds) {
          out := out[subnet := Secs(ttl.value as nat)];
        }
      }
    }
    assert addresses[..|addresses|] == addresses;
  }

  method AddMatching(want: map<Subnet, Timeout>, names: seq<string>, rule: Rule, matches: (Rule, string) -> bool,
                     lookup: string -> seq<CachedAddress>, width: nat)
    returns (out: map<Subnet, Timeout>)
    ensures out == WithSightings(want, SeenUnder(names, rule, matches, lookup, width), width)
  {
    out := want;
    for i := 0 to |names|
      invariant out == WithSightings(want, SeenUnder(names[..i], rule, matches, lookup, width), width)
    {
      assert names[..i + 1][..i] == names[..i];
      ghost var before := SeenUnder(names[..i], rule, matches, lookup, width);
      if !matches(rule, names[i]) {
        assert before + [] == before;
        continue;
      }
      WithSightingsAppend(want, before, Seen(lookup(names[i]), width), width);
      out := AddSightings(out, lookup(names[i]), width);
    }
    assert names[..|names|] == names;
  }

  /** The wanted content: the permanent networks, and what DNS knows. */
  function Desired(statics: seq<Subnet>, seen: seq<CachedAddress>, width: nat): map<Subnet, Timeout>
  {
    WithSightings(AllPermanent(statics), seen, width)
  }

  method DesiredSubnets(statics: seq<Subnet>, rules: seq<Rule>, names: seq<string>, matches: (Rule, string) -> bool,
                        lookup: string -> seq<CachedAddress>, width: nat)
    returns (want: map<Subnet, Timeout>)
    ensures want == Desired(statics, Sightings(rules, names, matches, lookup, width), width)
    ensures WantedIs(want, statics, rules, names, matches, lookup, width)
  {
    want := map[];
    for i := 0 to |statics|
      invariant want == AllPermanent(statics[..i])
    {
      assert statics[..i + 1][..i] == statics[..i];
      want := want[statics[i] := Permanent];
    }
    assert statics[..|statics|] == statics;
    for i := 0 to |rules|
      invariant want == Desired(statics, Sightings(rules[..i], names, matches, lookup, width), width)
    {
      assert rules[..i + 1][..i] == rules[..i];
      ghost var before := Sightings(rules[..i], names, matches, lookup, width);
      if !MatchesNames(rules[i]) {
        assert before + [] == before;
        continue;
      }
      WithSightingsAppend(AllPermanent(statics), before, SeenUnder(names, rules[i], matches, lookup, width), width);
      want := AddMatching(want, names, rules[i], matches, lookup, width);
    }
    assert rules[..|rules|] == rules;
    DesiredIsWanted(statics, rules, names, matches, lookup, width);
  }

  /** A sighting of a single address that is still alive. */
  ghost predicate Sights(a: CachedAddress, width: nat, k: Subnet)
  {
    a.bits == width && k == Subnet(a.value, width) && Ttl.FromDeadline(a.left).Some?
  }

  function Life(a: CachedAddress): nat
  {
    var ttl := Ttl.FromDeadline(a.left);
    if ttl.Some? then ttl.value as nat else 0
  }

  ghost predicate LongestSighting(seen: seq<CachedAddress>, width: nat, k: Subnet, seconds: nat)
  {
    && (exists i | 0 <= i < |seen| :: Sights(seen[i], width, k) && Life(seen[i]) == seconds)
    && (forall i | 0 <= i < |seen| && Sights(seen[i], width, k) :: Life(seen[i]) <= seconds)
  }

  ghost predicate NoSighting(seen: seq<CachedAddress>, width: nat, k: Subnet)
  {
    forall i | 0 <= i < |seen| :: !Sights(seen[i], width, k)
  }

  /** A wanted key is permanent exactly if it is a permanent network; any other wanted key
      is an address DNS knows, for the longest time it is known. Nothing known is left out. */
  lemma {:induction false} DesiredIs(statics: seq<Subnet>, seen: seq<CachedAddress>, width: nat, k: Subnet)
    ensures var want := Desired(statics, seen, width);
            && (k in AllPermanent(statics) <==> k in want && want[k].Permanent?)
            && (k in want && want[k].Secs? ==> LongestSighting(seen, width, k, want[k].seconds) && want[k].seconds > 0)
            && (k !in want ==> NoSighting(seen, width, k))
  {
    if seen != [] {
      var n := |seen| - 1;
      DesiredIs(statics, seen[..n], width, k);
      DesiredStep(Desired(statics, seen[..n], width), seen, width, k);
    }
  }

  lemma DesiredStep(before: map<Subnet, Timeout>, seen: seq<CachedAddress>, width: nat, k: Subnet)
    requires |seen| > 0
    requires k in before && before[k].Secs? ==>
               LongestSighting(seen[..|seen| - 1], width, k, before[k].seconds) && before[k].seconds > 0
    requires k !in before ==> NoSighting(seen[..|seen| - 1], width, k)
    ensures var want := WithSighting(before, seen[|seen| - 1], width);
            && (k in before && before[k].Permanent? <==> k in want && want[k].Permanent?)
            && (k in want && want[k].Secs? ==> LongestSighting(seen, width, k, want[k].seconds) && want[k].seconds > 0)
            && (k !in want ==> NoSighting(seen, width, k))
  {
    var n := |seen| - 1;
    if k in before && before[k].Secs? {
      LongestStep(seen, width, k, before[k].seconds);
    }
    if Sights(seen[n], width, k) {
      assert Life(seen[n]) > 0;
    }
  }

  lemma LongestStep(seen: seq<CachedAddress>, width: nat, k: Subnet, seconds: nat)
    requires |seen| > 0 && LongestSighting(seen[..|seen| - 1], width, k, seconds)
    ensures var last := seen[|seen| - 1];
            LongestSighting(seen, width, k,
                            if Sights(last, width, k) && Life(last) > seconds then Life(last) else seconds)
  {
    var n := |seen| - 1;
    var i :| 0 <= i < n && Sights(seen[..n][i], width, k) && Life(seen[..n][i]) == seconds;
    assert seen[i] == seen[..n][i];
    forall j | 0 <= j < n && Sights(seen[j], width, k)
      ensures Life(seen[j]) <= seconds
    {
      assert seen[..n][j] == seen[j];
    }
  }

  // ---- The same in terms of rules, names and lookups ----

  /** An enabled rule that is no subnet rule matches a known name, and DNS answers that name
      with the address, of this family and not expired. */
  ghost predicate Given(rules: seq<Rule>, names: seq<string>, matches: (Rule, string) -> bool,
                        lookup: string -> seq<CachedAddress>, width: nat, a: CachedAddress)
  {
    && a.bits == width && Ttl.FromDeadline(a.left).Some?
    && exists rule, name ::
         && rule in rules && rule.enabled
         && rule.kind != DomainSearch.SubnetRule && rule.kind != DomainSearch.Subnet6Rule
         && name in names && matches(rule, name) && a in lookup(name)
  }

  lemma {:induction false} SeenIs(addresses: seq<CachedAddress>, width: nat, a: CachedAddress)
    ensures a in Seen(addresses, width) <==> a in addresses && a.bits == width && Ttl.FromDeadline(a.left).Some?
  {
    if addresses != [] {
      var front, last := addresses[..|addresses| - 1], addresses[|addresses| - 1];
      SeenIs(front, width, a);
      assert addresses == front + [last];
    }
  }

  lemma {:induction false} SeenUnderIs(names: seq<string>, rule: Rule, matches: (Rule, string) -> bool,
                                       lookup: string -> seq<CachedAddress>, width: nat, a: CachedAddress)
    ensures a in SeenUnder(names, rule, matches, lookup, width) <==>
            && a.bits == width && Ttl.FromDeadline(a.left).Some?
            && exists name :: name in names && matches(rule, name) && a in lookup(name)
  {
    if names != [] {
      var front, last := names[..|names| - 1], names[|names| - 1];
      SeenUnderIs(front, rule, matches, lookup, width, a);
      SeenIs(lookup(last), width, a);
      assert names == front + [last];
    }
  }

  lemma {:induction false} SightingsAre(rules: seq<Rule>, names: seq<string>, matches: (Rule, string) -> bool,
                                        lookup: string -> seq<CachedAddress>, width: nat, a: CachedAddress)
    ensures a in Sightings(rules, names, matches, lookup, width) <==> Given(rules, names, matches, lookup, width, a)
  {
    if rules != [] {
      var front, last := rules[..|rules| - 1], rules[|rules| - 1];
      SightingsAre(front, names, matches, lookup, width, a);
      SeenUnderIs(names, last, matches, lookup, width, a);
      assert rules == front + [last];
      GivenEither(front, last, names, matches, lookup, width, a);
    }
  }

  lemma GivenEither(front: seq<Rule>, last: Rule, names: seq<string>, matches: (Rule, string) -> bool,
                    lookup: string -> seq<CachedAddress>, width: nat, a: CachedAddress)
    ensures Given(front + [last], names, matches, lookup, width, a) <==>
            Given(front, names, matches, lookup, width, a) || Given([last], names, matches, lookup, width, a)
  {
  }

  /** The set of permanent networks, and for every other address the rules lead to the longest
      time DNS knows it; nothing else. */
  ghost predicate WantedIs(want: map<Subnet, Timeout>, statics: seq<Subnet>, rules: seq<Rule>, names: seq<string>,
                           matches: (Rule, string) -> bool, lookup: string -> seq<CachedAddress>, width: nat)
  {
    forall k ::
      && (k in want && want[k].Permanent? <==> k in statics)
      && (k in want && want[k].Secs? <==>
            k !in statics && exists a :: Given(rules, names, matches, lookup, width, a) && k == Subnet(a.value, width))
      && (k in want && want[k].Secs? ==>
            LongestGiven(rules, names, matches, lookup, width, k, want[k].seconds))
  }

  ghost predicate LongestGiven(rules: seq<Rule>, names: seq<string>, matches: (Rule, string) -> bool,
                               lookup: string -> seq<CachedAddress>, width: nat, k: Subnet, seconds: nat)
  {
    && (exists a :: Given(rules, names, matches, lookup, width, a) && k == Subnet(a.value, width)
                    && Ttl.FromDeadline(a.left).value as nat == seconds)
    && (forall a | Given(rules, names, matches, lookup, width, a) && k == Subnet(a.value, width) ::
          Ttl.FromDeadline(a.left).value as nat <= seconds)
  }

  lemma StaticsArePermanent(statics: seq<Subnet>, k: Subnet)
    ensures k in AllPermanent(statics) <==> k in statics
  {
    PermanentKeys(statics);
    if k in statics {
      var i :| 0 <= i < |statics| && statics[i] == k;
    }
  }

  lemma DesiredIsWanted(statics: seq<Subnet>, rules: seq<Rule>, names: seq<string>, matches: (Rule, string) -> bool,
                        lookup: string -> seq<CachedAddress>, width: nat)
    ensures WantedIs(Desired(statics, Sightings(rules, names, matches, lookup, width), width), statics, rules, names,
                     matches, lookup, width)
  {
    var seen := Sightings(rules, names, matches, lookup, width);
    var want := Desired(statics, seen, width);
    forall k
      ensures k in want && want[k].Permanent? <==> k in statics
      ensures k in want && want[k].Secs? <==>
              k !in statics && exists a :: Given(rules, names, matches, lookup, width, a) && k == Subnet(a.value, width)
      ensures k in want && want[k].Secs? ==> LongestGiven(rules, names, matches, lookup, width, k, want[k].seconds)
    {
      DesiredIs(statics, seen, width, k);
      StaticsArePermanent(statics, k);
      forall a
        ensures a in seen <==> Given(rules, names, matches, lookup, width, a)
      {
        SightingsAre(rules, names, matches, lookup, width, a);
      }
      KeyOfSighting(seen, rules, names, matches, lookup, width, k);
    }
  }

  lemma KeyOfSighting(seen: seq<CachedAddress>, rules: seq<Rule>, names: seq<string>, matches: (Rule, string) -> bool,
                      lookup: string -> seq<CachedAddress>, width: nat, k: Subnet)
    requires forall a :: a in seen <==> Given(rules, names, matches, lookup, width, a)
    ensures NoSighting(seen, width, k) <==>
            !exists a :: Given(rules, names, matches, lookup, width, a) && k == Subnet(a.value, width)
    ensures forall seconds | LongestSighting(seen, width, k, seconds) ::
              LongestGiven(rules, names, matches, lookup, width, k, seconds)
              && exists a :: Given(rules, names, matches, lookup, width, a) && k == Subnet(a.value, width)
  {
    assert forall a | a in seen :: a.bits == width && Ttl.FromDeadline(a.left).Some?;
    assert forall i | 0 <= i < |seen| :: seen[i] in seen;
    forall seconds | LongestSighting(seen, width, k, seconds)
      ensures LongestGiven(rules, names, matches, lookup, width, k, seconds)
      ensures exists a :: Given(rules, names, matches, lookup, width, a) && k == Subnet(a.value, width)
    {
      var i :| 0 <= i < |seen| && Sights(seen[i], width, k) && Life(seen[i]) == seconds;
      assert Given(rules, names, matches, lookup, width, seen[i]);
    }
  }

  /** All wanted keys are canonical: `sync` never deletes an address it wants. */
  lemma {:induction false} DesiredIsCanonical(statics: seq<Subnet>, seen: seq<CachedAddress>, width: nat)
    requires width > 0 && forall i | 0 <= i < |statics| :: IsCanonical(statics[i], width)
    ensures AllCanonical(Desired(statics, seen, width).Keys, width) && Sendable(Desired(statics, seen, width), width)
  {
    if seen != [] {
      DesiredIsCanonical(statics, seen[..|seen| - 1], width);
    } else {
      PermanentKeys(statics);
    }
  }

  lemma {:induction false} PermanentKeys(subnets: seq<Subnet>)
    ensures forall k | k in AllPermanent(subnets) :: exists i | 0 <= i < |subnets| :: subnets[i] == k
  {
    if subnets != [] {
      PermanentKeys(subnets[..|subnets| - 1]);
      assert forall i | 0 <= i < |subnets| - 1 :: subnets[..|subnets| - 1][i] == subnets[i];
    }
  }
}

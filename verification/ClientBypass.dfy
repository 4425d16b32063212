/**
  The sets of client networks that bypass routing. Rules name the active sets, so an
  update fills shadow sets and swaps them in, family by family, and swaps back when a
  later family fails. Every kernel call can fail.
 */
module ClientBypass {
  import opened Text
  import opened TimedSets

  datatype SourceNetwork = SourceNetwork(canonical: string, net: Subnet, ipv6: bool)

  function Width(ipv6: bool): nat { if ipv6 then 128 else 32 }

  ghost predicate GoodNetwork(n: SourceNetwork) { n.net.cidr <= Width(n.ipv6) }

  // ---- Normalisation ----

  function TrimLeft(s: string): string
  {
    if s != [] && IsSpace(s[0]) then TrimLeft(s[1..]) else s
  }

  function TrimRight(s: string): string
  {
    if s != [] && IsSpace(s[|s| - 1]) then TrimRight(s[..|s| - 1]) else s
  }

  function Trim(s: string): string { TrimRight(TrimLeft(s)) }

  ghost predicate Blank(s: string)
  {
    forall i | 0 <= i < |s| :: IsSpace(s[i])
  }

  lemma {:induction false} TrimLeftIs(s: string) returns (from: nat)
    ensures from <= |s| && TrimLeft(s) == s[from..] && Blank(s[..from])
    ensures from < |s| ==> !IsSpace(s[from])
  {
    from := 0;
    if s != [] && IsSpace(s[0]) {
      from := TrimLeftIs(s[1..]);
      assert s[..from + 1] == [s[0]] + s[1..][..from];
      from := from + 1;
    }
  }

  lemma {:induction false} TrimRightIs(s: string) returns (to: nat)
    ensures to <= |s| && TrimRight(s) == s[..to] && Blank(s[to..])
    ensures to > 0 ==> !IsSpace(s[to - 1])
  {
    to := |s|;
    if s != [] && IsSpace(s[|s| - 1]) {
      to := TrimRightIs(s[..|s| - 1]);
      assert s[to..] == s[..|s| - 1][to..] + [s[|s| - 1]];
      assert s[..to] == s[..|s| - 1][..to];
    }
  }

  /** Trimming takes away the blanks at both ends, and nothing else. */
  lemma TrimIs(s: string) returns (from: nat, to: nat)
    ensures from <= to <= |s| && Trim(s) == s[from..to] && Blank(s[..from]) && Blank(s[to..])
    ensures from < to ==> !IsSpace(s[from]) && !IsSpace(s[to - 1])
  {
    from := TrimLeftIs(s);
    var n := TrimRightIs(TrimLeft(s));
    to := from + n;
    assert s[to..] == s[from..][n..];
  }

  /** What `net.ParseCIDR` and `net.ParseIP` give: the address in 16 bytes, the one in 4
      bytes if it has such a form, and the canonical text. */
  datatype ParsedNet = ParsedNet(ip4: Option<nat>, ip16: nat, ones: nat, totalBits: nat, text: string)
  datatype ParsedIP = ParsedIP(ip4: Option<nat>, ip16: nat, text: string)
  datatype Parser = Parser(cidr: string -> Option<ParsedNet>, ip: string -> Option<ParsedIP>)

  /** A canonical text is trimmed, not empty, parsed by the same of the two parsers, and
      parses to what it is the text of. */
  ghost predicate IsParser(parse: Parser)
  {
    && (forall s :: parse.cidr(s).Some? ==>
          var n := parse.cidr(s).value;
          && n.ones <= n.totalBits && (n.totalBits == 32 || n.totalBits == 128)
          && (n.totalBits == 32 ==> n.ip4.Some?)
          && Trim(n.text) == n.text && '/' in n.text && parse.cidr(n.text) == Some(n))
    && (forall s :: parse.ip(s).Some? ==>
          var n := parse.ip(s).value;
          n.text != "" && Trim(n.text) == n.text && '/' !in n.text && parse.ip(n.text) == Some(n))
  }

  /** One list entry: a network if it has a slash, a single address otherwise. */
  function ParseOne(value: string, parse: Parser): Option<SourceNetwork>
  {
    if '/' in value then
      match parse.cidr(value)
      case None => None
      case Some(n) => Some(SourceOf(n.text, n.ip4, n.ip16, n.ones, n.totalBits == 128))
    else
      match parse.ip(value)
      case None => None
      case Some(n) => Some(SourceOf(n.text, n.ip4, n.ip16, if n.ip4.Some? then 32 else 128, n.ip4.None?))
  }

  function SourceOf(text: string, ip4: Option<nat>, ip16: nat, bits: nat, ipv6: bool): SourceNetwork
  {
    if !ipv6 && ip4.Some? then SourceNetwork(text, Subnet(ip4.value, bits), false)
    else SourceNetwork(text, Subnet(ip16, bits), true)
  }

  lemma ParsedTwice(value: string, parse: Parser)
    requires IsParser(parse) && ParseOne(value, parse).Some?
    ensures var n := ParseOne(value, parse).value;
            && GoodNetwork(n) && n.canonical != "" && Trim(n.canonical) == n.canonical
            && ParseOne(n.canonical, parse) == Some(n)
  {
    if '/' in value {
      assert parse.cidr(value).Some?;
    } else {
      assert parse.ip(value).Some?;
    }
  }

  predicate Listed(networks: seq<SourceNetwork>, canonical: string)
  {
    exists i | 0 <= i < |networks| :: networks[i].canonical == canonical
  }

  /** The networks of the texts, without repeats, or nothing if one cannot be parsed. */
  function Normalized(values: seq<string>, parse: Parser): Option<seq<SourceNetwork>>
  {
    if values == [] then Some([])
    else
      var before := Normalized(values[..|values| - 1], parse);
      var value := Trim(values[|values| - 1]);
      if before.None? || value == "" then before
      else
        var n := ParseOne(value, parse);
        if n.None? then None
        else if Listed(before.value, n.value.canonical) then before
        else Some(before.value + [n.value])
  }

  function Texts(networks: seq<SourceNetwork>): (texts: seq<string>)
    ensures |texts| == |networks|
    ensures forall i | 0 <= i < |texts| :: texts[i] == networks[i].canonical
  {
    seq(|networks|, i requires 0 <= i < |networks| => networks[i].canonical)
  }

  method NormalizeSourceNetworks(values: seq<string>, parse: Parser) returns (out: Option<seq<SourceNetwork>>)
    ensures out == Normalized(values, parse)
  {
    var seen: set<string> := {};
    var networks: seq<SourceNetwork> := [];
    for i := 0 to |values|
      invariant Normalized(values[..i], parse) == Some(networks)
      invariant forall c :: c in seen <==> Listed(networks, c)
    {
      assert values[..i + 1][..i] == values[..i];
      var value := Trim(values[i]);
      if value == "" {
        continue;
      }
      var canonical, ip4, ip16, bits, ipv6 := "", None, 0, 0, false;
      if '/' in value {
        var parsed := parse.cidr(value);
        if parsed.None? {
          NoneStays(values, i + 1, parse);
          return None;
        }
        canonical, ip4, ip16, bits := parsed.value.text, parsed.value.ip4, parsed.value.ip16, parsed.value.ones;
        ipv6 := parsed.value.totalBits == 128;
      } else {
        var parsed := parse.ip(value);
        if parsed.None? {
          NoneStays(values, i + 1, parse);
          return None;
        }
        canonical, ip4, ip16 := parsed.value.text, parsed.value.ip4, parsed.value.ip16;
        if ip4.Some? {
          bits := 32;
        } else {
          bits, ipv6 := 128, true;
        }
      }
      if canonical in seen {
        continue;
      }
      var network := SourceNetwork(canonical, Subnet(ip16, bits), true);
      if !ipv6 && ip4.Some? {
        network := SourceNetwork(canonical, Subnet(ip4.value, bits), false);
      }
      ListedOneMore(networks, network);
      seen := seen + {canonical};
      networks := networks + [network];
    }
    assert values[..|values|] == values;
    return Some(networks);
  }

  lemma {:induction false} NoneStays(values: seq<string>, n: nat, parse: Parser)
    requires n <= |values| && Normalized(values[..n], parse).None?
    ensures Normalized(values, parse).None?
    decreases |values|
  {
    if n == |values| {
      assert values[..n] == values;
    } else {
      assert values[..|values| - 1][..n] == values[..n];
      NoneStays(values[..|values| - 1], n, parse);
    }
  }

  /** A text is not blank and is no address, or no network if it has a slash. */
  ghost predicate Unparsable(value: string, parse: Parser)
  {
    var text := Trim(value);
    text != "" && if '/' in text then parse.cidr(text).None? else parse.ip(text).None?
  }

  /** One text that cannot be parsed refuses the whole list, and nothing else does. */
  lemma {:induction false} RefusedIff(values: seq<string>, parse: Parser)
    ensures Normalized(values, parse).None? <==> exists i | 0 <= i < |values| :: Unparsable(values[i], parse)
  {
    if values != [] {
      var n := |values| - 1;
      RefusedIff(values[..n], parse);
      assert forall i | 0 <= i < n :: values[..n][i] == values[i];
      assert Unparsable(values[n], parse) <==> Trim(values[n]) != "" && ParseOne(Trim(values[n]), parse).None?;
    }
  }

  /** The text names the network. */
  ghost predicate Names(value: string, n: SourceNetwork, parse: Parser)
  {
    Trim(value) != "" && ParseOne(Trim(value), parse) == Some(n)
  }

  /** The networks come from the texts at the positions, the first ones that name them. */
  ghost predicate FirstAt(networks: seq<SourceNetwork>, at: seq<nat>, values: seq<string>, parse: Parser)
  {
    && |at| == |networks|
    && (forall j | 0 <= j < |at| :: at[j] < |values| && Names(values[at[j]], networks[j], parse))
    && (forall j, k | 0 <= j < k < |at| :: at[j] < at[k])
    && (forall i | 0 <= i < |values| && Trim(values[i]) != "" :: NamedBy(values[i], i, networks, at, parse))
  }

  ghost predicate NamedBy(value: string, i: nat, networks: seq<SourceNetwork>, at: seq<nat>, parse: Parser)
    requires |at| == |networks|
  {
    exists j | 0 <= j < |at| && at[j] <= i :: Names(value, networks[j], parse)
  }

  /** Every text that is not blank names one of the networks; each of these is listed once,
      where it is named first. */
  lemma {:induction false} NormalizedAreFirst(values: seq<string>, parse: Parser) returns (at: seq<nat>)
    requires IsParser(parse) && Normalized(values, parse).Some?
    ensures FirstAt(Normalized(values, parse).value, at, values, parse) && Distinct(Normalized(values, parse).value)
  {
    at := [];
    if values != [] {
      var n := |values| - 1;
      at := NormalizedAreFirst(values[..n], parse);
      NormalizedIsGood(values, parse);
      NormalizedIsGood(values[..n], parse);
      at := FirstOneMore(values, at, parse);
    }
  }

  lemma FirstOneMore(values: seq<string>, before: seq<nat>, parse: Parser) returns (at: seq<nat>)
    requires IsParser(parse) && values != [] && Normalized(values, parse).Some?
    requires var front := values[..|values| - 1];
             Normalized(front, parse).Some? && FirstAt(Normalized(front, parse).value, before, front, parse)
             && AreNamed(Normalized(front, parse).value, parse)
    ensures FirstAt(Normalized(values, parse).value, at, values, parse)
  {
    var front, value := values[..|values| - 1], values[|values| - 1];
    assert values == front + [value];
    if Trim(value) == "" {
      at := before;
      NamedOnceMore(Normalized(front, parse).value, before, front, value, parse);
    } else {
      at := FirstWithText(Normalized(front, parse).value, before, front, value, parse);
    }
  }

  lemma FirstWithText(networks: seq<SourceNetwork>, before: seq<nat>, values: seq<string>, value: string, parse: Parser)
    returns (at: seq<nat>)
    requires IsParser(parse) && Trim(value) != "" && ParseOne(Trim(value), parse).Some?
    requires FirstAt(networks, before, values, parse) && AreNamed(networks, parse)
    ensures var n := ParseOne(Trim(value), parse).value;
            FirstAt(if Listed(networks, n.canonical) then networks else networks + [n], at, values + [value], parse)
  {
    var n := ParseOne(Trim(value), parse).value;
    ParsedTwice(Trim(value), parse);
    at := before;
    if j :| 0 <= j < |networks| && networks[j].canonical == n.canonical {
      assert Names(value, networks[j], parse);
      NamedOnceMore(networks, before, values, value, parse);
    } else {
      at := before + [|values|];
      NamedFirst(networks, before, values, value, n, parse);
    }
  }

  lemma NamedOnceMore(networks: seq<SourceNetwork>, at: seq<nat>, values: seq<string>, value: string, parse: Parser)
    requires FirstAt(networks, at, values, parse)
    requires Trim(value) == "" || exists j | 0 <= j < |networks| :: Names(value, networks[j], parse)
    ensures FirstAt(networks, at, values + [value], parse)
  {
    forall i | 0 <= i < |values| + 1 && Trim((values + [value])[i]) != ""
      ensures NamedBy((values + [value])[i], i, networks, at, parse)
    {
      if i == |values| {
        var j :| 0 <= j < |networks| && Names(value, networks[j], parse);
        assert at[j] <= i;
      }
    }
  }

  lemma NamedFirst(networks: seq<SourceNetwork>, at: seq<nat>, values: seq<string>, value: string, n: SourceNetwork,
                   parse: Parser)
    requires FirstAt(networks, at, values, parse) && Names(value, n, parse)
    ensures FirstAt(networks + [n], at + [|values|], values + [value], parse)
  {
    var more, ats := networks + [n], at + [|values|];
    forall i | 0 <= i < |values| + 1 && Trim((values + [value])[i]) != ""
      ensures NamedBy((values + [value])[i], i, more, ats, parse)
    {
      if i == |values| {
        assert more[|networks|] == n && ats[|networks|] <= i;
      } else {
        assert NamedBy(values[i], i, networks, at, parse);
        var j :| 0 <= j < |networks| && at[j] <= i && Names(values[i], networks[j], parse);
        assert more[j] == networks[j] && ats[j] <= i;
      }
    }
  }

  ghost predicate AreNamed(networks: seq<SourceNetwork>, parse: Parser)
  {
    forall i | 0 <= i < |networks| :: ParseOne(networks[i].canonical, parse) == Some(networks[i])
  }

  lemma ListedOneMore(networks: seq<SourceNetwork>, n: SourceNetwork)
    ensures forall c :: Listed(networks + [n], c) <==> Listed(networks, c) || c == n.canonical
  {
    var more := networks + [n];
    assert more[|networks|] == n;
    forall c | Listed(networks, c)
      ensures Listed(more, c)
    {
      var i :| 0 <= i < |networks| && networks[i].canonical == c;
      assert more[i].canonical == c;
    }
  }

  ghost predicate Distinct(networks: seq<SourceNetwork>)
  {
    forall i, j | 0 <= i < j < |networks| :: networks[i].canonical != networks[j].canonical
  }

  lemma {:induction false} NormalizedIsGood(values: seq<string>, parse: Parser)
    requires IsParser(parse) && Normalized(values, parse).Some?
    ensures var networks := Normalized(values, parse).value;
            && Distinct(networks)
            && (forall i | 0 <= i < |networks| ::
                  GoodNetwork(networks[i]) && Trim(networks[i].canonical) == networks[i].canonical
                  && networks[i].canonical != "" && ParseOne(networks[i].canonical, parse) == Some(networks[i]))
  {
    if values != [] {
      NormalizedIsGood(values[..|values| - 1], parse);
      var value := Trim(values[|values| - 1]);
      if ParseOne(value, parse).Some? {
        ParsedTwice(value, parse);
      }
    }
  }

  /** Normalising what was normalised changes nothing: no text, no order, no network. */
  lemma NormalizedTwice(values: seq<string>, parse: Parser)
    requires IsParser(parse) && Normalized(values, parse).Some?
    ensures Normalized(Texts(Normalized(values, parse).value), parse) == Normalized(values, parse)
  {
    NormalizedIsGood(values, parse);
    CanonicalTextsStay(Normalized(values, parse).value, parse);
  }

  lemma {:induction false} CanonicalTextsStay(networks: seq<SourceNetwork>, parse: Parser)
    requires Distinct(networks)
    requires forall i | 0 <= i < |networks| ::
               Trim(networks[i].canonical) == networks[i].canonical
               && networks[i].canonical != "" && ParseOne(networks[i].canonical, parse) == Some(networks[i])
    ensures Normalized(Texts(networks), parse) == Some(networks)
  {
    if networks != [] {
      var n := |networks| - 1;
      CanonicalTextsStay(networks[..n], parse);
      assert Texts(networks)[..n] == Texts(networks[..n]);
      assert networks == networks[..n] + [networks[n]];
    }
  }

  // ---- The kernel ----

  datatype Name = Active(ipv6: bool) | Shadow(ipv6: bool)

  type Sets = map<Name, set<Subnet>>

  class SetKernel {
    /** Calls can fail for reasons outside the program. */
    const mayFail: bool
    var sets: Sets
    /** The sets after every call so far. */
    ghost var history: seq<Sets>

    method Create(n: Name) returns (ok: bool)
      modifies this
      ensures sets == if ok then old(sets)[n := {}] else old(sets)
      ensures (ok ==> n !in old(sets)) && (!mayFail && n !in old(sets) ==> ok)
      ensures history == old(history) + [sets]
    {
      ok := *;
      ok := (ok || !mayFail) && n !in sets;
      if ok {
        sets := sets[n := {}];
      }
      history := history + [sets];
    }

    /** A set that is not there counts as destroyed. */
    method Destroy(n: Name) returns (ok: bool)
      modifies this
      ensures sets == (if ok then old(sets) - {n} else old(sets)) && (!mayFail ==> ok)
      ensures history == old(history) + [sets]
    {
      ok := *;
      ok := ok || !mayFail;
      if ok {
        sets := sets - {n};
      }
      history := history + [sets];
    }

    method Add(n: Name, net: Subnet) returns (ok: bool)
      requires net.cidr <= Width(n.ipv6)
      modifies this
      ensures ok ==> n in old(sets) && sets == old(sets)[n := old(sets)[n] + {Canon(net, Width(n.ipv6))}]
      ensures !ok ==> sets == old(sets) && (mayFail || n !in sets)
      ensures history == old(history) + [sets]
    {
      ok := *;
      ok := (ok || !mayFail) && n in sets;
      if ok {
        sets := sets[n := sets[n] + {Canon(net, Width(n.ipv6))}];
      }
      history := history + [sets];
    }

    method Swap(a: Name, b: Name) returns (ok: bool)
      requires a != b
      modifies this
      ensures ok ==> a in old(sets) && b in old(sets) && sets == old(sets)[a := old(sets)[b]][b := old(sets)[a]]
      ensures !ok ==> sets == old(sets) && (mayFail || a !in sets || b !in sets)
      ensures history == old(history) + [sets]
    {
      ok := *;
      ok := (ok || !mayFail) && a in sets && b in sets;
      if ok {
        sets := sets[a := sets[b]][b := sets[a]];
      }
      history := history + [sets];
    }
  }

  // ---- The wanted sets ----

  /** The key is what the kernel stores for a network of the family. */
  ghost predicate IsKeyOf(k: Subnet, n: SourceNetwork, ipv6: bool)
  {
    n.ipv6 == ipv6 && n.net.cidr <= Width(ipv6) && k == Canon(n.net, Width(ipv6))
  }

  ghost predicate KeyOfSome(k: Subnet, networks: seq<SourceNetwork>, ipv6: bool)
  {
    exists i | 0 <= i < |networks| :: IsKeyOf(k, networks[i], ipv6)
  }

  lemma KeyOfOneMore(networks: seq<SourceNetwork>, ipv6: bool)
    ensures networks != [] ==> forall k :: KeyOfSome(k, networks, ipv6) <==>
              KeyOfSome(k, networks[..|networks| - 1], ipv6) || IsKeyOf(k, networks[|networks| - 1], ipv6)
  {
    if networks != [] {
      var front := networks[..|networks| - 1];
      forall k
        ensures KeyOfSome(k, networks, ipv6) <==> KeyOfSome(k, front, ipv6) || IsKeyOf(k, networks[|front|], ipv6)
      {
        if i :| 0 <= i < |networks| && IsKeyOf(k, networks[i], ipv6) {
          assert i < |front| ==> IsKeyOf(k, front[i], ipv6);
        }
        if i :| 0 <= i < |front| && IsKeyOf(k, front[i], ipv6) {
          assert IsKeyOf(k, networks[i], ipv6);
        }
      }
    }
  }

  function Filled(networks: seq<SourceNetwork>, ipv6: bool): (s: set<Subnet>)
    requires forall i | 0 <= i < |networks| :: GoodNetwork(networks[i])
    ensures forall k :: k in s <==> KeyOfSome(k, networks, ipv6)
  {
    KeyOfOneMore(networks, ipv6);
    if networks == [] then {}
    else
      var last := networks[|networks| - 1];
      assert GoodNetwork(last);
      Filled(networks[..|networks| - 1], ipv6) + if last.ipv6 == ipv6 then {Canon(last.net, Width(ipv6))} else {}
  }

  lemma FilledNext(networks: seq<SourceNetwork>, i: nat, ipv6: bool)
    requires i < |networks| && forall j | 0 <= j < |networks| :: GoodNetwork(networks[j])
    ensures Filled(networks[..i + 1], ipv6) == Filled(networks[..i], ipv6)
                                               + if networks[i].ipv6 == ipv6 then {Canon(networks[i].net, Width(ipv6))}
                                                 else {}
  {
    assert networks[..i + 1][..i] == networks[..i] && GoodNetwork(networks[i]);
  }

  /** A client's address is in the set. */
  ghost predicate InSet(entries: set<Subnet>, width: nat, ip: nat)
  {
    exists k | k in entries :: k.cidr <= width && Mask(ip, k.cidr, width) == k.addr
  }

  /** The client's address lies in the network as the kernel takes it: prefix 0 stands for
      the one address. */
  ghost predicate Lies(ip: nat, addr: nat, ones: nat, width: nat)
  {
    if ones == 0 then ip == addr else ones <= width && Mask(ip, ones, width) == Mask(addr, ones, width)
  }

  /** The text is an address of the family and this client's, or a network of the family
      and the client lies in it. */
  ghost predicate ListsClient(value: string, parse: Parser, ipv6: bool, ip: nat)
    requires IsParser(parse)
  {
    var text := Trim(value);
    text != "" &&
    if '/' in text then
      match parse.cidr(text)
      case None => false
      case Some(n) =>
        (n.totalBits == 128) == ipv6 && Lies(ip, if ipv6 then n.ip16 else n.ip4.value, n.ones, Width(ipv6))
    else
      match parse.ip(text)
      case None => false
      case Some(n) => n.ip4.None? == ipv6 && ip == if ipv6 then n.ip16 else n.ip4.value
  }

  ghost predicate SomeListsClient(values: seq<string>, parse: Parser, ipv6: bool, ip: nat)
    requires IsParser(parse)
  {
    exists i | 0 <= i < |values| :: ListsClient(values[i], parse, ipv6, ip)
  }

  lemma ListsClientIff(value: string, n: SourceNetwork, parse: Parser, ipv6: bool, ip: nat)
    requires IsParser(parse) && Names(value, n, parse)
    ensures ListsClient(value, parse, ipv6, ip) <==> n.ipv6 == ipv6 && Lies(ip, n.net.addr, n.net.cidr, Width(ipv6))
  {
    if '/' in Trim(value) {
      assert parse.cidr(Trim(value)).Some?;
    } else {
      assert parse.ip(Trim(value)).Some?;
      assert Mask(ip, Width(ipv6), Width(ipv6)) == ip;
      assert Mask(n.net.addr, Width(ipv6), Width(ipv6)) == n.net.addr || n.ipv6 != ipv6;
    }
  }

  lemma KeyHolds(k: Subnet, n: SourceNetwork, ipv6: bool, ip: nat)
    requires IsKeyOf(k, n, ipv6)
    ensures k.cidr <= Width(ipv6)
    ensures Mask(ip, k.cidr, Width(ipv6)) == k.addr <==> Lies(ip, n.net.addr, n.net.cidr, Width(ipv6))
  {
  }

  /** A client is in the filled set exactly if one of the texts lists it. */
  lemma FilledIsListed(values: seq<string>, parse: Parser, ipv6: bool, ip: nat)
    requires IsParser(parse) && Normalized(values, parse).Some? && AllGood(NetworksOf(values, parse))
    ensures InSet(Filled(NetworksOf(values, parse), ipv6), Width(ipv6), ip)
            <==> SomeListsClient(values, parse, ipv6, ip)
  {
    var networks := NetworksOf(values, parse);
    var at := NormalizedAreFirst(values, parse);
    if InSet(Filled(networks, ipv6), Width(ipv6), ip) {
      var k :| k in Filled(networks, ipv6) && k.cidr <= Width(ipv6) && Mask(ip, k.cidr, Width(ipv6)) == k.addr;
      assert KeyOfSome(k, networks, ipv6);
      var j :| 0 <= j < |networks| && IsKeyOf(k, networks[j], ipv6);
      KeyHolds(k, networks[j], ipv6, ip);
      ListsClientIff(values[at[j]], networks[j], parse, ipv6, ip);
    }
    if i :| 0 <= i < |values| && ListsClient(values[i], parse, ipv6, ip) {
      assert NamedBy(values[i], i, networks, at, parse);
      var j :| 0 <= j < |at| && Names(values[i], networks[j], parse);
      ListsClientIff(values[i], networks[j], parse, ipv6, ip);
      assert GoodNetwork(networks[j]);
      var k := Canon(networks[j].net, Width(ipv6));
      assert IsKeyOf(k, networks[j], ipv6);
      assert KeyOfSome(k, networks, ipv6);
      KeyHolds(k, networks[j], ipv6, ip);
      assert k in Filled(networks, ipv6);
    }
  }

  /** In every family exactly the clients that some text lists are in the active set. */
  ghost predicate BypassListed(specs: seq<bool>, sets: Sets, values: seq<string>, parse: Parser)
    requires IsParser(parse)
  {
    forall i | 0 <= i < |specs| ::
      Active(specs[i]) in sets && HoldsListed(sets[Active(specs[i])], specs[i], values, parse)
  }

  ghost predicate HoldsListed(entries: set<Subnet>, ipv6: bool, values: seq<string>, parse: Parser)
    requires IsParser(parse)
  {
    forall ip: nat :: InSet(entries, Width(ipv6), ip) <==> SomeListsClient(values, parse, ipv6, ip)
  }

  lemma HeldIsListed(specs: seq<bool>, sets: Sets, values: seq<string>, parse: Parser)
    requires IsParser(parse) && Normalized(values, parse).Some? && AllGood(NetworksOf(values, parse))
    requires ActiveHold(specs, sets, NetworksOf(values, parse))
    ensures BypassListed(specs, sets, values, parse)
  {
    forall i, ip: nat | 0 <= i < |specs|
      ensures InSet(sets[Active(specs[i])], Width(specs[i]), ip) <==> SomeListsClient(values, parse, specs[i], ip)
    {
      FilledIsListed(values, parse, specs[i], ip);
    }
  }

  /** Every single network is stored as it was given exactly if its prefix is not 0: the
      kernel takes prefix 0 for a single address. */
  lemma StoredAsGivenIff(n: Subnet, ipv6: bool)
    requires n.cidr <= Width(ipv6) && Mask(n.addr, n.cidr, Width(ipv6)) == n.addr && n.addr < Pow2(Width(ipv6))
    ensures (forall ip: nat | ip < Pow2(Width(ipv6)) ::
               Mask(ip, n.cidr, Width(ipv6)) == n.addr <==>
               Mask(ip, Canon(n, Width(ipv6)).cidr, Width(ipv6)) == Canon(n, Width(ipv6)).addr)
            <==> n.cidr != 0
  {
    var w := Width(ipv6);
    if n.cidr == 0 {
      var other := if n.addr == 0 then 1 else 0;
      assert Pow2(w) == 2 * Pow2(w - 1);
      SmallerHasNoQuotient(other, Pow2(w));
      assert Mask(other, w, w) == other;
      SmallerHasNoQuotient(n.addr, Pow2(w));
    }
  }

  lemma SmallerHasNoQuotient(x: nat, p: nat)
    requires x < p
    ensures x % p == x
  {
  }

  /** The families in use, each named once. */
  ghost predicate GoodSpecs(specs: seq<bool>)
  {
    forall i, j | 0 <= i < j < |specs| :: specs[i] != specs[j]
  }

  ghost predicate ActiveThere(specs: seq<bool>, sets: Sets)
  {
    forall i | 0 <= i < |specs| :: Active(specs[i]) in sets
  }

  /** The active sets are those of `before`. */
  ghost predicate ActiveAs(specs: seq<bool>, sets: Sets, before: Sets)
  {
    forall i | 0 <= i < |specs| ::
      Active(specs[i]) in sets && Active(specs[i]) in before && sets[Active(specs[i])] == before[Active(specs[i])]
  }

  /** The active sets hold exactly the networks. */
  ghost predicate ActiveHold(specs: seq<bool>, sets: Sets, networks: seq<SourceNetwork>)
    requires forall i | 0 <= i < |networks| :: GoodNetwork(networks[i])
  {
    forall i | 0 <= i < |specs| :: Active(specs[i]) in sets && sets[Active(specs[i])] == Filled(networks, specs[i])
  }

  /** At one moment: every active set is there, with its old or with its new content. */
  ghost predicate Whole(specs: seq<bool>, sets: Sets, before: Sets, networks: seq<SourceNetwork>)
    requires forall i | 0 <= i < |networks| :: GoodNetwork(networks[i])
  {
    forall i | 0 <= i < |specs| ::
      && Active(specs[i]) in sets
      && ((Active(specs[i]) in before && sets[Active(specs[i])] == before[Active(specs[i])])
          || sets[Active(specs[i])] == Filled(networks, specs[i]))
  }

  ghost predicate AlwaysWhole(specs: seq<bool>, history: seq<Sets>, start: nat, before: Sets,
                              networks: seq<SourceNetwork>)
    requires forall i | 0 <= i < |networks| :: GoodNetwork(networks[i])
  {
    start <= |history| && forall k | start <= k < |history| :: Whole(specs, history[k], before, networks)
  }

  ghost predicate AllGood(networks: seq<SourceNetwork>)
  {
    forall i | 0 <= i < |networks| :: GoodNetwork(networks[i])
  }

  /** What an update ends with. A rollback that fails is reported apart. */
  datatype Outcome = Updated(normalized: seq<string>) | Failed(rolledBack: bool)

  class Helper {
    const kernel: SetKernel
    const specs: seq<bool>
    const parse: Parser
    /** The length of the configured name prefix. */
    const prefixLength: nat
    var ready: bool

    ghost predicate Valid() { GoodSpecs(specs) && IsParser(parse) }

    constructor (kernel: SetKernel, specs: seq<bool>, parse: Parser, prefixLength: nat)
      requires GoodSpecs(specs) && IsParser(parse)
      ensures Valid() && !ready && this.kernel == kernel && this.specs == specs && this.parse == parse
    {
      this.kernel, this.specs, this.parse, this.prefixLength, ready := kernel, specs, parse, prefixLength, false;
    }

    /** The longest name is prefix, "client_bypass", "_6_n". */
    predicate NameTooLong() { |specs| > 0 && prefixLength + |"client_bypass"| + |"_6_n"| >= 32 }

    method Populate(n: Name, networks: seq<SourceNetwork>) returns (ok: bool)
      requires AllGood(networks) && n in kernel.sets && kernel.sets[n] == {}
      modifies kernel
      ensures OnlyTouched(n, kernel.history, old(kernel.history), old(kernel.sets))
      ensures SameBut(n, kernel.sets, old(kernel.sets))
      ensures n in kernel.sets && (ok ==> kernel.sets[n] == Filled(networks, n.ipv6))
      ensures !kernel.mayFail ==> ok
    {
      ok := true;
      var i := 0;
      while i < |networks| && ok
        invariant i <= |networks| && n in kernel.sets && (ok ==> kernel.sets[n] == Filled(networks[..i], n.ipv6))
        invariant !kernel.mayFail ==> ok
        invariant SameBut(n, kernel.sets, old(kernel.sets))
        invariant OnlyTouched(n, kernel.history, old(kernel.history), old(kernel.sets))
      {
        ghost var sets, history := kernel.sets, kernel.history;
        ok := AddOwn(n, networks, i);
        StillTouched(n, kernel.history, history, sets, old(kernel.history), old(kernel.sets));
        i := i + 1;
      }
      assert ok ==> networks[..i] == networks;
    }

    /** Networks of the other family are skipped. */
    method AddOwn(n: Name, networks: seq<SourceNetwork>, i: nat) returns (ok: bool)
      requires AllGood(networks) && i < |networks| && n in kernel.sets
      requires kernel.sets[n] == Filled(networks[..i], n.ipv6)
      modifies kernel
      ensures n in kernel.sets && SameBut(n, kernel.sets, old(kernel.sets))
      ensures OnlyTouched(n, kernel.history, old(kernel.history), old(kernel.sets))
      ensures ok ==> kernel.sets[n] == Filled(networks[..i + 1], n.ipv6)
      ensures !kernel.mayFail ==> ok
    {
      FilledNext(networks, i, n.ipv6);
      assert GoodNetwork(networks[i]);
      ok := true;
      if networks[i].ipv6 == n.ipv6 {
        ok := kernel.Add(n, networks[i].net);
      }
    }

    /** The active sets exist and hold the networks before any rule can name them. */
    method SetupClientBypass(values: seq<string>) returns (out: Outcome)
      requires Valid()
      modifies kernel, this`ready
      ensures out.Updated? ==>
                && ready && Normalized(values, parse).Some? && AllGood(NetworksOf(values, parse))
                && out.normalized == Texts(NetworksOf(values, parse))
                && ActiveHold(specs, kernel.sets, NetworksOf(values, parse))
                && BypassListed(specs, kernel.sets, values, parse)
      ensures out.Failed? ==> ready == old(ready)
      ensures Normalized(values, parse).None? ==> out.Failed? && kernel.sets == old(kernel.sets)
      ensures !kernel.mayFail && Normalized(values, parse).Some? && !NameTooLong() ==> out.Updated?
    {
      GoodNetworksOf(values, parse);
      var normalized := NormalizeSourceNetworks(values, parse);
      if normalized.None? {
        return Failed(true);
      }
      var networks := normalized.value;
      var cleared := DestroyStale();
      if !cleared || NameTooLong() {
        return Failed(false);
      }
      var filled := CreateFilled(networks);
      if !filled {
        return Failed(false);
      }
      ready := true;
      HeldIsListed(specs, kernel.sets, values, parse);
      return Updated(Texts(networks));
    }

    /** Sets of an earlier run go first. */
    method DestroyStale() returns (ok: bool)
      modifies kernel
      ensures ok ==> forall n: Name :: n !in kernel.sets
      ensures !kernel.mayFail ==> ok
    {
      ok := true;
      var stale := [Active(false), Active(true), Shadow(false), Shadow(true)];
      var i := 0;
      while i < |stale| && ok
        invariant i <= |stale| && (!kernel.mayFail ==> ok)
        invariant ok ==> forall j | 0 <= j < i :: stale[j] !in kernel.sets
      {
        ok := kernel.Destroy(stale[i]);
        i := i + 1;
      }
      if ok {
        forall n: Name
          ensures n !in kernel.sets
        {
          var k := (if n.Shadow? then 2 else 0) + if n.ipv6 then 1 else 0;
          assert stale[k] == n;
        }
      }
    }

    /** What was created goes again when a set cannot be made or filled. */
    method CreateFilled(networks: seq<SourceNetwork>) returns (ok: bool)
      requires Valid() && AllGood(networks) && forall i | 0 <= i < |specs| :: Active(specs[i]) !in kernel.sets
      modifies kernel
      ensures (ok ==> ActiveHold(specs, kernel.sets, networks)) && (!kernel.mayFail ==> ok)
    {
      for i := 0 to |specs|
        invariant ActiveFilled(specs, i, kernel.sets, networks)
        invariant forall j | i <= j < |specs| :: Active(specs[j]) !in kernel.sets
      {
        ok := kernel.Create(Active(specs[i]));
        if !ok {
          DestroyActive(i);
          return;
        }
        ok := Populate(Active(specs[i]), networks);
        if !ok {
          DestroyActive(i + 1);
          return;
        }
      }
      return true;
    }

    method DestroyActive(n: nat)
      requires n <= |specs|
      modifies kernel
      ensures forall f: bool :: Active(f) in kernel.sets ==> Active(f) in old(kernel.sets)
    {
      for i := 0 to n
        invariant forall f: bool :: Active(f) in kernel.sets ==> Active(f) in old(kernel.sets)
      {
        var _ := kernel.Destroy(Active(specs[i]));
      }
    }

    /** Whatever fails here, the active sets are untouched. */
    method DestroyShadows(ghost networks: seq<SourceNetwork>, ghost start: nat, ghost before: Sets)
      requires AllGood(networks) && Whole(specs, kernel.sets, before, networks)
      requires AlwaysWhole(specs, kernel.history, start, before, networks)
      modifies kernel
      ensures AlwaysWhole(specs, kernel.history, start, before, networks)
      ensures SameActive(kernel.sets, old(kernel.sets))
    {
      for i := 0 to |specs|
        invariant SameActive(kernel.sets, old(kernel.sets))
        invariant AlwaysWhole(specs, kernel.history, start, before, networks)
      {
        var _ := kernel.Destroy(Shadow(specs[i]));
        WholeIfSameActive(specs, kernel.sets, old(kernel.sets), before, networks);
      }
    }

    /** Replaces the shadow set by an empty one. */
    method RenewShadow(ipv6: bool, networks: seq<SourceNetwork>, ghost start: nat, ghost before: Sets)
      returns (destroyed: bool, created: bool)
      requires AllGood(networks) && Whole(specs, kernel.sets, before, networks)
      requires AlwaysWhole(specs, kernel.history, start, before, networks)
      modifies kernel
      ensures AlwaysWhole(specs, kernel.history, start, before, networks)
      ensures SameBut(Shadow(ipv6), kernel.sets, old(kernel.sets)) && SameActive(kernel.sets, old(kernel.sets))
      ensures created ==> destroyed && Shadow(ipv6) in kernel.sets && kernel.sets[Shadow(ipv6)] == {}
      ensures !kernel.mayFail ==> destroyed && created
    {
      created := false;
      destroyed := kernel.Destroy(Shadow(ipv6));
      WholeIfSameActive(specs, kernel.sets, old(kernel.sets), before, networks);
      if destroyed {
        created := kernel.Create(Shadow(ipv6));
        WholeIfSameActive(specs, kernel.sets, old(kernel.sets), before, networks);
      }
    }

    method FillShadow(ipv6: bool, networks: seq<SourceNetwork>, ghost start: nat, ghost before: Sets) returns (ok: bool)
      requires AllGood(networks) && Whole(specs, kernel.sets, before, networks)
      requires AlwaysWhole(specs, kernel.history, start, before, networks)
      modifies kernel
      ensures AlwaysWhole(specs, kernel.history, start, before, networks)
      ensures SameActive(kernel.sets, old(kernel.sets))
      ensures ok ==> SameBut(Shadow(ipv6), kernel.sets, old(kernel.sets))
      ensures ok ==> Shadow(ipv6) in kernel.sets && kernel.sets[Shadow(ipv6)] == Filled(networks, ipv6)
      ensures !kernel.mayFail ==> ok
    {
      var destroyed: bool;
      destroyed, ok := RenewShadow(ipv6, networks, start, before);
      if !destroyed {
        return;
      }
      if ok {
        ghost var created, seen := kernel.sets, kernel.history;
        ok := Populate(Shadow(ipv6), networks);
        ShadowsDoNotShow(specs, Shadow(ipv6), kernel.history, seen, created, start, before, networks);
        WholeIfSameActive(specs, kernel.sets, old(kernel.sets), before, networks);
      }
      if !ok {
        DestroyShadows(networks, start, before);
      }
    }

    method FillShadows(networks: seq<SourceNetwork>, ghost start: nat, ghost before: Sets) returns (ok: bool)
      requires Valid() && AllGood(networks) && Whole(specs, kernel.sets, before, networks)
      requires AlwaysWhole(specs, kernel.history, start, before, networks)
      modifies kernel
      ensures AlwaysWhole(specs, kernel.history, start, before, networks)
      ensures SameActive(kernel.sets, old(kernel.sets))
      ensures ok ==> ShadowsFilled(specs, |specs|, kernel.sets, networks)
      ensures !kernel.mayFail ==> ok
    {
      for i := 0 to |specs|
        invariant SameActive(kernel.sets, old(kernel.sets))
        invariant AlwaysWhole(specs, kernel.history, start, before, networks)
        invariant ShadowsFilled(specs, i, kernel.sets, networks)
      {
        WholeIfSameActive(specs, kernel.sets, old(kernel.sets), before, networks);
        ok := FillShadow(specs[i], networks, start, before);
        if !ok {
          return;
        }
      }
      return true;
    }

    method SwapAll(networks: seq<SourceNetwork>, ghost start: nat, ghost before: Sets)
      returns (ok: bool, rolledBack: bool)
      requires Valid() && AllGood(networks) && ActiveAs(specs, kernel.sets, before)
      requires ShadowsFilled(specs, |specs|, kernel.sets, networks)
      requires AlwaysWhole(specs, kernel.history, start, before, networks)
      modifies kernel
      ensures AlwaysWhole(specs, kernel.history, start, before, networks)
      ensures Whole(specs, kernel.sets, before, networks)
      ensures (ok ==> ActiveHold(specs, kernel.sets, networks)) && (!kernel.mayFail ==> ok)
      ensures !ok && rolledBack ==> ActiveAs(specs, kernel.sets, before)
    {
      for i := 0 to |specs|
        invariant SwappedTo(specs, i, kernel.sets, before, networks)
        invariant AlwaysWhole(specs, kernel.history, start, before, networks)
      {
        ghost var sets := kernel.sets;
        var swapped := kernel.Swap(Active(specs[i]), Shadow(specs[i]));
        SwappedIsWhole(specs, i, sets, before, networks);
        if !swapped {
          rolledBack := SwapBack(i, networks, start, before);
          return false, rolledBack;
        }
        SwapOne(specs, i, sets, kernel.sets, before, networks);
        SwappedIsWhole(specs, i + 1, kernel.sets, before, networks);
      }
      SwappedIsWhole(specs, |specs|, kernel.sets, before, networks);
      return true, true;
    }

    method SwapBack(n: nat, networks: seq<SourceNetwork>, ghost start: nat, ghost before: Sets)
      returns (rolledBack: bool)
      requires Valid() && AllGood(networks) && n <= |specs| && SwappedTo(specs, n, kernel.sets, before, networks)
      requires AlwaysWhole(specs, kernel.history, start, before, networks)
      modifies kernel
      ensures AlwaysWhole(specs, kernel.history, start, before, networks)
      ensures Whole(specs, kernel.sets, before, networks)
      ensures rolledBack ==> ActiveAs(specs, kernel.sets, before)
    {
      rolledBack := true;
      SwappedIsWhole(specs, n, kernel.sets, before, networks);
      for i := n downto 0
        invariant Paired(specs, kernel.sets, before, networks)
        invariant rolledBack ==> SwappedTo(specs, i, kernel.sets, before, networks)
        invariant AlwaysWhole(specs, kernel.history, start, before, networks)
      {
        ghost var sets := kernel.sets;
        var back := kernel.Swap(Active(specs[i]), Shadow(specs[i]));
        if back {
          SwapOneBack(specs, i, sets, kernel.sets, before, networks);
        }
        PairedIsWhole(specs, kernel.sets, before, networks);
        rolledBack := rolledBack && back;
      }
      PairedIsWhole(specs, kernel.sets, before, networks);
    }

    /** All or nothing over both families, unless a rollback fails; and at every moment
        every active set is there with its old or its new content. */
    method UpdateClientBypass(values: seq<string>) returns (out: Outcome)
      requires Valid() && (ready ==> ActiveThere(specs, kernel.sets))
      modifies kernel
      ensures out.Updated? ==>
                && Normalized(values, parse).Some? && AllGood(Normalized(values, parse).value)
                && out.normalized == Texts(Normalized(values, parse).value)
                && ActiveHold(specs, kernel.sets, Normalized(values, parse).value)
                && BypassListed(specs, kernel.sets, values, parse)
      ensures !kernel.mayFail && ready && Normalized(values, parse).Some? && !NameTooLong() ==> out.Updated?
      ensures out == Failed(true) ==> SameFamilies(specs, kernel.sets, old(kernel.sets))
      ensures Normalized(values, parse).None? || !ready ==> out == Failed(true)
      ensures ready ==> ActiveThere(specs, kernel.sets)
      ensures var networks := NetworksOf(values, parse);
              AllGood(networks) && AlwaysWhole(specs, kernel.history, |old(kernel.history)|, old(kernel.sets), networks)
    {
      GoodNetworksOf(values, parse);
      var normalized := NormalizeSourceNetworks(values, parse);
      if normalized.None? || !ready || NameTooLong() {
        return Failed(true);
      }
      var networks := normalized.value;
      ghost var start, before := |kernel.history|, kernel.sets;
      var filled := FillShadows(networks, start, before);
      if !filled {
        return Failed(true);
      }
      var ok, rolledBack := SwapAll(networks, start, before);
      ghost var swapped := kernel.sets;
      DestroyShadows(networks, start, before);
      if ok {
        HeldIsListed(specs, kernel.sets, values, parse);
      }
      return if ok then Updated(Texts(networks)) else Failed(rolledBack);
    }
  }

  function NetworksOf(values: seq<string>, parse: Parser): seq<SourceNetwork>
  {
    if Normalized(values, parse).Some? then Normalized(values, parse).value else []
  }

  lemma GoodNetworksOf(values: seq<string>, parse: Parser)
    requires IsParser(parse)
    ensures AllGood(NetworksOf(values, parse))
  {
    if Normalized(values, parse).Some? {
      NormalizedIsGood(values, parse);
    }
  }

  ghost predicate SameBut(n: Name, a: Sets, b: Sets)
  {
    forall m: Name | m != n :: (m in a <==> m in b) && (m in a ==> a[m] == b[m])
  }

  ghost predicate SameActive(a: Sets, b: Sets)
  {
    forall f: bool :: (Active(f) in a <==> Active(f) in b) && (Active(f) in a ==> a[Active(f)] == b[Active(f)])
  }

  ghost predicate SameFamilies(specs: seq<bool>, a: Sets, b: Sets)
  {
    forall i | 0 <= i < |specs| ::
      && (Active(specs[i]) in a <==> Active(specs[i]) in b)
      && (Active(specs[i]) in a ==> a[Active(specs[i])] == b[Active(specs[i])])
  }

  /** Since `was`, no set but `n` changed at any moment. */
  ghost predicate OnlyTouched(n: Name, history: seq<Sets>, was: seq<Sets>, sets: Sets)
  {
    && |was| <= |history| && history[..|was|] == was
    && forall k | |was| <= k < |history| :: SameBut(n, history[k], sets)
  }

  lemma StillTouched(n: Name, history: seq<Sets>, was: seq<Sets>, sets: Sets, first: seq<Sets>, before: Sets)
    requires OnlyTouched(n, history, was, sets) && OnlyTouched(n, was, first, before) && SameBut(n, sets, before)
    ensures OnlyTouched(n, history, first, before)
  {
    assert history[..|first|] == was[..|first|];
    forall k | |first| <= k < |history|
      ensures SameBut(n, history[k], before)
    {
      if k < |was| {
        assert history[k] == history[..|was|][k];
      }
    }
  }

  lemma ShadowsDoNotShow(specs: seq<bool>, n: Name, history: seq<Sets>, was: seq<Sets>, sets: Sets, start: nat,
                         before: Sets, networks: seq<SourceNetwork>)
    requires AllGood(networks) && n.Shadow? && OnlyTouched(n, history, was, sets)
    requires AlwaysWhole(specs, was, start, before, networks) && Whole(specs, sets, before, networks)
    ensures AlwaysWhole(specs, history, start, before, networks)
  {
    forall k | start <= k < |history|
      ensures Whole(specs, history[k], before, networks)
    {
      if k < |was| {
        assert history[k] == history[..|was|][k];
      }
    }
  }

  lemma WholeIfSameActive(specs: seq<bool>, now: Sets, was: Sets, before: Sets, networks: seq<SourceNetwork>)
    requires AllGood(networks)
    ensures SameActive(now, was) && Whole(specs, was, before, networks) ==> Whole(specs, now, before, networks)
  {
  }

  ghost predicate ShadowsFilled(specs: seq<bool>, n: nat, sets: Sets, networks: seq<SourceNetwork>)
    requires n <= |specs| && AllGood(networks)
  {
    forall i | 0 <= i < n :: Shadow(specs[i]) in sets && sets[Shadow(specs[i])] == Filled(networks, specs[i])
  }

  ghost predicate ActiveFilled(specs: seq<bool>, n: nat, sets: Sets, networks: seq<SourceNetwork>)
    requires n <= |specs| && AllGood(networks)
  {
    forall i | 0 <= i < n :: Active(specs[i]) in sets && sets[Active(specs[i])] == Filled(networks, specs[i])
  }

  /** Active and shadow of a family hold the old and the new content, in this order. */
  ghost predicate Straight(ipv6: bool, sets: Sets, before: Sets, networks: seq<SourceNetwork>)
    requires AllGood(networks)
  {
    && Active(ipv6) in sets && Shadow(ipv6) in sets && Active(ipv6) in before
    && sets[Active(ipv6)] == before[Active(ipv6)] && sets[Shadow(ipv6)] == Filled(networks, ipv6)
  }

  /** The other way round. */
  ghost predicate Swapped(ipv6: bool, sets: Sets, before: Sets, networks: seq<SourceNetwork>)
    requires AllGood(networks)
  {
    && Active(ipv6) in sets && Shadow(ipv6) in sets && Active(ipv6) in before
    && sets[Active(ipv6)] == Filled(networks, ipv6) && sets[Shadow(ipv6)] == before[Active(ipv6)]
  }

  ghost predicate SwappedTo(specs: seq<bool>, n: nat, sets: Sets, before: Sets, networks: seq<SourceNetwork>)
    requires n <= |specs| && AllGood(networks)
  {
    forall i | 0 <= i < |specs| ::
      if i < n then Swapped(specs[i], sets, before, networks) else Straight(specs[i], sets, before, networks)
  }

  ghost predicate Paired(specs: seq<bool>, sets: Sets, before: Sets, networks: seq<SourceNetwork>)
    requires AllGood(networks)
  {
    forall i | 0 <= i < |specs| ::
      Swapped(specs[i], sets, before, networks) || Straight(specs[i], sets, before, networks)
  }

  lemma PairedIsWhole(specs: seq<bool>, sets: Sets, before: Sets, networks: seq<SourceNetwork>)
    requires AllGood(networks) && Paired(specs, sets, before, networks)
    ensures Whole(specs, sets, before, networks)
  {
  }

  lemma SwappedIsWhole(specs: seq<bool>, n: nat, sets: Sets, before: Sets, networks: seq<SourceNetwork>)
    requires AllGood(networks) && n <= |specs| && SwappedTo(specs, n, sets, before, networks)
    ensures Paired(specs, sets, before, networks) && Whole(specs, sets, before, networks)
    ensures n == 0 ==> ActiveAs(specs, sets, before)
    ensures n == |specs| ==> ActiveHold(specs, sets, networks)
  {
  }

  lemma SwapOne(specs: seq<bool>, i: nat, sets: Sets, now: Sets, before: Sets, networks: seq<SourceNetwork>)
    requires GoodSpecs(specs) && AllGood(networks) && i < |specs| && SwappedTo(specs, i, sets, before, networks)
    requires now == sets[Active(specs[i]) := sets[Shadow(specs[i])]][Shadow(specs[i]) := sets[Active(specs[i])]]
    ensures SwappedTo(specs, i + 1, now, before, networks)
  {
  }

  lemma SwapOneBack(specs: seq<bool>, i: nat, sets: Sets, now: Sets, before: Sets, networks: seq<SourceNetwork>)
    requires GoodSpecs(specs) && AllGood(networks) && i < |specs| && Paired(specs, sets, before, networks)
    requires Active(specs[i]) in sets && Shadow(specs[i]) in sets
    requires now == sets[Active(specs[i]) := sets[Shadow(specs[i])]][Shadow(specs[i]) := sets[Active(specs[i])]]
    ensures Paired(specs, now, before, networks)
    ensures SwappedTo(specs, i + 1, sets, before, networks) ==> SwappedTo(specs, i, now, before, networks)
  {
    forall j | 0 <= j < |specs|
      ensures Swapped(specs[j], now, before, networks) || Straight(specs[j], now, before, networks)
    {
      assert Swapped(specs[j], sets, before, networks) || Straight(specs[j], sets, before, networks);
    }
  }

  /** The configured client networks beside the kernel's sets. */
  class ClientRouting {
    const helper: Helper
    const hasHelper: bool
    var sourceNetworks: seq<string>

    /** The kernel's active sets hold what the configuration says. */
    ghost predicate InSync()
      reads this, helper, helper.kernel
    {
      && helper.Valid()
      && (hasHelper && helper.ready ==>
                        Normalized(sourceNetworks, helper.parse).Some?
                        && AllGood(NetworksOf(sourceNetworks, helper.parse))
                        && ActiveHold(helper.specs, helper.kernel.sets, NetworksOf(sourceNetworks, helper.parse)))
    }

    constructor (helper: Helper, hasHelper: bool, sourceNetworks: seq<string>)
      ensures this.helper == helper && this.hasHelper == hasHelper && this.sourceNetworks == sourceNetworks
    {
      this.helper, this.hasHelper, this.sourceNetworks := helper, hasHelper, sourceNetworks;
    }

    method Save() returns (ok: bool)
      ensures !helper.kernel.mayFail ==> ok
    {
      ok := *;
      ok := ok || !helper.kernel.mayFail;
    }

    /** Configuration and kernel both carry the new networks, or both the old ones, unless
        putting the old ones back fails as well. */
    method SetClientRouting(supported: bool, values: seq<string>) returns (ok: bool, rolledBack: bool)
      requires InSync()
      modifies this`sourceNetworks, helper.kernel
      ensures ok ==> supported && Normalized(values, helper.parse).Some?
                     && sourceNetworks == Texts(NetworksOf(values, helper.parse)) && InSync()
      ensures (!helper.kernel.mayFail && supported && Normalized(values, helper.parse).Some?
               && (hasHelper ==> helper.ready && !helper.NameTooLong())) ==> ok
      ensures ok && hasHelper ==> BypassListed(helper.specs, helper.kernel.sets, values, helper.parse)
      ensures !ok && rolledBack ==> sourceNetworks == old(sourceNetworks) && InSync()
      ensures !ok ==> sourceNetworks == old(sourceNetworks)
      ensures hasHelper && helper.ready ==> ActiveThere(helper.specs, helper.kernel.sets)
      ensures hasHelper && !helper.ready ==> !ok
    {
      if !supported {
        return false, true;
      }
      var before := sourceNetworks;
      var networks := NormalizeSourceNetworks(values, helper.parse);
      if networks.None? {
        return false, true;
      }
      NormalizedTwice(values, helper.parse);
      var normalized := Texts(networks.value);
      if hasHelper {
        var out := helper.UpdateClientBypass(normalized);
        if out.Failed? {
          return false, out.rolledBack;
        }
        normalized := out.normalized;
        HeldIsListed(helper.specs, helper.kernel.sets, values, helper.parse);
      }
      sourceNetworks := normalized;
      ok := Save();
      rolledBack := true;
      if !ok {
        if hasHelper {
          var out := helper.UpdateClientBypass(before);
          rolledBack := out.Updated?;
        }
        sourceNetworks := before;
      }
    }
  }
}

/**
  The chains and rules of the routing groups, as the three kinds of link write them. A group
  owns one chain name and its sets; the chain matches the set, and a jump from a built-in
  chain leads to it. Whatever the route and the table, the rules of a group's chain name
  only the group's own sets and go to built-in targets only.
 */
module GroupRules {
  import opened Text
  import opened Netfilter
  import opened Chains
  import opened Convergence
  import opened Reconciler
  import opened Teardown
  import opened IPTables
  import Preamble

  datatype Route = Direct | Blackhole | Interface(iface: string) | TProxy(port: nat, refresh: nat)

  /** A group as one address family's rules see it: its chain, the set they match and the
      mirror of its static networks, among the sets the group owns in all families. */
  datatype Place = Place(chain: string, route: Route, main: string, mirror: string, owned: set<string>)

  /** Where a chain stands and what leads to it. */
  datatype Joint = Joint(table: string, hook: string, jump: Rule)

  /** The name of a set or an interface does not look like an option. */
  predicate IsName(s: string) { s != "" && s[0] != '-' }

  /** The built-in chains that jump to ours. */
  predicate IsHook(t: string, c: string)
  {
    (c == "FORWARD" && t == "filter") || (c == "PREROUTING" && (t == "mangle" || t == "nat"))
    || (c == "POSTROUTING" && t == "nat")
  }

  /** Targets that are no chains; the kernel takes no chain of these names. */
  predicate IsBuiltIn(target: string)
  {
    !IsName(target)
    || target in {"ACCEPT", "RETURN", "MARK", "CONNMARK", "MASQUERADE", "REDIRECT", "SET", "TPROXY"}
  }

  predicate GoodPlace(p: Place)
  {
    && IsToken(p.chain) && !IsBuiltIn(p.chain)
    && p.chain !in {"FORWARD", "PREROUTING", "POSTROUTING", Preamble.PREAMBLE}
    && IsToken(p.main) && IsToken(p.mirror) && {p.main, p.mirror} <= p.owned
    && (forall name | name in p.owned :: IsName(name))
    && (p.route.Interface? ==> IsToken(p.route.iface) && IsName(p.route.iface))
  }

  predicate GoodPlaces(places: seq<Place>, bypass: string)
  {
    && IsToken(bypass) && IsName(bypass)
    && (forall i | 0 <= i < |places| :: GoodPlace(places[i]) && bypass !in places[i].owned)
    && (forall i, j | 0 <= i < j < |places| ::
          places[i].chain != places[j].chain && places[i].owned !! places[j].owned)
  }

  // ---- The rules ----

  function Match(name: string, side: string): Rule { ["-m", "set", "--match-set", name, side] }

  /** Clients of the bypass set leave every chain of ours at once. */
  function Guard(bypass: string): Rule { Match(bypass, "src") + ["-j", "RETURN"] }

  function Joints(p: Place): seq<Joint>
  {
    match p.route
    case Direct =>
      [Joint("mangle", "PREROUTING", Preamble.JumpTo(p.chain)), Joint("nat", "PREROUTING", Preamble.JumpTo(p.chain))]
    case TProxy(_, _) =>
      [Joint("nat", "PREROUTING", Preamble.JumpTo(p.chain)), Joint("mangle", "PREROUTING", Preamble.JumpTo(p.chain))]
    case _ =>
      [Joint("filter", "FORWARD", ["-j", p.chain]), Joint("mangle", "PREROUTING", Preamble.JumpTo(p.chain)),
       Joint("nat", "POSTROUTING", ["-j", p.chain])]
  }

  /** The first matching group ends the traversal of the table. */
  function MarkRules(p: Place, mark: nat): seq<Rule>
  {
    [Match(p.main, "dst") + ["-j", "MARK", "--set-mark", Itoa(mark)],
     Match(p.main, "dst") + ["-j", "CONNMARK", "--save-mark"],
     Match(p.main, "dst") + ["-j", "ACCEPT"]]
  }

  /** A new connection to a listed address renews its entry, unless a static network covers it. */
  function RefreshRule(p: Place, refresh: nat): Rule
  {
    ["-m", "conntrack", "--ctstate", "NEW"] + Match(p.main, "dst")
    + ["-m", "set", "!", "--match-set", p.mirror, "dst"]
    + ["-j", "SET", "--add-set", p.main, "dst", "--exist", "--timeout", Itoa(refresh)]
  }

  function Udp(p: Place): Rule { ["-p", "udp"] + Match(p.main, "dst") }

  function ProxyRules(p: Place, port: nat, mark: nat): seq<Rule>
  {
    var masked := Itoa(mark) + "/" + Itoa(mark);
    [Udp(p) + ["-m", "socket"] + ["-j", "MARK", "--set-xmark", masked],
     Udp(p) + ["-m", "socket"] + ["-j", "ACCEPT"],
     Udp(p) + ["-j", "TPROXY", "--on-port", Itoa(port), "--tproxy-mark", masked]]
  }

  /** The rules of the group's chain in a table, after the guard. */
  function RulesIn(p: Place, t: string, mark: nat): seq<Rule>
  {
    match p.route
    case Direct => [Match(p.main, "dst") + ["-j", "ACCEPT"]]
    case TProxy(port, refresh) =>
      if t == "nat" then
        [["-p", "tcp"] + Match(p.main, "dst") + ["-j", "REDIRECT", "--to-port", Itoa(port)]]
      else
        (if refresh > 0 then [RefreshRule(p, refresh)] else []) + ProxyRules(p, port, mark)
    case Blackhole => LinkRules(p, t, mark, [])
    case Interface(iface) => LinkRules(p, t, mark, [["-o", iface] + Match(p.main, "dst") + ["-j", "ACCEPT"]])
  }

  function LinkRules(p: Place, t: string, mark: nat, forwarding: seq<Rule>): seq<Rule>
  {
    if t == "filter" then forwarding
    else if t == "mangle" then MarkRules(p, mark)
    else [Match(p.main, "dst") + ["-j", "MASQUERADE"]]
  }

  /** Follow the mark a connection was given in its original direction. */
  const RESTORE_MARK: Rule := ["-m", "conntrack", "--ctdir", "ORIGINAL"] + ["-j", "CONNMARK", "--restore-mark"]
  const MARKED_PASS: Rule := ["-m", "mark", "!", "--mark", "0x0"] + ["-j", "ACCEPT"]

  // ---- Which sets a rule names ----

  /** The rule goes to no chain of ours. */
  ghost predicate StaysBuiltIn(r: Rule)
  {
    forall i | 0 <= i < |r| - 1 && r[i] == "-j" :: IsBuiltIn(r[i + 1])
  }

  /** Made of tokens, going to built-in targets, and naming no set but these. */
  ghost predicate NamesOnly(r: Rule, names: set<string>)
  {
    CleanRule(r) && StaysBuiltIn(r) && forall name | IsName(name) && Mentions(r, name) :: name in names
  }

  /** Made of tokens and naming no set. */
  ghost predicate Silent(r: Rule)
  {
    CleanRule(r) && forall name | IsName(name) :: !Mentions(r, name)
  }

  lemma NamesOnlySum(a: Rule, b: Rule, names: set<string>)
    requires NamesOnly(a, names) && NamesOnly(b, names) && b != [] && !IsName(b[0])
    ensures NamesOnly(a + b, names)
  {
    var r := a + b;
    forall i | 0 <= i < |r| - 1 && r[i] == "-j"
      ensures IsBuiltIn(r[i + 1])
    {
      if i + 1 < |a| {
        assert a[i] == "-j" && IsBuiltIn(a[i + 1]);
      } else if i >= |a| {
        assert b[i - |a|] == "-j" && IsBuiltIn(b[i - |a| + 1]);
      }
    }
    forall name | IsName(name) && Mentions(r, name)
      ensures name in names
    {
      var i :| 0 <= i < |r| - 1 && IsSetOption(r[i]) && r[i + 1] == name;
      if i + 1 < |a| {
        assert IsSetOption(a[i]) && a[i + 1] == name;
        assert Mentions(a, name);
      } else if i >= |a| {
        assert IsSetOption(b[i - |a|]) && b[i - |a| + 1] == name;
        assert Mentions(b, name);
      }
    }
  }

  lemma MatchNames(name: string, side: string, names: set<string>)
    requires IsToken(name) && IsName(name) && name in names && IsToken(side)
    ensures NamesOnly(Match(name, side), names) && Mentions(Match(name, side), name)
  {
    assert Match(name, side)[2] == "--match-set" && Match(name, side)[3] == name;
    assert IsToken("-m") && IsToken("set") && IsToken("--match-set");
  }

  /** A short piece of a rule without a set option before a name. */
  lemma PieceNames(r: Rule, names: set<string>)
    requires CleanRule(r) && StaysBuiltIn(r)
    requires forall i | 0 <= i < |r| - 1 && IsSetOption(r[i]) :: r[i + 1] in names || !IsName(r[i + 1])
    ensures NamesOnly(r, names)
  {
  }

  /** A matched packet goes to a target. */
  lemma MatchTargetNames(name: string, side: string, target: Rule, names: set<string>)
    requires IsToken(name) && IsName(name) && name in names && IsToken(side)
    requires NamesOnly(target, names) && target != [] && !IsName(target[0])
    ensures NamesOnly(Match(name, side) + target, names) && Mentions(Match(name, side) + target, name)
  {
    MatchNames(name, side, names);
    NamesOnlySum(Match(name, side), target, names);
    assert (Match(name, side) + target)[2] == "--match-set" && (Match(name, side) + target)[3] == name;
  }

  lemma GuardNames(bypass: string)
    requires IsToken(bypass) && IsName(bypass)
    ensures NamesOnly(Guard(bypass), {bypass})
  {
    PieceNames(["-j", "RETURN"], {bypass});
    MatchTargetNames(bypass, "src", ["-j", "RETURN"], {bypass});
  }

  lemma JumpNames(chain: string)
    requires IsToken(chain)
    ensures Silent(Preamble.JumpTo(chain)) && Silent(["-j", chain])
  {
  }

  lemma ConntrackNames(option: string, value: string, names: set<string>)
    requires IsToken(option) && !IsName(option) && option != "-j" && !IsSetOption(option) && IsToken(value)
    ensures NamesOnly(["-m", "conntrack", option, value], names)
  {
    PieceNames(["-m", "conntrack", option, value], names);
  }

  lemma RestoreMarkNames()
    ensures NamesOnly(RESTORE_MARK, {})
  {
    ConntrackNames("--ctdir", "ORIGINAL", {});
    PieceNames(["-j", "CONNMARK", "--restore-mark"], {});
    NamesOnlySum(["-m", "conntrack", "--ctdir", "ORIGINAL"], ["-j", "CONNMARK", "--restore-mark"], {});
  }

  lemma MarkedPassNames()
    ensures NamesOnly(MARKED_PASS, {})
  {
    PieceNames(["-m", "mark", "!", "--mark", "0x0"], {});
    PieceNames(["-j", "ACCEPT"], {});
    NamesOnlySum(["-m", "mark", "!", "--mark", "0x0"], ["-j", "ACCEPT"], {});
  }

  ghost predicate Own(p: Place, r: Rule) { NamesOnly(r, {p.main, p.mirror}) }

  ghost predicate AllOwn(p: Place, rules: seq<Rule>)
  {
    forall i | 0 <= i < |rules| :: Own(p, rules[i])
  }

  lemma TargetOwn(p: Place, target: Rule)
    requires GoodPlace(p) && Own(p, target) && target != [] && !IsName(target[0])
    ensures Own(p, Match(p.main, "dst") + target) && Mentions(Match(p.main, "dst") + target, p.main)
  {
    assert p.main in p.owned;
    assert IsToken("dst");
    MatchTargetNames(p.main, "dst", target, {p.main, p.mirror});
  }

  lemma AcceptOwn(p: Place)
    requires GoodPlace(p)
    ensures Own(p, Match(p.main, "dst") + ["-j", "ACCEPT"]) && Mentions(Match(p.main, "dst") + ["-j", "ACCEPT"], p.main)
  {
    PieceNames(["-j", "ACCEPT"], {p.main, p.mirror});
    TargetOwn(p, ["-j", "ACCEPT"]);
  }

  lemma SetMarkOwn(p: Place, mark: nat)
    requires GoodPlace(p)
    ensures Own(p, Match(p.main, "dst") + ["-j", "MARK", "--set-mark", Itoa(mark)])
  {
    ItoaIsToken(mark);
    PieceNames(["-j", "MARK", "--set-mark", Itoa(mark)], {p.main, p.mirror});
    TargetOwn(p, ["-j", "MARK", "--set-mark", Itoa(mark)]);
  }

  lemma SaveMarkOwn(p: Place)
    requires GoodPlace(p)
    ensures Own(p, Match(p.main, "dst") + ["-j", "CONNMARK", "--save-mark"])
  {
    PieceNames(["-j", "CONNMARK", "--save-mark"], {p.main, p.mirror});
    TargetOwn(p, ["-j", "CONNMARK", "--save-mark"]);
  }

  lemma MarkRulesOwn(p: Place, mark: nat)
    requires GoodPlace(p)
    ensures AllOwn(p, MarkRules(p, mark)) && SomeMentions(MarkRules(p, mark), p.main)
  {
    SetMarkOwn(p, mark);
    SaveMarkOwn(p);
    AcceptOwn(p);
    assert Mentions(MarkRules(p, mark)[2], p.main);
  }

  lemma MasqueradeOwn(p: Place)
    requires GoodPlace(p)
    ensures Own(p, Match(p.main, "dst") + ["-j", "MASQUERADE"])
  {
    PieceNames(["-j", "MASQUERADE"], {p.main, p.mirror});
    TargetOwn(p, ["-j", "MASQUERADE"]);
  }

  lemma ForwardOwn(p: Place, iface: string)
    requires GoodPlace(p) && IsToken(iface)
    ensures Own(p, ["-o", iface] + Match(p.main, "dst") + ["-j", "ACCEPT"])
  {
    AcceptOwn(p);
    PieceNames(["-o", iface], {p.main, p.mirror});
    NamesOnlySum(["-o", iface], Match(p.main, "dst") + ["-j", "ACCEPT"], {p.main, p.mirror});
    assert ["-o", iface] + (Match(p.main, "dst") + ["-j", "ACCEPT"])
        == ["-o", iface] + Match(p.main, "dst") + ["-j", "ACCEPT"];
  }

  lemma RefreshOwn(p: Place, refresh: nat)
    requires GoodPlace(p)
    ensures Own(p, RefreshRule(p, refresh))
  {
    var names := {p.main, p.mirror};
    var renew := ["-j", "SET", "--add-set", p.main, "dst", "--exist", "--timeout", Itoa(refresh)];
    var unless := ["-m", "set", "!", "--match-set", p.mirror, "dst"];
    ItoaIsToken(refresh);
    RenewNames(p.main, refresh, names);
    UnlessNames(p.mirror, names);
    NamesOnlySum(unless, renew, names);
    TargetOwn(p, unless + renew);
    ConntrackNames("--ctstate", "NEW", names);
    NamesOnlySum(["-m", "conntrack", "--ctstate", "NEW"], Match(p.main, "dst") + (unless + renew), names);
    assert ["-m", "conntrack", "--ctstate", "NEW"] + (Match(p.main, "dst") + (unless + renew))
           == RefreshRule(p, refresh);
  }

  lemma RenewNames(name: string, refresh: nat, names: set<string>)
    requires IsToken(name) && IsName(name) && name in names
    ensures NamesOnly(["-j", "SET", "--add-set", name, "dst", "--exist", "--timeout", Itoa(refresh)], names)
  {
    ItoaIsToken(refresh);
    PieceNames(["-j", "SET", "--add-set", name, "dst", "--exist", "--timeout", Itoa(refresh)], names);
  }

  lemma UnlessNames(name: string, names: set<string>)
    requires IsToken(name) && IsName(name) && name in names
    ensures NamesOnly(["-m", "set", "!", "--match-set", name, "dst"], names)
  {
    PieceNames(["-m", "set", "!", "--match-set", name, "dst"], names);
  }

  lemma ProtocolOwn(p: Place, protocol: string, target: Rule)
    requires GoodPlace(p) && IsToken(protocol) && Own(p, target) && target != [] && !IsName(target[0])
    ensures Own(p, ["-p", protocol] + Match(p.main, "dst") + target)
    ensures Mentions(["-p", protocol] + Match(p.main, "dst") + target, p.main)
  {
    TargetOwn(p, target);
    PieceNames(["-p", protocol], {p.main, p.mirror});
    NamesOnlySum(["-p", protocol], Match(p.main, "dst") + target, {p.main, p.mirror});
    var r := ["-p", protocol] + Match(p.main, "dst") + target;
    assert r == ["-p", protocol] + (Match(p.main, "dst") + target);
    assert r[4] == "--match-set" && r[5] == p.main;
  }

  lemma RedirectOwn(p: Place, port: nat)
    requires GoodPlace(p)
    ensures Own(p, ["-p", "tcp"] + Match(p.main, "dst") + ["-j", "REDIRECT", "--to-port", Itoa(port)])
  {
    ItoaIsToken(port);
    PieceNames(["-j", "REDIRECT", "--to-port", Itoa(port)], {p.main, p.mirror});
    ProtocolOwn(p, "tcp", ["-j", "REDIRECT", "--to-port", Itoa(port)]);
  }

  lemma SocketOwn(p: Place, target: Rule)
    requires GoodPlace(p) && Own(p, target) && target != [] && !IsName(target[0])
    ensures Own(p, Udp(p) + ["-m", "socket"] + target)
  {
    PieceNames(["-m", "socket"], {p.main, p.mirror});
    NamesOnlySum(["-m", "socket"], target, {p.main, p.mirror});
    ProtocolOwn(p, "udp", ["-m", "socket"] + target);
    assert Udp(p) + (["-m", "socket"] + target) == Udp(p) + ["-m", "socket"] + target;
  }

  lemma DivertOwn(p: Place, mark: nat)
    requires GoodPlace(p)
    ensures Own(p, Udp(p) + ["-m", "socket"] + ["-j", "MARK", "--set-xmark", Itoa(mark) + "/" + Itoa(mark)])
  {
    ItoaIsToken(mark);
    PieceNames(["-j", "MARK", "--set-xmark", Itoa(mark) + "/" + Itoa(mark)], {p.main, p.mirror});
    SocketOwn(p, ["-j", "MARK", "--set-xmark", Itoa(mark) + "/" + Itoa(mark)]);
  }

  lemma DivertedPassOwn(p: Place)
    requires GoodPlace(p)
    ensures Own(p, Udp(p) + ["-m", "socket"] + ["-j", "ACCEPT"])
  {
    PieceNames(["-j", "ACCEPT"], {p.main, p.mirror});
    SocketOwn(p, ["-j", "ACCEPT"]);
  }

  lemma TargetNames(port: string, masked: string, names: set<string>)
    requires IsToken(port) && IsToken(masked)
    ensures NamesOnly(["-j", "TPROXY", "--on-port", port, "--tproxy-mark", masked], names)
  {
    PieceNames(["-j", "TPROXY", "--on-port", port, "--tproxy-mark", masked], names);
  }

  lemma ProxyOwn(p: Place, port: nat, mark: nat)
    requires GoodPlace(p)
    ensures var rule := Udp(p) + ["-j", "TPROXY", "--on-port", Itoa(port), "--tproxy-mark",
                                  Itoa(mark) + "/" + Itoa(mark)];
            Own(p, rule) && Mentions(rule, p.main)
  {
    ItoaIsToken(port);
    ItoaIsToken(mark);
    TargetNames(Itoa(port), Itoa(mark) + "/" + Itoa(mark), {p.main, p.mirror});
    ProtocolOwn(p, "udp", ["-j", "TPROXY", "--on-port", Itoa(port), "--tproxy-mark", Itoa(mark) + "/" + Itoa(mark)]);
  }

  lemma ProxyRulesOwn(p: Place, port: nat, mark: nat)
    requires GoodPlace(p)
    ensures AllOwn(p, ProxyRules(p, port, mark)) && Mentions(ProxyRules(p, port, mark)[2], p.main)
  {
    DivertOwn(p, mark);
    DivertedPassOwn(p);
    ProxyOwn(p, port, mark);
  }

  /** A group's rules name its own sets only ... */
  lemma RulesAreOwn(p: Place, t: string, mark: nat)
    requires GoodPlace(p)
    ensures AllOwn(p, RulesIn(p, t, mark))
  {
    match p.route
    case Direct => AcceptOwn(p);
    case TProxy(port, refresh) =>
      RedirectOwn(p, port);
      RefreshOwn(p, refresh);
      ProxyRulesOwn(p, port, mark);
    case Blackhole => LinkRulesOwn(p, t, mark, []);
    case Interface(iface) =>
      ForwardOwn(p, iface);
      LinkRulesOwn(p, t, mark, [["-o", iface] + Match(p.main, "dst") + ["-j", "ACCEPT"]]);
  }

  lemma LinkRulesOwn(p: Place, t: string, mark: nat, forwarding: seq<Rule>)
    requires GoodPlace(p) && AllOwn(p, forwarding)
    ensures AllOwn(p, LinkRules(p, t, mark, forwarding))
  {
    MarkRulesOwn(p, mark);
    MasqueradeOwn(p);
  }

  /** ... and in the mangle table there is one that names its set. */
  lemma MangleNamesSet(p: Place, mark: nat)
    requires GoodPlace(p)
    ensures SomeMentions(RulesIn(p, "mangle", mark), p.main)
  {
    match p.route
    case Direct =>
      AcceptOwn(p);
      assert Mentions(RulesIn(p, "mangle", mark)[0], p.main);
    case TProxy(port, refresh) =>
      ProxyRulesOwn(p, port, mark);
      var rules := RulesIn(p, "mangle", mark);
      assert rules[|rules| - 1] == ProxyRules(p, port, mark)[2];
    case _ => MarkRulesOwn(p, mark);
  }

  lemma ItoaIsToken(n: nat)
    ensures IsToken(Itoa(n)) && IsToken(Itoa(n) + "/" + Itoa(n))
  {
  }
}

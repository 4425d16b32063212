/**
  What a group's rules do to a packet. The rules are read token by token, as the kernel
  would: the matches in front of `-j`, then the target. A chain is walked until a target
  ends the traversal of the table, or the packet comes back from the chain.
 */
module Packets {
  import opened Text
  import opened Netfilter
  import opened GroupRules
  import Preamble

  /** A packet and its connection: the sets its addresses are in, where it comes from and
      goes, whether a local socket waits for it, whether its connection is new and it goes
      in the original direction, both marks, and the set entries renewed on its way. */
  datatype Packet = Packet(source: set<string>, dest: set<string>, protocol: string, input: string, output: string,
                           socket: bool, isNew: bool, original: bool, mark: nat, connmark: nat,
                           renewed: seq<(string, nat)>)

  datatype Verdict = Accepted | Masqueraded | Redirected(port: nat) | Proxied(port: nat)

  /** What a rule does: the packet goes on, leaves the chain, or is done with in this table. */
  datatype Step = Next(p: Packet) | Back(p: Packet) | Stop(p: Packet, verdict: Verdict)

  /** What a chain does: the packet comes back from it, or is done with in this table. */
  datatype Fate = Through(p: Packet) | Ended(p: Packet, verdict: Verdict)

  // ---- Reading a rule ----

  predicate InSet(p: Packet, name: string, side: string) { name in if side == "src" then p.source else p.dest }

  /** The matches in front of the target hold. What is none of these does not match. */
  predicate Matched(r: Rule, p: Packet)
  {
    if r == [] || r[0] == "-j" then true
    else if |r| >= 2 && r[0] == "-m" then (r[1] == "socket" ==> p.socket) && Matched(r[2..], p)
    else if |r| >= 2 && r[0] == "-p" then r[1] == p.protocol && Matched(r[2..], p)
    else if |r| >= 2 && r[0] == "-o" then r[1] == p.output && Matched(r[2..], p)
    else if |r| >= 2 && r[0] == "--ctstate" then r[1] == "NEW" && p.isNew && Matched(r[2..], p)
    else if |r| >= 2 && r[0] == "--ctdir" then r[1] == "ORIGINAL" && p.original && Matched(r[2..], p)
    else if |r| >= 3 && r[0] == "--match-set" then InSet(p, r[1], r[2]) && Matched(r[3..], p)
    else if |r| >= 3 && r[0] == "!" && r[1] == "-i" then r[2] != p.input && Matched(r[3..], p)
    else if |r| >= 3 && r[0] == "!" && r[1] == "--mark" then r[2] == "0x0" && p.mark != 0 && Matched(r[3..], p)
    else if |r| >= 4 && r[0] == "!" && r[1] == "--match-set" then !InSet(p, r[2], r[3]) && Matched(r[4..], p)
    else false
  }

  function Target(r: Rule): seq<string>
  {
    if r == [] then [] else if r[0] == "-j" then r[1..] else Target(r[1..])
  }

  function Number(s: string): nat
  {
    match Atoi(s)
    case Some(n) => if n >= 0 then n else 0
    case None => 0
  }

  /** A mark is written alone, or as value and mask. */
  function ValueOf(s: string): nat { Number(Split(s, '/')[0]) }

  function MaskOf(s: string): nat
  {
    if |Split(s, '/')| > 1 then Number(Split(s, '/')[1]) else 0xFFFF_FFFF
  }

  /** The bits of the mask are cleared, then those of the value are flipped. */
  function Xmark(mark: nat, value: nat, mask: nat): nat
    decreases value + mask
  {
    if value == 0 && mask == 0 then mark
    else 2 * Xmark(mark / 2, value / 2, mask / 2)
         + ((if mask % 2 == 1 then 0 else mark % 2) + value % 2) % 2
  }

  /** What a target does. What is none of these lets the packet go on. */
  function Act(target: seq<string>, p: Packet): Step
  {
    if target == ["ACCEPT"] then Stop(p, Accepted)
    else if target == ["RETURN"] then Back(p)
    else if target == ["MASQUERADE"] then Stop(p, Masqueraded)
    else if target == ["CONNMARK", "--save-mark"] then Next(p.(connmark := p.mark))
    else if target == ["CONNMARK", "--restore-mark"] then Next(p.(mark := p.connmark))
    else if |target| == 3 && target[..2] == ["MARK", "--set-mark"] then Next(p.(mark := Number(target[2])))
    else if |target| == 3 && target[..2] == ["MARK", "--set-xmark"] then
      Next(p.(mark := Xmark(p.mark, ValueOf(target[2]), MaskOf(target[2]))))
    else if |target| == 3 && target[..2] == ["REDIRECT", "--to-port"] then Stop(p, Redirected(Number(target[2])))
    else if |target| == 5 && target[..2] == ["TPROXY", "--on-port"] && target[3] == "--tproxy-mark" then
      Stop(p.(mark := Xmark(p.mark, ValueOf(target[4]), MaskOf(target[4]))), Proxied(Number(target[2])))
    else if |target| == 7 && target[..2] == ["SET", "--add-set"] && target[4..6] == ["--exist", "--timeout"] then
      Next(p.(renewed := p.renewed + [(target[2], Number(target[6]))]))
    else Next(p)
  }

  function Apply(r: Rule, p: Packet): Step { if Matched(r, p) then Act(Target(r), p) else Next(p) }

  function Walk(rules: seq<Rule>, p: Packet): Fate
  {
    if rules == [] then Through(p)
    else
      match Apply(rules[0], p)
      case Next(q) => Walk(rules[1..], q)
      case Back(q) => Through(q)
      case Stop(q, verdict) => Ended(q, verdict)
  }

  // ---- Numbers in rules ----

  predicate IsWord(n: nat) { n < 0x1_0000_0000 }

  lemma {:induction false} DigitsHaveNoSlash(n: nat)
    ensures '/' !in Digits(n)
  {
    assert forall c | c in Digits(n) :: IsDigit(c);
  }

  lemma NumberReadsBack(n: nat)
    requires IsWord(n)
    ensures Number(Itoa(n)) == n && ValueOf(Itoa(n) + "/" + Itoa(n)) == n && MaskOf(Itoa(n) + "/" + Itoa(n)) == n
  {
    AtoiItoa(n);
    DigitsHaveNoSlash(n);
    SplitWord(Itoa(n), '/');
    SplitAtSeparator(Itoa(n), Itoa(n), '/');
    assert Itoa(n) + "/" + Itoa(n) == Itoa(n) + ['/'] + Itoa(n);
  }

  /** The bit of a number, the lowest at 0. */
  predicate Bit(n: nat, i: nat)
  {
    if i == 0 then n % 2 == 1 else Bit(n / 2, i - 1)
  }

  lemma {:induction false} ZeroHasNoBits(i: nat)
    ensures !Bit(0, i)
  {
    if i > 0 {
      ZeroHasNoBits(i - 1);
    }
  }

  /** Under its own mask a value is added bit by bit to the mark. */
  lemma {:induction false} OwnMaskAddsBits(mark: nat, value: nat, i: nat)
    ensures Bit(Xmark(mark, value, value), i) <==> Bit(mark, i) || Bit(value, i)
    decreases i
  {
    if value == 0 {
      ZeroHasNoBits(i);
    } else if i > 0 {
      OwnMaskAddsBits(mark / 2, value / 2, i - 1);
      var low := ((if value % 2 == 1 then 0 else mark % 2) + value % 2) % 2;
      TopOf(Xmark(mark / 2, value / 2, value / 2), low);
    } else {
      var low := ((if value % 2 == 1 then 0 else mark % 2) + value % 2) % 2;
      TopOf(Xmark(mark / 2, value / 2, value / 2), low);
    }
  }

  lemma TopOf(top: nat, low: nat)
    requires low < 2
    ensures (2 * top + low) / 2 == top && (2 * top + low) % 2 == low
  {
  }

  // ---- Pieces of a rule ----

  lemma {:induction false} TargetBehind(a: Rule, target: Rule)
    requires "-j" !in a && target != [] && target[0] == "-j"
    ensures Target(a + target) == target[1..]
  {
    if a == [] {
      assert a + target == target;
    } else {
      assert (a + target)[1..] == a[1..] + target;
      TargetBehind(a[1..], target);
    }
  }

  lemma MatchesSet(name: string, side: string, rest: Rule, p: Packet)
    ensures Matched(Match(name, side) + rest, p) <==> InSet(p, name, side) && Matched(rest, p)
  {
    var r := Match(name, side) + rest;
    assert r[2..] == ["--match-set", name, side] + rest;
    assert r[2..][3..] == rest;
  }

  lemma MatchesPair(value: string, rest: Rule, p: Packet)
    ensures Matched(["-p", value] + rest, p) <==> value == p.protocol && Matched(rest, p)
    ensures Matched(["-o", value] + rest, p) <==> value == p.output && Matched(rest, p)
    ensures Matched(["-m", "socket"] + rest, p) <==> p.socket && Matched(rest, p)
  {
    assert (["-p", value] + rest)[2..] == rest;
    assert (["-o", value] + rest)[2..] == rest;
    assert (["-m", "socket"] + rest)[2..] == rest;
  }

  lemma SetRule(name: string, side: string, target: Rule, p: Packet)
    requires IsName(name) && side != "-j" && target != [] && target[0] == "-j"
    ensures Apply(Match(name, side) + target, p) == if InSet(p, name, side) then Act(target[1..], p) else Next(p)
  {
    MatchesSet(name, side, target, p);
    assert Match(name, side)[3] == name && Match(name, side)[4] == side;
    TargetBehind(Match(name, side), target);
  }

  lemma PairRule(first: string, value: string, rest: Rule, p: Packet)
    requires (first == "-p" && IsName(value)) || (first == "-o" && value != "-j")
             || (first == "-m" && value == "socket")
    ensures Apply([first, value] + rest, p) ==
            if (first == "-p" && value != p.protocol) || (first == "-o" && value != p.output)
               || (first == "-m" && !p.socket) then Next(p) else Apply(rest, p)
  {
    MatchesPair(value, rest, p);
    var r := [first, value] + rest;
    assert r[0] == first && first != "-j" && r[1..] == [value] + rest;
    assert value != "-j" && ([value] + rest)[1..] == rest;
    assert Target(r) == Target([value] + rest) == Target(rest);
  }

  lemma WalkOn(r: Rule, rest: seq<Rule>, p: Packet)
    ensures Apply(r, p).Next? ==> Walk([r] + rest, p) == Walk(rest, Apply(r, p).p)
    ensures Apply(r, p).Back? ==> Walk([r] + rest, p) == Through(Apply(r, p).p)
    ensures Apply(r, p).Stop? ==> Walk([r] + rest, p) == Ended(Apply(r, p).p, Apply(r, p).verdict)
  {
    assert ([r] + rest)[1..] == rest;
  }

  // ---- The guard ----

  /** A client of the bypass set leaves at once; anyone else comes to the rules. */
  lemma GuardLetsOthersIn(bypass: string, rules: seq<Rule>, p: Packet)
    requires IsName(bypass)
    ensures Walk([Guard(bypass)] + rules, p) == if bypass in p.source then Through(p) else Walk(rules, p)
  {
    SetRule(bypass, "src", ["-j", "RETURN"], p);
    WalkOn(Guard(bypass), rules, p);
    assert ["-j", "RETURN"][1..] == ["RETURN"];
  }

  // ---- Direct groups ----

  lemma ListedRule(place: Place, target: Rule, p: Packet)
    requires GoodPlace(place) && target != [] && target[0] == "-j"
    ensures Apply(Match(place.main, "dst") + target, p) ==
            if place.main in p.dest then Act(target[1..], p) else Next(p)
  {
    assert place.main in place.owned;
    SetRule(place.main, "dst", target, p);
  }

  /** A direct group takes what it lists out of every table it has a chain in, as it came. */
  lemma DirectChain(place: Place, bypass: string, t: string, mark: nat, p: Packet)
    requires GoodPlace(place) && IsName(bypass) && place.route.Direct?
    ensures Walk([Guard(bypass)] + RulesIn(place, t, mark), p) ==
            if bypass in p.source || place.main !in p.dest then Through(p) else Ended(p, Accepted)
  {
    GuardLetsOthersIn(bypass, RulesIn(place, t, mark), p);
    AcceptRule(place, p);
  }

  lemma AcceptRule(place: Place, p: Packet)
    requires GoodPlace(place)
    ensures Walk([Match(place.main, "dst") + ["-j", "ACCEPT"]], p) ==
            if place.main in p.dest then Ended(p, Accepted) else Through(p)
  {
    ListedRule(place, ["-j", "ACCEPT"], p);
    assert ["-j", "ACCEPT"][1..] == ["ACCEPT"];
    WalkOn(Match(place.main, "dst") + ["-j", "ACCEPT"], [], p);
    assert [Match(place.main, "dst") + ["-j", "ACCEPT"]] + [] == [Match(place.main, "dst") + ["-j", "ACCEPT"]];
  }

  // ---- Interface groups and black holes ----

  lemma MarkRule(place: Place, mark: nat, p: Packet)
    requires GoodPlace(place) && IsWord(mark)
    ensures Apply(Match(place.main, "dst") + ["-j", "MARK", "--set-mark", Itoa(mark)], p) ==
            Next(if place.main in p.dest then p.(mark := mark) else p)
  {
    var target := ["MARK", "--set-mark", Itoa(mark)];
    ListedRule(place, ["-j"] + target, p);
    NumberReadsBack(mark);
    assert (["-j"] + target)[1..] == target && target[..2] == ["MARK", "--set-mark"];
    assert ["-j"] + target == ["-j", "MARK", "--set-mark", Itoa(mark)];
  }

  lemma SaveRule(place: Place, p: Packet)
    requires GoodPlace(place)
    ensures Apply(Match(place.main, "dst") + ["-j", "CONNMARK", "--save-mark"], p) ==
            Next(if place.main in p.dest then p.(connmark := p.mark) else p)
  {
    ListedRule(place, ["-j", "CONNMARK", "--save-mark"], p);
    assert ["-j", "CONNMARK", "--save-mark"][1..] == ["CONNMARK", "--save-mark"];
  }

  lemma MarkRulesMark(place: Place, mark: nat, p: Packet)
    requires GoodPlace(place) && IsWord(mark)
    ensures Walk(MarkRules(place, mark), p) ==
            if place.main in p.dest then Ended(p.(mark := mark, connmark := mark), Accepted) else Through(p)
  {
    var first, save, pass := MarkRules(place, mark)[0], MarkRules(place, mark)[1], MarkRules(place, mark)[2];
    var q := if place.main in p.dest then p.(mark := mark) else p;
    MarkRule(place, mark, p);
    SaveRule(place, q);
    AcceptRule(place, if place.main in p.dest then q.(connmark := mark) else q);
    WalkOn(first, [save, pass], p);
    WalkOn(save, [pass], q);
    assert MarkRules(place, mark) == [first] + [save, pass] && [save, pass] == [save] + [pass];
  }

  /** In the mangle table the group's mark is set, kept for the connection, and ends the
      traversal, so that no later group can change it. */
  lemma LinkMangleChain(place: Place, bypass: string, mark: nat, p: Packet)
    requires GoodPlace(place) && IsName(bypass) && IsWord(mark)
    requires place.route.Interface? || place.route.Blackhole?
    ensures Walk([Guard(bypass)] + RulesIn(place, "mangle", mark), p) ==
            if bypass in p.source || place.main !in p.dest then Through(p)
            else Ended(p.(mark := mark, connmark := mark), Accepted)
  {
    GuardLetsOthersIn(bypass, RulesIn(place, "mangle", mark), p);
    MarkRulesMark(place, mark, p);
  }

  /** What goes out through the group's interface may be forwarded; a black hole has no
      such interface. */
  lemma LinkFilterChain(place: Place, bypass: string, mark: nat, p: Packet)
    requires GoodPlace(place) && IsName(bypass)
    requires place.route.Interface? || place.route.Blackhole?
    ensures Walk([Guard(bypass)] + RulesIn(place, "filter", mark), p) ==
            if bypass !in p.source && place.main in p.dest
               && place.route.Interface? && place.route.iface == p.output
            then Ended(p, Accepted) else Through(p)
  {
    GuardLetsOthersIn(bypass, RulesIn(place, "filter", mark), p);
    if place.route.Interface? {
      var pass := Match(place.main, "dst") + ["-j", "ACCEPT"];
      var r := ["-o", place.route.iface] + Match(place.main, "dst") + ["-j", "ACCEPT"];
      assert r == ["-o", place.route.iface] + pass;
      ListedRule(place, ["-j", "ACCEPT"], p);
      assert ["-j", "ACCEPT"][1..] == ["ACCEPT"];
      PairRule("-o", place.route.iface, pass, p);
      WalkOn(r, [], p);
      assert [r] + [] == [r];
    }
  }

  /** What leaves is masqueraded. */
  lemma LinkNatChain(place: Place, bypass: string, mark: nat, p: Packet)
    requires GoodPlace(place) && IsName(bypass)
    requires place.route.Interface? || place.route.Blackhole?
    ensures Walk([Guard(bypass)] + RulesIn(place, "nat", mark), p) ==
            if bypass in p.source || place.main !in p.dest then Through(p) else Ended(p, Masqueraded)
  {
    GuardLetsOthersIn(bypass, RulesIn(place, "nat", mark), p);
    var r := Match(place.main, "dst") + ["-j", "MASQUERADE"];
    ListedRule(place, ["-j", "MASQUERADE"], p);
    assert ["-j", "MASQUERADE"][1..] == ["MASQUERADE"];
    WalkOn(r, [], p);
    assert [r] + [] == [r];
  }

  // ---- Proxied groups ----

  /** In the nat table TCP is redirected to the proxy's port. */
  lemma ProxyNatChain(place: Place, bypass: string, mark: nat, p: Packet)
    requires GoodPlace(place) && IsName(bypass) && place.route.TProxy? && IsWord(place.route.port)
    ensures Walk([Guard(bypass)] + RulesIn(place, "nat", mark), p) ==
            if bypass in p.source || place.main !in p.dest || p.protocol != "tcp" then Through(p)
            else Ended(p, Redirected(place.route.port))
  {
    GuardLetsOthersIn(bypass, RulesIn(place, "nat", mark), p);
    var target := ["REDIRECT", "--to-port", Itoa(place.route.port)];
    var r := ["-p", "tcp"] + Match(place.main, "dst") + (["-j"] + target);
    assert r == RulesIn(place, "nat", mark)[0];
    assert r == ["-p", "tcp"] + (Match(place.main, "dst") + (["-j"] + target));
    PairRule("-p", "tcp", Match(place.main, "dst") + (["-j"] + target), p);
    ListedRule(place, ["-j"] + target, p);
    NumberReadsBack(place.route.port);
    assert (["-j"] + target)[1..] == target && target[..2] == ["REDIRECT", "--to-port"];
    WalkOn(r, [], p);
    assert [r] + [] == [r];
  }

  lemma UdpRule(place: Place, rest: Rule, p: Packet)
    requires GoodPlace(place)
    ensures p.protocol != "udp" || place.main !in p.dest ==> Apply(Udp(place) + rest, p) == Next(p)
    ensures p.protocol == "udp" && place.main in p.dest ==> Apply(Udp(place) + rest, p) == Apply(rest, p)
  {
    assert place.main in place.owned;
    var behind := Match(place.main, "dst") + rest;
    assert Udp(place) + rest == ["-p", "udp"] + behind;
    PairRule("-p", "udp", behind, p);
    MatchesSet(place.main, "dst", rest, p);
    TargetSkipsMatch(place.main, rest);
  }

  lemma TargetSkipsMatch(name: string, rest: Rule)
    requires IsName(name)
    ensures Target(Match(name, "dst") + rest) == Target(rest)
  {
    var r := Match(name, "dst") + rest;
    var option := ["--match-set", name, "dst"] + rest;
    assert r[1..][1..] == option && Target(r) == Target(r[1..]) == Target(option);
    assert option[1..][1..] == ["dst"] + rest && Target(option) == Target(option[1..]) == Target(["dst"] + rest);
    assert (["dst"] + rest)[1..] == rest;
  }

  lemma SocketRule(place: Place, target: Rule, p: Packet)
    requires GoodPlace(place) && target != [] && target[0] == "-j"
    ensures Apply(Udp(place) + ["-m", "socket"] + target, p) ==
            if p.protocol == "udp" && place.main in p.dest && p.socket then Act(target[1..], p) else Next(p)
  {
    assert Udp(place) + ["-m", "socket"] + target == Udp(place) + (["-m", "socket"] + target);
    UdpRule(place, ["-m", "socket"] + target, p);
    PairRule("-m", "socket", target, p);
  }

  /** The proxy's mark is added to whatever the packet carries. */
  function Diverted(p: Packet, mark: nat): Packet { p.(mark := Xmark(p.mark, mark, mark)) }

  lemma DivertRule(place: Place, mark: nat, p: Packet)
    requires GoodPlace(place) && IsWord(mark)
    ensures Apply(Udp(place) + ["-m", "socket"] + ["-j", "MARK", "--set-xmark", Itoa(mark) + "/" + Itoa(mark)], p) ==
            Next(if p.protocol == "udp" && place.main in p.dest && p.socket then Diverted(p, mark) else p)
  {
    var target := ["MARK", "--set-xmark", Itoa(mark) + "/" + Itoa(mark)];
    SocketRule(place, ["-j"] + target, p);
    NumberReadsBack(mark);
    assert (["-j"] + target)[1..] == target && target[..2] == ["MARK", "--set-xmark"];
    assert ["-j"] + target == ["-j", "MARK", "--set-xmark", Itoa(mark) + "/" + Itoa(mark)];
  }

  lemma TProxyRule(place: Place, port: nat, mark: nat, p: Packet)
    requires GoodPlace(place) && IsWord(mark) && IsWord(port)
    ensures var masked := Itoa(mark) + "/" + Itoa(mark);
            Apply(Udp(place) + ["-j", "TPROXY", "--on-port", Itoa(port), "--tproxy-mark", masked], p) ==
            if p.protocol == "udp" && place.main in p.dest then Stop(Diverted(p, mark), Proxied(port)) else Next(p)
  {
    var target := ["TPROXY", "--on-port", Itoa(port), "--tproxy-mark", Itoa(mark) + "/" + Itoa(mark)];
    UdpRule(place, ["-j"] + target, p);
    NumberReadsBack(mark);
    NumberReadsBack(port);
    assert (["-j"] + target)[1..] == target && target[..2] == ["TPROXY", "--on-port"];
    assert ["-j"] + target
           == ["-j", "TPROXY", "--on-port", Itoa(port), "--tproxy-mark", Itoa(mark) + "/" + Itoa(mark)];
  }

  lemma ProxyRulesProxy(place: Place, port: nat, mark: nat, p: Packet)
    requires GoodPlace(place) && IsWord(mark) && IsWord(port)
    ensures Walk(ProxyRules(place, port, mark), p) ==
            if p.protocol != "udp" || place.main !in p.dest then Through(p)
            else Ended(Diverted(p, mark), if p.socket then Accepted else Proxied(port))
  {
    var rules := ProxyRules(place, port, mark);
    var q := if p.protocol == "udp" && place.main in p.dest && p.socket then Diverted(p, mark) else p;
    DivertRule(place, mark, p);
    SocketRule(place, ["-j", "ACCEPT"], q);
    assert ["-j", "ACCEPT"][1..] == ["ACCEPT"];
    TProxyRule(place, port, mark, q);
    WalkOn(rules[0], [rules[1], rules[2]], p);
    WalkOn(rules[1], [rules[2]], q);
    WalkOn(rules[2], [], q);
    assert rules == [rules[0]] + [rules[1], rules[2]] && [rules[1], rules[2]] == [rules[1]] + [rules[2]];
    assert [rules[2]] + [] == [rules[2]];
  }

  lemma OutsideStatics(place: Place, rest: Rule, p: Packet)
    ensures Matched(["-m", "set", "!", "--match-set", place.mirror, "dst"] + rest, p)
            <==> place.mirror !in p.dest && Matched(rest, p)
  {
    var inner := ["!", "--match-set", place.mirror, "dst"] + rest;
    var r := ["-m", "set", "!", "--match-set", place.mirror, "dst"] + rest;
    assert r[2..] == inner && inner[4..] == rest;
    assert Matched(inner, p) <==> place.mirror !in p.dest && Matched(rest, p);
  }

  lemma OfNewConnection(rest: Rule, p: Packet)
    ensures Matched(["-m", "conntrack", "--ctstate", "NEW"] + rest, p) <==> p.isNew && Matched(rest, p)
  {
    var inner := ["--ctstate", "NEW"] + rest;
    var r := ["-m", "conntrack", "--ctstate", "NEW"] + rest;
    assert r[2..] == inner && inner[2..] == rest;
    assert Matched(inner, p) <==> p.isNew && Matched(rest, p);
  }

  lemma RenewTarget(place: Place, refresh: nat, p: Packet)
    requires IsWord(refresh)
    ensures Act(["SET", "--add-set", place.main, "dst", "--exist", "--timeout", Itoa(refresh)], p)
            == Next(p.(renewed := p.renewed + [(place.main, refresh)]))
  {
    var target := ["SET", "--add-set", place.main, "dst", "--exist", "--timeout", Itoa(refresh)];
    NumberReadsBack(refresh);
    assert target[..2] == ["SET", "--add-set"] && target[4..6] == ["--exist", "--timeout"];
  }

  /** A new connection to a listed address outside the static networks renews its entry. */
  lemma RenewRule(place: Place, refresh: nat, p: Packet)
    requires GoodPlace(place) && IsWord(refresh)
    ensures Apply(RefreshRule(place, refresh), p) == Next(Renewing(place, refresh, p))
  {
    assert place.main in place.owned && place.mirror in place.owned;
    var target := ["SET", "--add-set", place.main, "dst", "--exist", "--timeout", Itoa(refresh)];
    var front := ["-m", "set", "!", "--match-set", place.mirror, "dst"];
    var first := ["-m", "conntrack", "--ctstate", "NEW"] + Match(place.main, "dst") + front;
    assert RefreshRule(place, refresh) == first + (["-j"] + target);
    assert RefreshRule(place, refresh)
           == ["-m", "conntrack", "--ctstate", "NEW"] + (Match(place.main, "dst") + (front + (["-j"] + target)));
    OfNewConnection(Match(place.main, "dst") + (front + (["-j"] + target)), p);
    MatchesSet(place.main, "dst", front + (["-j"] + target), p);
    OutsideStatics(place, ["-j"] + target, p);
    TargetBehind(first, ["-j"] + target);
    assert (["-j"] + target)[1..] == target;
    RenewTarget(place, refresh, p);
  }

  function Renewing(place: Place, refresh: nat, p: Packet): Packet
  {
    if p.isNew && place.main in p.dest && place.mirror !in p.dest
    then p.(renewed := p.renewed + [(place.main, refresh)]) else p
  }

  /** In the mangle table UDP goes to the proxy's port under the proxy's mark, or to the
      socket that waits for it; everything else goes on. */
  lemma ProxyMangleChain(place: Place, bypass: string, mark: nat, p: Packet)
    requires GoodPlace(place) && IsName(bypass) && IsWord(mark)
    requires place.route.TProxy? && IsWord(place.route.port) && IsWord(place.route.refresh)
    ensures Walk([Guard(bypass)] + RulesIn(place, "mangle", mark), p) ==
            if bypass in p.source || place.main !in p.dest then Through(p)
            else
              var q := if place.route.refresh > 0 && p.isNew && place.mirror !in p.dest
                       then p.(renewed := p.renewed + [(place.main, place.route.refresh)]) else p;
              if p.protocol != "udp" then Through(q)
              else Ended(Diverted(q, mark), if p.socket then Accepted else Proxied(place.route.port))
  {
    var rules := RulesIn(place, "mangle", mark);
    GuardLetsOthersIn(bypass, rules, p);
    var proxy := ProxyRules(place, place.route.port, mark);
    if place.route.refresh > 0 {
      RenewRule(place, place.route.refresh, p);
      WalkOn(RefreshRule(place, place.route.refresh), proxy, p);
      ProxyRulesProxy(place, place.route.port, mark, Renewing(place, place.route.refresh, p));
    } else {
      assert rules == proxy;
      ProxyRulesProxy(place, place.route.port, mark, p);
    }
  }

  // ---- The preamble ----

  /** Packets of a connection that was given a mark get it back in the original direction;
      marked ones leave the table, so no group decides about them again. */
  lemma PreambleChain(bypass: string, p: Packet)
    requires IsName(bypass)
    ensures Walk([Guard(bypass), RESTORE_MARK, MARKED_PASS], p) ==
            if bypass in p.source then Through(p)
            else
              var q := if p.original then p.(mark := p.connmark) else p;
              if q.mark != 0 then Ended(q, Accepted) else Through(q)
  {
    GuardLetsOthersIn(bypass, [RESTORE_MARK, MARKED_PASS], p);
    assert [Guard(bypass), RESTORE_MARK, MARKED_PASS] == [Guard(bypass)] + [RESTORE_MARK, MARKED_PASS];
    RestoreRule(p);
    var q := if p.original then p.(mark := p.connmark) else p;
    PassRule(q);
    WalkOn(RESTORE_MARK, [MARKED_PASS], p);
    WalkOn(MARKED_PASS, [], q);
    assert [RESTORE_MARK, MARKED_PASS] == [RESTORE_MARK] + [MARKED_PASS] && [MARKED_PASS] + [] == [MARKED_PASS];
  }

  lemma RestoreRule(p: Packet)
    ensures Apply(RESTORE_MARK, p) == Next(if p.original then p.(mark := p.connmark) else p)
  {
    var front, target := ["-m", "conntrack", "--ctdir", "ORIGINAL"], ["-j", "CONNMARK", "--restore-mark"];
    assert RESTORE_MARK == front + target;
    var inner := ["--ctdir", "ORIGINAL"] + target;
    assert (front + target)[2..] == inner && inner[2..] == target;
    assert Matched(inner, p) <==> p.original;
    assert Matched(front + target, p) <==> Matched(inner, p);
    TargetBehind(front, target);
    assert target[1..] == ["CONNMARK", "--restore-mark"];
  }

  lemma PassRule(p: Packet)
    ensures Apply(MARKED_PASS, p) == if p.mark != 0 then Stop(p, Accepted) else Next(p)
  {
    var front, target := ["-m", "mark", "!", "--mark", "0x0"], ["-j", "ACCEPT"];
    assert MARKED_PASS == front + target;
    var inner := ["!", "--mark", "0x0"] + target;
    assert (front + target)[2..] == inner && inner[3..] == target;
    assert Matched(inner, p) <==> p.mark != 0;
    assert Matched(front + target, p) <==> Matched(inner, p);
    TargetBehind(front, target);
    assert target[1..] == ["ACCEPT"];
  }
}

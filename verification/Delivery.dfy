/**
  From the registry to the packet. Bringing the groups up one after the other makes the
  lists of both PREROUTING chains and the groups' chains; a commit takes them to the
  kernel; and there a new packet goes where the lookup page says.
 */
module Delivery {
  import opened Text
  import opened Netfilter
  import opened Chains
  import opened Convergence
  import opened Reconciler
  import opened IPTables
  import opened GroupRules
  import opened GroupRegistry
  import opened Packets
  import opened Arbitration
  import opened Traversal
  import opened Destinations
  import Preamble

  predicate IsLink(g: Group) { KindOf(g.place.route).Interface? }

  predicate SomeLink(groups: seq<Group>) { exists i | 0 <= i < |groups| :: IsLink(groups[i]) }

  /** What an earlier run left goes first; the first interface group brings the preamble. */
  function WithGroup(m: Model, g: Group, bypass: string, byOrder: bool, first: bool): Model
  {
    var cleared := ClearedAt(m, g.place.chain, Joints(g.place));
    PlacedAt(if first then PreamblePlaced(cleared, bypass) else cleared, g.place, Mode(bypass, g.mark, byOrder),
             Joints(g.place))
  }

  /** The registry after the groups were brought up in order. */
  function WithGroups(m: Model, groups: seq<Group>, bypass: string, byOrder: bool): Model
  {
    if groups == [] then m
    else
      var before, last := groups[..|groups| - 1], groups[|groups| - 1];
      WithGroup(WithGroups(m, before, bypass, byOrder), last, bypass, byOrder, IsLink(last) && !SomeLink(before))
  }

  // ---- The lists of jumps ----

  function ListIn(m: Model, t: string): seq<PatchRule>
    requires Hooked(m) && (t == "mangle" || t == "nat")
  {
    assert IsHook(t, "PREROUTING");
    m[t]["PREROUTING"].ordered
  }

  /** A joint under PREROUTING is a jump from there. */
  ghost predicate Hung(joints: seq<Joint>, chain: string, t: string)
  {
    exists i | 0 <= i < |joints| :: joints[i] == Joint(t, "PREROUTING", Preamble.JumpTo(chain))
  }

  ghost predicate PlainJoints(joints: seq<Joint>, chain: string)
  {
    && GoodJoints(joints, chain)
    && (forall i | 0 <= i < |joints| && joints[i].hook == "PREROUTING" :: joints[i].jump == Preamble.JumpTo(chain))
    && (forall a, b | 0 <= a < b < |joints| :: joints[a].table != joints[b].table)
  }

  lemma PlacedList(m: Model, chain: string, rules: seq<Rule>, at: Joint, front: bool, t: string)
    requires Hooked(m) && GoodJoint(at, chain) && (t == "mangle" || t == "nat")
    requires at.hook == "PREROUTING" ==> at.jump == Preamble.JumpTo(chain)
    ensures Hooked(Placed(m, chain, rules, at, front)) && Hooked(Cleared(m, chain, at))
    ensures ListIn(Placed(m, chain, rules, at, front), t)
            == if at.table == t && at.hook == "PREROUTING"
               then Preamble.WithJump(ListIn(m, t), chain, if front then PatchInsert else PatchAppend) else ListIn(m, t)
    ensures ListIn(Cleared(m, chain, at), t)
            == if at.table == t && at.hook == "PREROUTING"
               then Preamble.WithJump(ListIn(m, t), chain, PatchDelete) else ListIn(m, t)
  {
    PlacedHangs(m, chain, rules, at, front);
    assert IsHook("mangle", "PREROUTING") && chain != at.hook && chain != "PREROUTING";
  }

  lemma {:induction false} PlacingList(m: Model, p: Place, mode: Mode, joints: seq<Joint>, t: string)
    requires Hooked(m) && PlainJoints(joints, p.chain) && (t == "mangle" || t == "nat")
    ensures var out := PlacedAt(m, p, mode, joints);
            && Hooked(out)
            && ListIn(out, t) == if Hung(joints, p.chain, t)
                                 then Preamble.WithJump(ListIn(m, t), p.chain,
                                                        if InFront(p, mode.byOrder) then PatchInsert else PatchAppend)
                                 else ListIn(m, t)
  {
    if joints != [] {
      var rest, last := joints[..|joints| - 1], joints[|joints| - 1];
      PlacingList(m, p, mode, rest, t);
      PlacedList(PlacedAt(m, p, mode, rest), p.chain, [Guard(mode.bypass)] + RulesIn(p, last.table, mode.mark), last,
                 InFront(p, mode.byOrder), t);
      HungOneMore(joints, p.chain, t);
    }
  }

  lemma {:induction false} ClearingList(m: Model, chain: string, joints: seq<Joint>, t: string)
    requires Hooked(m) && PlainJoints(joints, chain) && (t == "mangle" || t == "nat")
    ensures var out := ClearedAt(m, chain, joints);
            && Hooked(out)
            && ListIn(out, t) == if Hung(joints, chain, t)
                                 then Preamble.WithJump(ListIn(m, t), chain, PatchDelete) else ListIn(m, t)
  {
    if joints != [] {
      var rest, last := joints[..|joints| - 1], joints[|joints| - 1];
      ClearingList(m, chain, rest, t);
      PlacedList(ClearedAt(m, chain, rest), chain, [], last, false, t);
      HungOneMore(joints, chain, t);
    }
  }

  lemma HungOneMore(joints: seq<Joint>, chain: string, t: string)
    requires joints != [] && PlainJoints(joints, chain)
    ensures var rest, last := joints[..|joints| - 1], joints[|joints| - 1];
            && (Hung(joints, chain, t) <==> Hung(rest, chain, t) || (last.table == t && last.hook == "PREROUTING"))
            && !(Hung(rest, chain, t) && last.table == t)
  {
    var rest, last := joints[..|joints| - 1], joints[|joints| - 1];
    if i :| 0 <= i < |rest| && rest[i] == Joint(t, "PREROUTING", Preamble.JumpTo(chain)) {
      assert joints[i] == rest[i];
    }
    if i :| 0 <= i < |joints| && joints[i] == Joint(t, "PREROUTING", Preamble.JumpTo(chain)) {
      assert i < |rest| ==> rest[i] == joints[i];
    }
    if last.table == t && last.hook == "PREROUTING" {
      assert joints[|joints| - 1] == Joint(t, "PREROUTING", Preamble.JumpTo(chain));
    }
  }

  lemma JointsArePlain(p: Place)
    requires GoodPlace(p)
    ensures PlainJoints(Joints(p), p.chain)
    ensures Hung(Joints(p), p.chain, "mangle") && (Hung(Joints(p), p.chain, "nat") <==> !KindOf(p.route).Interface?)
  {
    JointsAreGood(p);
    TablesDiffer(p);
    match p.route
    case Direct => assert Joints(p)[0].table == "mangle" && Joints(p)[1].table == "nat";
    case TProxy(_, _) => assert Joints(p)[1].table == "mangle" && Joints(p)[0].table == "nat";
    case _ =>
      assert Joints(p)[1] == Joint("mangle", "PREROUTING", Preamble.JumpTo(p.chain));
      assert Joints(p)[0].hook == "FORWARD" && Joints(p)[2].hook == "POSTROUTING";
  }

  /** One group's step in the two lists: what `Arbitration.BringUpStep` is about. */
  lemma GroupList(m: Model, g: Group, bypass: string, byOrder: bool, first: bool, t: string)
    requires Hooked(m) && GoodPlace(g.place) && (t == "mangle" || t == "nat")
    ensures var out := WithGroup(m, g, bypass, byOrder, first);
            && Hooked(out)
            && ListIn(out, t)
               == if t == "nat" && IsLink(g) then ListIn(m, t)
                  else Linked(ListIn(m, t), g.place.chain, KindOf(g.place.route), byOrder, first && t == "mangle")
  {
    var cleared := ClearedAt(m, g.place.chain, Joints(g.place));
    OwnList(m, g.place, Mode(bypass, g.mark, byOrder), t);
    LedList(cleared, bypass, t);
    OwnList(if first then PreamblePlaced(cleared, bypass) else cleared, g.place, Mode(bypass, g.mark, byOrder), t);
  }

  lemma OwnList(m: Model, p: Place, mode: Mode, t: string)
    requires Hooked(m) && GoodPlace(p) && (t == "mangle" || t == "nat")
    ensures var placed, cleared := PlacedAt(m, p, mode, Joints(p)), ClearedAt(m, p.chain, Joints(p));
            var far := t == "nat" && KindOf(p.route).Interface?;
            var option := if p.route.Direct? && !mode.byOrder then PatchInsert else PatchAppend;
            && Hooked(placed) && Hooked(cleared)
            && ListIn(placed, t) == (if far then ListIn(m, t) else Preamble.WithJump(ListIn(m, t), p.chain, option))
            && ListIn(cleared, t)
               == (if far then ListIn(m, t) else Preamble.WithJump(ListIn(m, t), p.chain, PatchDelete))
  {
    JointsArePlain(p);
    ClearingList(m, p.chain, Joints(p), t);
    PlacingList(m, p, mode, Joints(p), t);
  }

  lemma LedList(m: Model, bypass: string, t: string)
    requires Hooked(m) && (t == "mangle" || t == "nat")
    ensures var out := PreamblePlaced(m, bypass);
            && Hooked(out)
            && ListIn(out, t) == if t == "mangle" then Preamble.WithJump(ListIn(m, t), Preamble.PREAMBLE, PatchAppend)
                                 else ListIn(m, t)
  {
    JumpNames(Preamble.PREAMBLE);
    PlacedList(m, Preamble.PREAMBLE, PreambleRules(bypass), PREAMBLE_JOINT, false, t);
  }

  lemma DistinctWithJump(ordered: seq<PatchRule>, chain: string, option: PatchOption)
    requires DistinctRules(ordered)
    ensures DistinctRules(Preamble.WithJump(ordered, chain, option))
  {
    WithoutKeepsDistinct(ordered, Preamble.JumpTo(chain));
    Preamble.WithoutAt(ordered, Preamble.JumpTo(chain));
  }

  lemma DistinctLinked(ordered: seq<PatchRule>, chain: string, kind: Preamble.Kind, byOrder: bool, first: bool)
    requires DistinctRules(ordered)
    ensures DistinctRules(Linked(ordered, chain, kind, byOrder, first))
  {
    var cleared := Preamble.WithJump(ordered, chain, PatchDelete);
    DistinctWithJump(ordered, chain, PatchDelete);
    DistinctWithJump(cleared, Preamble.PREAMBLE, PatchAppend);
    DistinctWithJump(if first then Preamble.WithJump(cleared, Preamble.PREAMBLE, PatchAppend) else cleared, chain,
                     if kind.Direct? && !byOrder then PatchInsert else PatchAppend);
  }

  /** Both lists after the first groups are up. */
  ghost predicate ListsAre(m: Model, start: Model, lanes: seq<Lane>, n: nat, byOrder: bool)
  {
    && n <= |lanes| && |Natted(lanes[..n])| <= |Natted(lanes)| && Hooked(start) && Hooked(m)
    && DistinctRules(ListIn(m, "mangle")) && DistinctRules(ListIn(m, "nat"))
    && BroughtUp(ListIn(m, "mangle"), ListIn(start, "mangle"), lanes, n, byOrder)
    && BroughtUp(ListIn(m, "nat"), ListIn(start, "nat"), Natted(lanes), |Natted(lanes[..n])|, byOrder)
  }

  lemma {:induction false} NattedPrefix(lanes: seq<Lane>, n: nat)
    requires n <= |lanes|
    ensures Natted(lanes[..n]) <= Natted(lanes)
    ensures n < |lanes| && !lanes[n].kind.Interface? ==>
              |Natted(lanes[..n])| < |Natted(lanes)| && Natted(lanes)[|Natted(lanes[..n])|] == lanes[n]
  {
    if n < |lanes| {
      var front := lanes[..|lanes| - 1];
      assert front[..n] == lanes[..n];
      NattedPrefix(front, n);
    } else {
      assert lanes[..n] == lanes;
    }
  }

  lemma {:induction false} NattedIsGood(lanes: seq<Lane>)
    requires GoodLanes(lanes)
    ensures GoodLanes(Natted(lanes))
  {
    if lanes != [] {
      var front, last := lanes[..|lanes| - 1], lanes[|lanes| - 1];
      NattedIsGood(front);
      forall j | 0 <= j < |Natted(front)|
        ensures Natted(front)[j].chain != last.chain
      {
        NattedMembers(front, j);
      }
    }
  }

  /** One more group: its list in each table is brought up one step. */
  lemma {:induction false} ListsStep(m: Model, start: Model, g: Group, lanes: seq<Lane>, n: nat, bypass: string,
                                     byOrder: bool)
    requires Hooked(start) && GoodPlace(g.place) && GoodLanes(lanes) && n < |lanes|
    requires lanes[n].chain == g.place.chain && lanes[n].kind == KindOf(g.place.route)
    requires ListsAre(m, start, lanes, n, byOrder)
    ensures ListsAre(WithGroup(m, g, bypass, byOrder, IsLink(g) && !SomeInterface(lanes[..n])), start, lanes, n + 1,
                     byOrder)
  {
    var first := IsLink(g) && !SomeInterface(lanes[..n]);
    GroupList(m, g, bypass, byOrder, first, "mangle");
    GroupList(m, g, bypass, byOrder, first, "nat");
    BringUpStep(ListIn(m, "mangle"), ListIn(start, "mangle"), lanes, n, byOrder, first);
    DistinctLinked(ListIn(m, "mangle"), g.place.chain, KindOf(g.place.route), byOrder, first);
    NattedFits(lanes, n + 1);
    NatListStep(m, start, g, lanes, n, byOrder);
  }

  lemma NattedFits(lanes: seq<Lane>, n: nat)
    requires n <= |lanes|
    ensures |Natted(lanes[..n])| <= |Natted(lanes)|
  {
    NattedPrefix(lanes, n);
  }

  lemma {:induction false} NatListStep(m: Model, start: Model, g: Group, lanes: seq<Lane>, n: nat, byOrder: bool)
    requires Hooked(start) && Hooked(m) && GoodLanes(lanes) && n < |lanes|
    requires lanes[n].chain == g.place.chain && lanes[n].kind == KindOf(g.place.route)
    requires |Natted(lanes[..n])| <= |Natted(lanes)| && |Natted(lanes[..n + 1])| <= |Natted(lanes)|
    requires DistinctRules(ListIn(m, "nat"))
    requires BroughtUp(ListIn(m, "nat"), ListIn(start, "nat"), Natted(lanes), |Natted(lanes[..n])|, byOrder)
    ensures var list := if IsLink(g) then ListIn(m, "nat")
                        else Linked(ListIn(m, "nat"), g.place.chain, KindOf(g.place.route), byOrder, false);
            && DistinctRules(list)
            && BroughtUp(list, ListIn(start, "nat"), Natted(lanes), |Natted(lanes[..n + 1])|, byOrder)
  {
    NattedNext(lanes, n);
    if !IsLink(g) {
      NattedIsGood(lanes);
      NatListLinked(ListIn(m, "nat"), ListIn(start, "nat"), lanes, n, byOrder);
    }
  }

  lemma {:induction false} NatListLinked(list: seq<PatchRule>, start: seq<PatchRule>, lanes: seq<Lane>, n: nat,
                                         byOrder: bool)
    requires n < |lanes| && !lanes[n].kind.Interface? && GoodLanes(Natted(lanes)) && DistinctRules(list)
    requires |Natted(lanes[..n])| <= |Natted(lanes)|
    requires BroughtUp(list, start, Natted(lanes), |Natted(lanes[..n])|, byOrder)
    ensures |Natted(lanes[..n])| + 1 <= |Natted(lanes)|
    ensures var out := Linked(list, lanes[n].chain, lanes[n].kind, byOrder, false);
            DistinctRules(out) && BroughtUp(out, start, Natted(lanes), |Natted(lanes[..n])| + 1, byOrder)
  {
    NattedPrefix(lanes, n);
    BringUpStep(list, start, Natted(lanes), |Natted(lanes[..n])|, byOrder, false);
    DistinctLinked(list, lanes[n].chain, lanes[n].kind, byOrder, false);
  }

  lemma NattedNext(lanes: seq<Lane>, n: nat)
    requires n < |lanes|
    ensures |Natted(lanes[..n + 1])| == |Natted(lanes[..n])| + if lanes[n].kind.Interface? then 0 else 1
  {
    assert lanes[..n + 1][..n] == lanes[..n] && lanes[..n + 1][n] == lanes[n];
  }

  /** The lists of PREROUTING have only rules to take out. */
  ghost predicate CleanStart(start: Model)
  {
    && Hooked(start)
    && DistinctRules(ListIn(start, "mangle")) && OnlyLeftovers(ListIn(start, "mangle"))
    && DistinctRules(ListIn(start, "nat")) && OnlyLeftovers(ListIn(start, "nat"))
  }

  ghost predicate LanesOf(lanes: seq<Lane>, groups: seq<Group>)
  {
    |lanes| == |groups| &&
    forall i | 0 <= i < |groups| ::
      lanes[i].chain == groups[i].place.chain && lanes[i].kind == KindOf(groups[i].place.route)
  }

  lemma {:induction false} ListsBroughtUp(start: Model, groups: seq<Group>, lanes: seq<Lane>, n: nat, bypass: string,
                                          byOrder: bool)
    requires CleanStart(start) && GoodGroups(groups) && GoodLanes(lanes) && LanesOf(lanes, groups) && n <= |groups|
    ensures ListsUpTo(start, groups, lanes, n, bypass, byOrder)
  {
    if n == 0 {
      ListsStart(start, lanes, byOrder);
      assert groups[..0] == [];
    } else {
      ListsBroughtUp(start, groups, lanes, n - 1, bypass, byOrder);
      ListsNext(start, groups, lanes, n - 1, bypass, byOrder);
    }
  }

  ghost predicate ListsUpTo(start: Model, groups: seq<Group>, lanes: seq<Lane>, n: nat, bypass: string, byOrder: bool)
    requires n <= |groups|
  {
    ListsAre(WithGroups(start, groups[..n], bypass, byOrder), start, lanes, n, byOrder)
  }

  lemma {:induction false} ListsNext(start: Model, groups: seq<Group>, lanes: seq<Lane>, n: nat, bypass: string,
                                     byOrder: bool)
    requires GoodGroups(groups) && GoodLanes(lanes) && LanesOf(lanes, groups) && n < |groups|
    requires ListsUpTo(start, groups, lanes, n, bypass, byOrder)
    ensures ListsUpTo(start, groups, lanes, n + 1, bypass, byOrder)
  {
    OneMoreGroup(start, groups, n, bypass, byOrder);
    SameLinks(lanes, groups, n);
    assert GoodGroup(groups[n]);
    ListsStep(WithGroups(start, groups[..n], bypass, byOrder), start, groups[n], lanes, n, bypass, byOrder);
  }

  lemma {:induction false} ListsStart(start: Model, lanes: seq<Lane>, byOrder: bool)
    requires CleanStart(start)
    ensures ListsAre(start, start, lanes, 0, byOrder)
  {
    StartsBroughtUp(ListIn(start, "mangle"), lanes, byOrder);
    StartsBroughtUp(ListIn(start, "nat"), Natted(lanes), byOrder);
  }

  lemma {:induction false} OneMoreGroup(start: Model, groups: seq<Group>, n: nat, bypass: string, byOrder: bool)
    requires n < |groups|
    ensures WithGroups(start, groups[..n + 1], bypass, byOrder)
            == WithGroup(WithGroups(start, groups[..n], bypass, byOrder), groups[n], bypass, byOrder,
                         IsLink(groups[n]) && !SomeLink(groups[..n]))
  {
    assert groups[..n + 1][..n] == groups[..n] && groups[..n + 1][n] == groups[n];
  }

  lemma {:induction false} SameLinks(lanes: seq<Lane>, groups: seq<Group>, n: nat)
    requires LanesOf(lanes, groups) && n <= |groups|
    ensures SomeInterface(lanes[..n]) <==> SomeLink(groups[..n])
  {
    if i :| 0 <= i < n && lanes[..n][i].kind.Interface? {
      assert IsLink(groups[..n][i]);
    }
    if i :| 0 <= i < n && IsLink(groups[..n][i]) {
      assert lanes[..n][i].kind.Interface?;
    }
  }

  // ---- The chains ----

  /** The groups' chains have their rules, under their marks, and the preamble is there if
      an interface group is. */
  ghost predicate Ruled(m: Model, groups: seq<Group>, bypass: string, byOrder: bool)
  {
    && Hooked(m)
    && (forall i | 0 <= i < |groups| :: HasRulesWith(m, groups[i].place, bypass, groups[i].mark, byOrder))
    && (SomeLink(groups) ==> PreambleIs(m, bypass, true))
  }

  lemma GroupKeepsRules(m: Model, g: Group, q: Group, bypass: string, byOrder: bool, first: bool)
    requires GoodPlace(g.place) && GoodPlace(q.place) && g.place.chain != q.place.chain && IsToken(bypass)
    requires HasRulesWith(m, q.place, bypass, q.mark, byOrder)
    ensures HasRulesWith(WithGroup(m, g, bypass, byOrder, first), q.place, bypass, q.mark, byOrder)
  {
    var mode := Mode(bypass, g.mark, byOrder);
    var cleared := ClearedAt(m, g.place.chain, Joints(g.place));
    assert HasRules(m, q.place, bypass, byOrder);
    OthersKeepRules(m, g.place, mode, q.place, bypass, byOrder);
    PreambleKeepsRules(cleared, q.place, bypass, bypass, byOrder);
    OthersKeepRules(if first then PreamblePlaced(cleared, bypass) else cleared, g.place, mode, q.place, bypass,
                    byOrder);
  }

  lemma GroupHasRules(m: Model, g: Group, bypass: string, byOrder: bool, first: bool)
    requires Hooked(m) && GoodPlace(g.place) && IsToken(bypass)
    ensures HasRulesWith(WithGroup(m, g, bypass, byOrder, first), g.place, bypass, g.mark, byOrder)
    ensures first || PreambleIs(m, bypass, true) ==> PreambleIs(WithGroup(m, g, bypass, byOrder, first), bypass, true)
  {
    var mode := Mode(bypass, g.mark, byOrder);
    var cleared := ClearedAt(m, g.place.chain, Joints(g.place));
    JointsArePlain(g.place);
    ClearingList(m, g.place.chain, Joints(g.place), "nat");
    LedList(cleared, bypass, "nat");
    PlacingGivesRules(if first then PreamblePlaced(cleared, bypass) else cleared, g.place, mode);
    if PreambleIs(m, bypass, true) {
      PreambleStays(m, g.place, mode, bypass, true);
    }
    PreambleMoves(cleared, bypass);
    if first || PreambleIs(m, bypass, true) {
      PreambleStays(if first then PreamblePlaced(cleared, bypass) else cleared, g.place, mode, bypass, true);
    }
  }

  lemma {:induction false} GroupsAreRuled(start: Model, groups: seq<Group>, bypass: string, byOrder: bool)
    requires Hooked(start) && GoodGroups(groups) && IsToken(bypass)
    ensures Ruled(WithGroups(start, groups, bypass, byOrder), groups, bypass, byOrder)
  {
    if groups != [] {
      var before, last := groups[..|groups| - 1], groups[|groups| - 1];
      GroupsAreRuled(start, before, bypass, byOrder);
      RuledNext(WithGroups(start, before, bypass, byOrder), groups, bypass, byOrder);
    }
  }

  lemma RuledNext(m: Model, groups: seq<Group>, bypass: string, byOrder: bool)
    requires GoodGroups(groups) && IsToken(bypass) && groups != []
    requires Ruled(m, groups[..|groups| - 1], bypass, byOrder)
    ensures var before, last := groups[..|groups| - 1], groups[|groups| - 1];
            Ruled(WithGroup(m, last, bypass, byOrder, IsLink(last) && !SomeLink(before)), groups, bypass, byOrder)
  {
    var before, last := groups[..|groups| - 1], groups[|groups| - 1];
    var first := IsLink(last) && !SomeLink(before);
    assert GoodGroup(last);
    GroupHasRules(m, last, bypass, byOrder, first);
    GroupList(m, last, bypass, byOrder, first, "nat");
    EarlierKeepRules(m, groups, bypass, byOrder, first);
    SomeLinkStep(groups);
    var out := WithGroup(m, last, bypass, byOrder, first);
    assert forall i | 0 <= i < |groups| :: HasRulesWith(out, groups[i].place, bypass, groups[i].mark, byOrder);
  }

  lemma EarlierKeepRules(m: Model, groups: seq<Group>, bypass: string, byOrder: bool, first: bool)
    requires GoodGroups(groups) && IsToken(bypass) && groups != []
    requires Ruled(m, groups[..|groups| - 1], bypass, byOrder)
    ensures forall i | 0 <= i < |groups| - 1 ::
              HasRulesWith(WithGroup(m, groups[|groups| - 1], bypass, byOrder, first), groups[i].place, bypass,
                           groups[i].mark, byOrder)
  {
    var before, last := groups[..|groups| - 1], groups[|groups| - 1];
    assert GoodGroup(last);
    forall i | 0 <= i < |before|
      ensures HasRulesWith(WithGroup(m, last, bypass, byOrder, first), groups[i].place, bypass, groups[i].mark, byOrder)
    {
      assert before[i] == groups[i] && GoodGroup(groups[i]);
      GroupKeepsRules(m, last, groups[i], bypass, byOrder, first);
    }
  }

  lemma SomeLinkStep(groups: seq<Group>)
    requires groups != []
    ensures SomeLink(groups) <==> SomeLink(groups[..|groups| - 1]) || IsLink(groups[|groups| - 1])
  {
    var before := groups[..|groups| - 1];
    if i :| 0 <= i < |before| && IsLink(before[i]) {
      assert IsLink(groups[i]);
    }
    if i :| 0 <= i < |groups| && IsLink(groups[i]) {
      assert i < |before| ==> IsLink(before[i]);
    }
  }

  // ---- In the kernel ----

  /** Before the groups come up the registry has only rules to take out, and the kernel
      jumps to no chain of ours. */
  ghost predicate Before(start: Model, k: Kernel, foreign: (seq<Rule>, seq<Rule>), lanes: seq<Lane>)
  {
    && CleanStart(start) && CleanKernel(k)
    && ChainAt(k, "mangle", "PREROUTING") == Some(foreign.0) && ChainAt(k, "nat", "PREROUTING") == Some(foreign.1)
    && Foreign(foreign.0, ListIn(start, "mangle"), lanes) && Foreign(foreign.1, ListIn(start, "nat"), Natted(lanes))
  }

  /** After the commit of a bring-up both PREROUTING chains are our inserts, the foreign rules
      and our appends, the nat table's without the interface groups. */
  lemma PreroutingAfterCommit(start: Model, k: Kernel, foreign: (seq<Rule>, seq<Rule>), groups: seq<Group>,
                              lanes: seq<Lane>, bypass: string, byOrder: bool)
    requires Before(start, k, foreign, lanes) && GoodGroups(groups) && GoodLanes(lanes) && LanesOf(lanes, groups)
    requires GoodConfig(WithGroups(start, groups, bypass, byOrder))
    ensures var after := AfterKernel(WithGroups(start, groups, bypass, byOrder), k);
            && ChainAt(after, "mangle", "PREROUTING") == Some(PreroutingOf("mangle", lanes, foreign.0, byOrder))
            && ChainAt(after, "nat", "PREROUTING") == Some(PreroutingOf("nat", lanes, foreign.1, byOrder))
  {
    var m := WithGroups(start, groups, bypass, byOrder);
    ListsBroughtUp(start, groups, lanes, |groups|, bypass, byOrder);
    assert groups[..|groups|] == groups && lanes[..|lanes|] == lanes;
    LanesAreTokens(lanes, groups);
    NattedIsGood(lanes);
    NattedTokens(lanes);
    HookAfterCommit(m, k, "mangle", ListIn(start, "mangle"), foreign.0, lanes, byOrder);
    HookAfterCommit(m, k, "nat", ListIn(start, "nat"), foreign.1, Natted(lanes), byOrder);
  }

  lemma HookAfterCommit(m: Model, k: Kernel, t: string, start: seq<PatchRule>, foreign: seq<Rule>, lanes: seq<Lane>,
                        byOrder: bool)
    requires Hooked(m) && CleanKernel(k) && GoodConfig(m) && (t == "mangle" || t == "nat")
    requires GoodLanes(lanes) && TokenChains(lanes) && OnlyLeftovers(start) && Foreign(foreign, start, lanes)
    requires ChainAt(k, t, "PREROUTING") == Some(foreign)
    requires DistinctRules(ListIn(m, t)) && BroughtUp(ListIn(m, t), start, lanes, |lanes|, byOrder)
    ensures ChainAt(AfterKernel(m, k), t, "PREROUTING")
            == Some(FrontJumps(lanes, byOrder) + foreign + BackJumps(lanes, byOrder))
  {
    FirstJumpTakes(ListIn(m, t), start, foreign, lanes, byOrder);
    AfterKernelByChain(m, k, t, "PREROUTING");
    HookModel(m, t);
  }

  lemma HookModel(m: Model, t: string)
    requires Hooked(m) && (t == "mangle" || t == "nat")
    ensures Has(m, t, "PREROUTING") && m[t]["PREROUTING"] == PatchModel(ListIn(m, t))
  {
    assert IsHook(t, "PREROUTING");
  }

  lemma LanesAreTokens(lanes: seq<Lane>, groups: seq<Group>)
    requires GoodGroups(groups) && LanesOf(lanes, groups)
    ensures TokenChains(lanes)
  {
    forall j | 0 <= j < |lanes|
      ensures IsToken(lanes[j].chain)
    {
      assert GoodGroup(groups[j]);
    }
  }

  lemma NattedTokens(lanes: seq<Lane>)
    requires TokenChains(lanes)
    ensures TokenChains(Natted(lanes))
  {
    forall j | 0 <= j < |Natted(lanes)|
      ensures IsToken(Natted(lanes)[j].chain)
    {
      NattedMembers(lanes, j);
    }
  }

  /** ... and the groups' chains stand in the kernel. */
  lemma ChainsAfterCommit(start: Model, k: Kernel, groups: seq<Group>, bypass: string, byOrder: bool)
    requires Hooked(start) && CleanKernel(k) && GoodGroups(groups) && IsToken(bypass) && IsName(bypass)
    requires GoodConfig(WithGroups(start, groups, bypass, byOrder))
    ensures var after := AfterKernel(WithGroups(start, groups, bypass, byOrder), k);
            Standing(TableOf(after, "mangle"), TableOf(after, "nat"), groups, bypass)
  {
    var m := WithGroups(start, groups, bypass, byOrder);
    GroupsAreRuled(start, groups, bypass, byOrder);
    forall j | 0 <= j < |groups|
      ensures CarriesWith(AfterKernel(m, k), groups[j].place, bypass, groups[j].mark)
    {
      RulesReachKernel(k, m, groups[j].place, bypass, groups[j].mark, byOrder);
    }
    if SomeLink(groups) {
      PreambleReachesKernel(k, m, bypass);
    }
    CarriedStand(AfterKernel(m, k), groups, bypass);
  }

  lemma CarriedStand(k: Kernel, groups: seq<Group>, bypass: string)
    requires GoodGroups(groups) && IsName(bypass)
    requires forall j | 0 <= j < |groups| :: CarriesWith(k, groups[j].place, bypass, groups[j].mark)
    requires SomeLink(groups) ==> PreambleInKernel(k, bypass)
    ensures Standing(TableOf(k, "mangle"), TableOf(k, "nat"), groups, bypass)
  {
    forall j | 0 <= j < |groups|
      ensures ChainAt(k, "mangle", groups[j].place.chain)
              == Some([Guard(bypass)] + RulesIn(groups[j].place, "mangle", groups[j].mark))
      ensures IsLink(groups[j]) || ChainAt(k, "nat", groups[j].place.chain)
                                   == Some([Guard(bypass)] + RulesIn(groups[j].place, "nat", groups[j].mark))
    {
      var joints := Joints(groups[j].place);
      assert CarriesWith(k, groups[j].place, bypass, groups[j].mark);
      assert joints[0].table == "mangle" || joints[1].table == "mangle";
      assert !IsLink(groups[j]) ==> joints[0].table == "nat" || joints[1].table == "nat";
    }
    if i :| 0 <= i < |groups| && KindOf(groups[i].place.route).Interface? {
      assert IsLink(groups[i]);
    }
  }

  // ---- And the packet ----

  /** A new packet's way through the kernel. */
  function WayThrough(k: Kernel, p: Packet): Way
  {
    Goes(TableOf(k, "mangle"), TableOf(k, "nat"),
         (Rules(ChainAt(k, "mangle", "PREROUTING")), Rules(ChainAt(k, "nat", "PREROUTING"))), p)
  }

  function PlacesOf(groups: seq<Group>): (places: seq<Place>)
    ensures |places| == |groups| && forall i | 0 <= i < |groups| :: places[i] == groups[i].place
  {
    seq(|groups|, i requires 0 <= i < |groups| => groups[i].place)
  }

  lemma GroupKeepsSound(m: Model, places: seq<Place>, up: set<nat>, bypass: string, g: Group, j: nat, byOrder: bool,
                        first: bool)
    requires GoodPlaces(places, bypass) && Sound(m, places, up) && j < |places| && j in up && places[j] == g.place
    ensures Sound(WithGroup(m, g, bypass, byOrder, first), places, up)
  {
    var mode := Mode(bypass, g.mark, byOrder);
    var cleared := ClearedAt(m, g.place.chain, Joints(g.place));
    JointsAreGood(g.place);
    ClearingKeepsSound(m, places, up, g.place.chain, Joints(g.place));
    PreambleKeepsSound(cleared, places, up, bypass);
    PlacingKeepsSound(if first then PreamblePlaced(cleared, bypass) else cleared, places, up, mode, j, Joints(g.place));
  }

  /** What the groups' calls register is something a commit accepts. */
  lemma {:induction false} GroupsKeepSound(start: Model, groups: seq<Group>, n: nat, up: set<nat>, bypass: string,
                                           byOrder: bool)
    requires GoodPlaces(PlacesOf(groups), bypass) && Sound(start, PlacesOf(groups), up) && n <= |groups|
    requires forall j: nat | j < |groups| :: j in up
    ensures Sound(WithGroups(start, groups[..n], bypass, byOrder), PlacesOf(groups), up)
  {
    if n > 0 {
      GroupsKeepSound(start, groups, n - 1, up, bypass, byOrder);
      OneMoreGroup(start, groups, n - 1, bypass, byOrder);
      GroupKeepsSound(WithGroups(start, groups[..n - 1], bypass, byOrder), PlacesOf(groups), up, bypass, groups[n - 1],
                      n - 1, byOrder, IsLink(groups[n - 1]) && !SomeLink(groups[..n - 1]));
    }
  }

  lemma CommitIsAccepted(start: Model, groups: seq<Group>, bypass: string, byOrder: bool)
    requires GoodPlaces(PlacesOf(groups), bypass) && Sound(start, PlacesOf(groups), {})
    ensures GoodConfig(WithGroups(start, groups, bypass, byOrder))
  {
    var all: seq<nat> := seq(|groups|, i => i);
    var up := set j | j in all;
    forall j: nat | j < |groups|
      ensures j in up
    {
      assert all[j] == j;
    }
    SoundWithMore(start, PlacesOf(groups), {}, up);
    GroupsKeepSound(start, groups, |groups|, up, bypass, byOrder);
    assert groups[..|groups|] == groups;
  }

  /** The groups were brought up in routing order in a registry that had only rules to take
      out, beside any foreign rules, and a commit has led from `k` to `after`. */
  ghost predicate Brought(start: Model, k: Kernel, after: Kernel, foreign: (seq<Rule>, seq<Rule>), groups: seq<Group>,
                          bypass: string, byOrder: bool, p: Packet)
  {
    && GoodGroups(groups) && GoodPlaces(PlacesOf(groups), bypass)
    && Before(start, k, foreign, ListedBy(groups, p)) && Sound(start, PlacesOf(groups), {})
    && CommittedTo(WithGroups(start, groups, bypass, byOrder), k, after)
  }

  /** A registry that a commit accepts, and the kernel it makes of `k`. */
  ghost predicate CommittedTo(m: Model, k: Kernel, after: Kernel)
  {
    GoodConfig(m) && CleanKernel(k) && after == AfterKernel(m, k)
  }

  /** The packet is new and comes from a client that is not exempt, and foreign rules let it
      through. */
  ghost predicate Travels(after: Kernel, foreign: (seq<Rule>, seq<Rule>), groups: seq<Group>, bypass: string, p: Packet)
  {
    && Eligible(p, bypass) && Undecided(p)
    && AllIndifferent(TableOf(after, "mangle"), TableOf(after, "nat"), foreign, groups, p)
  }

  lemma KernelIsReady(start: Model, k: Kernel, after: Kernel, foreign: (seq<Rule>, seq<Rule>), groups: seq<Group>,
                      bypass: string, byOrder: bool, p: Packet)
    requires Brought(start, k, after, foreign, groups, bypass, byOrder, p) && Travels(after, foreign, groups, bypass, p)
    ensures Premises(TableOf(after, "mangle"), TableOf(after, "nat"), foreign, groups, bypass, p)
    ensures WayThrough(after, p)
            == Goes(TableOf(after, "mangle"), TableOf(after, "nat"), Hooks(groups, foreign, byOrder, p), p)
  {
    LanesAreGood(groups, "mangle", p);
    PreroutingAfterCommit(start, k, foreign, groups, ListedBy(groups, p), bypass, byOrder);
    ChainsAfterCommit(start, k, groups, bypass, byOrder);
  }

  /** New UDP traffic goes where the group that the page names sends it. */
  lemma UdpIsDelivered(start: Model, k: Kernel, after: Kernel, foreign: (seq<Rule>, seq<Rule>), groups: seq<Group>,
                       bypass: string, byOrder: bool, p: Packet, i: nat)
    requires Brought(start, k, after, foreign, groups, bypass, byOrder, p) && Travels(after, foreign, groups, bypass, p)
    requires p.protocol == "udp" && !p.socket && KernelPick(ListedBy(groups, p), byOrder) == Some(i) && i < |groups|
    ensures WayThrough(after, p) == WayOfGroup(groups[i])
  {
    KernelIsReady(start, k, after, foreign, groups, bypass, byOrder, p);
    UdpGoesWhereNamed(TableOf(after, "mangle"), TableOf(after, "nat"), foreign, groups, bypass, byOrder, p, i);
  }

  /** New TCP traffic does exactly unless an interface group is named while a proxied one
      comes first among the direct and the proxied groups that list the address. */
  lemma TcpIsDeliveredIff(start: Model, k: Kernel, after: Kernel, foreign: (seq<Rule>, seq<Rule>), groups: seq<Group>,
                          bypass: string, byOrder: bool, p: Packet, i: nat)
    requires Brought(start, k, after, foreign, groups, bypass, byOrder, p) && Travels(after, foreign, groups, bypass, p)
    requires p.protocol == "tcp" && KernelPick(ListedBy(groups, p), byOrder) == Some(i) && i < |groups|
    ensures var first := KernelPick(Lanes(groups, "nat", p), byOrder);
            WayThrough(after, p) == WayOfGroup(groups[i])
            <==> !(IsLink(groups[i])
                   && first.Some? && first.value < |groups| && groups[first.value].place.route.TProxy?)
  {
    KernelIsReady(start, k, after, foreign, groups, bypass, byOrder, p);
    TcpGoesWhereNamedIff(TableOf(after, "mangle"), TableOf(after, "nat"), foreign, groups, bypass, byOrder, p, i);
  }

  /** All traffic of an exempt client goes its own way. */
  lemma ExemptIsLeftAlone(start: Model, k: Kernel, after: Kernel, foreign: (seq<Rule>, seq<Rule>), groups: seq<Group>,
                          bypass: string, byOrder: bool, p: Packet)
    requires Brought(start, k, after, foreign, groups, bypass, byOrder, p)
    requires AllIndifferent(TableOf(after, "mangle"), TableOf(after, "nat"), foreign, groups, p)
    requires bypass in p.source && p.mark == 0
    ensures WayThrough(after, p) == Plain
  {
    LanesAreGood(groups, "mangle", p);
    PreroutingAfterCommit(start, k, foreign, groups, ListedBy(groups, p), bypass, byOrder);
    ChainsAfterCommit(start, k, groups, bypass, byOrder);
    ExemptGoesPlain(TableOf(after, "mangle"), TableOf(after, "nat"), foreign, groups, bypass, byOrder, p);
  }

  /** Traffic to an address that no group lists goes its own way. */
  lemma UnlistedIsLeftAlone(start: Model, k: Kernel, after: Kernel, foreign: (seq<Rule>, seq<Rule>),
                            groups: seq<Group>, bypass: string, byOrder: bool, p: Packet)
    requires Brought(start, k, after, foreign, groups, bypass, byOrder, p) && Travels(after, foreign, groups, bypass, p)
    requires p.socket ==> p.protocol != "udp"
    requires forall i | 0 <= i < |groups| :: groups[i].place.main !in p.dest
    ensures WayThrough(after, p) == Plain
  {
    KernelIsReady(start, k, after, foreign, groups, bypass, byOrder, p);
    UnlistedGoesPlain(TableOf(after, "mangle"), TableOf(after, "nat"), foreign, groups, bypass, byOrder, p);
  }
}

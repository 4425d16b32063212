/**
  Bringing routing up and down, and the switch of the direct-group priority, in which
  every step can fail. A direct group's place is decided when its chain is made, so the
  switch takes routing down and up again, and back to the old mode when that fails.
 */
module Lifecycle {
  import opened Firewalls

  const ABSOLUTE := "absolute"
  const BY_ORDER := "byOrder"

  class RoutingGroup {
    /** The user's choice for this group. */
    const wanted: bool
    var enabled: bool

    constructor (wanted: bool)
      ensures this.wanted == wanted && !enabled
    {
      this.wanted, enabled := wanted, false;
    }
  }

  datatype Outcome = Done | Rejected | RolledBack | RoutingDown

  class App {
    const groups: seq<RoutingGroup>
    const hasHelper: bool
    const fw: Firewall
    var mode: string
    var savedMode: string
    var enabled: bool
    var savedEnabled: bool
    var helperByOrder: bool
    var routingActive: bool
    var shuttingDown: bool
    /** The redirection of DNS is in place. */
    var overridden: bool

    ghost predicate GroupsFine()
      reads this, groups, fw
    {
      && fw.Valid() && fw.groups == |groups|
      && (forall i, j | 0 <= i < j < |groups| :: groups[i] != groups[j])
      && (forall i | 0 <= i < |groups| && i in fw.linked :: groups[i].enabled && groups[i].wanted)
    }

    /** The groups before `n` that the user wants have their sets and their rules, and their
        jumps were registered in the mode. */
    ghost predicate Served(n: nat, linked: set<nat>, inOrder: set<nat>, live: set<nat>, stock: seq<Stock>,
                           byOrder: bool)
      requires n <= |groups|
    {
      forall i | 0 <= i < n && groups[i].wanted ::
        i in linked && (i in inOrder <==> byOrder) && i in live && i < |stock| && stock[i].Present?
    }

    /** Every group is enabled and served in the mode the helper holds now. */
    ghost predicate AllUp()
      reads this, groups, fw
    {
      && (forall i | 0 <= i < |groups| :: groups[i].enabled)
      && Served(|groups|, fw.linked, fw.inOrder, fw.live, fw.stock, helperByOrder)
    }

    /** No set of a group the user wants is in the kernel. */
    ghost predicate Gone(stock: seq<Stock>)
    {
      forall i | 0 <= i < |groups| && groups[i].wanted :: i < |stock| && stock[i].Absent?
    }

    /** ... and every family's last commit left them in the kernel. */
    ghost predicate Up()
      reads this, groups, fw
    {
      fw.Valid() && fw.groups == |groups| && AllUp() && fw.InKernel() && overridden
    }

    ghost predicate AllDown()
      reads this, groups
    {
      forall i | 0 <= i < |groups| :: !groups[i].enabled
    }

    /** Routing is up only if the user wants it, and then with all chains made in the
        helper's present mode. */
    ghost predicate RoutingFine()
      reads this, groups, fw
    {
      Stands() && (routingActive ==> enabled)
    }

    /** Routing is up, or down, as `routingActive` says. */
    ghost predicate Stands()
      reads this, groups, fw
    {
      GroupsFine() && Safe() && if routingActive then Up() else AllDown() && !overridden
    }

    /** As long as no commit failed, no set was destroyed while a kernel rule named it, and
        with routing down no kernel rule names a set. */
    ghost predicate Safe()
      requires fw.Valid()
      reads this, fw
    {
      !fw.missed ==> !fw.busy && (!routingActive ==> fw.named == {})
    }

    /** The committer works exactly while routing is up, until it is stopped. */
    ghost predicate Valid()
      reads this, groups, fw
    {
      && RoutingFine() && (fw.hasCommitter ==> fw.committerReady == (routingActive && !fw.committerStopped))
      && (shuttingDown ==> fw.committerStopped)
    }

    constructor (groups: seq<RoutingGroup>, hasHelper: bool, fw: Firewall, mode: string, enabled: bool)
      requires forall i, j | 0 <= i < j < |groups| :: groups[i] != groups[j]
      requires forall i | 0 <= i < |groups| :: !groups[i].enabled
      requires fw.Valid() && fw.groups == |groups| && fw.linked == {} && fw.named == {} && !fw.busy
      requires !fw.committerReady && !fw.committerStopped
      ensures Valid() && this.groups == groups && this.fw == fw && !routingActive
      ensures this.mode == mode == savedMode && this.enabled == enabled == savedEnabled
    {
      this.groups, this.hasHelper, this.fw := groups, hasHelper, fw;
      this.mode, savedMode, this.enabled, savedEnabled := mode, mode, enabled, enabled;
      helperByOrder, routingActive, shuttingDown, overridden := mode == BY_ORDER, false, false, false;
    }

    // ---- Groups ----

    /** Makes the group's sets and chains; a failure undoes what was made. */
    method EnableGroup(i: nat) returns (ok: bool)
      requires i < |groups| && GroupsFine() && fw.Rests()
      modifies groups[i], fw`registries, fw`kernels, fw`named, fw`linked, fw`inOrder, fw`made, fw`live,
               fw`stock, fw`busy
      ensures GroupsFine()
      ensures fw.named == old(fw.named) && (i !in fw.named ==> fw.busy == old(fw.busy))
      ensures !ok ==> i !in fw.live
      ensures (ok || old(groups[i].enabled) <==> groups[i].enabled) && (!fw.mayFail ==> ok)
      ensures fw.linked == if ok && groups[i].wanted && !old(groups[i].enabled) then old(fw.linked) + {i}
                           else old(fw.linked)
      ensures forall j | j != i :: j in fw.inOrder <==> j in old(fw.inOrder)
      ensures ok && old(Served(i, fw.linked, fw.inOrder, fw.live, fw.stock, helperByOrder) && !groups[i].enabled) ==>
                Served(i + 1, fw.linked, fw.inOrder, fw.live, fw.stock, helperByOrder)
    {
      var g := groups[i];
      if g.enabled {
        return true;
      }
      g.enabled := true;
      if !g.wanted {
        return true;
      }
      ok := MakeGroup(i);
      if !ok {
        var _ := DisableRules(i);
        var _ := DestroySets(i);
      }
    }

    /** What an earlier run left goes first; then the sets, then the rules that match them. */
    method MakeGroup(i: nat) returns (ok: bool)
      requires i < |groups| && GroupsFine() && fw.Rests() && i !in fw.linked && groups[i].enabled && groups[i].wanted
      modifies fw`registries, fw`kernels, fw`named, fw`linked, fw`inOrder, fw`made, fw`live, fw`stock, fw`busy
      ensures GroupsFine() && fw.linked == old(fw.linked) + if ok then {i} else {}
      ensures forall j | j != i :: j in fw.inOrder <==> j in old(fw.inOrder)
      ensures (ok ==> (i in fw.inOrder <==> helperByOrder) && i in fw.live) && (!fw.mayFail ==> ok)
      ensures fw.stock == old(fw.stock)[i := if ok then Present else fw.stock[i]] && old(fw.live) <= fw.live
      ensures fw.named == old(fw.named) && (i !in fw.named ==> fw.busy == old(fw.busy))
    {
      ok := PrepareGroup(i);
      if ok {
        ok := fw.LinkGroup(i, helperByOrder);
      }
    }

    method PrepareGroup(i: nat) returns (ok: bool)
      requires i < |groups| && fw.groups == |groups| && fw.Valid() && fw.Rests() && i !in fw.linked
      modifies fw`registries, fw`kernels, fw`named, fw`made, fw`live, fw`stock, fw`busy
      ensures fw.Valid() && (ok ==> i in fw.live) && (!fw.mayFail ==> ok)
      ensures fw.stock == old(fw.stock)[i := if ok then Present else fw.stock[i]] && old(fw.live) <= fw.live
      ensures fw.named == old(fw.named) && (i !in fw.named ==> fw.busy == old(fw.busy))
    {
      fw.ClearRules(i);
      ok := fw.Succeeds();
      if ok {
        ok := fw.MakeSets(i);
      }
    }

    /** Takes the group's rules out of the registries; the kernels keep them until a commit. */
    method DisableRules(i: nat) returns (ok: bool)
      requires i < |groups| && GroupsFine()
      modifies fw`registries, fw`linked
      ensures GroupsFine() && fw.linked == old(fw.linked) - {i} && (!fw.mayFail ==> ok)
    {
      if !groups[i].enabled || !groups[i].wanted || i !in fw.linked {
        return true;
      }
      fw.UnlinkGroup(i);
      ok := fw.Succeeds();
    }

    /** Destroys the group's sets; the group counts as disabled even when that fails. */
    method DestroySets(i: nat) returns (ok: bool)
      requires i < |groups| && GroupsFine() && i !in fw.linked && fw.Rests()
      modifies groups[i], fw`kernels, fw`named, fw`made, fw`live, fw`stock, fw`busy
      ensures GroupsFine() && !groups[i].enabled && (!fw.mayFail ==> ok)
      ensures fw.named == old(fw.named) && (i !in fw.named ==> fw.busy == old(fw.busy))
      ensures ok && groups[i].wanted && old(groups[i].enabled) && i in old(fw.live) ==> fw.stock[i].Absent?
      ensures fw.stock == old(fw.stock)[i := fw.stock[i]] && fw.live <= old(fw.live) <= fw.live + {i}
      ensures groups[i].wanted && old(groups[i].enabled) ==> i !in fw.live
    {
      var g := groups[i];
      if !g.enabled {
        return true;
      }
      ok := true;
      if g.wanted {
        ok := fw.DestroySets(i);
      }
      g.enabled := false;
    }

    // ---- Routing ----

    ghost predicate MadeSets(i: nat)
      requires i < |groups|
      reads this, groups, fw
    {
      groups[i].enabled && groups[i].wanted && i in fw.live
    }

    /** All groups are down afterwards, whatever failed. Sets go after the batch that takes
        the rules out: if every family was committed, no kernel rule names a set any more,
        and none was destroyed while one did. Every set an enabled group had made is told to
        go; success means that they all are gone. */
    method TearDownRouting() returns (ok: bool, ghost committed: bool)
      requires GroupsFine() && fw.Rests()
      modifies groups, this`overridden, fw`registries, fw`kernels, fw`named, fw`linked, fw`inOrder, fw`made,
               fw`live, fw`stock, fw`busy, fw`committed, fw`missed
      ensures GroupsFine() && AllDown() && !overridden && (!fw.mayFail ==> ok && committed)
      ensures forall i | 0 <= i < |groups| && old(MadeSets(i)) :: i !in fw.live && (ok ==> fw.stock[i].Absent?)
      ensures committed ==> fw.named == {} && fw.AllFree() && fw.busy == old(fw.busy) && fw.missed == old(fw.missed)
      ensures !committed ==> fw.missed
    {
      ok := DisableAll();
      var done := fw.CommitAll();
      committed := done;
      var destroyed := DestroyAll();
      if committed {
        fw.NothingIsNamed();
      }
      var restored := RestoreDns();
      ok := ok && done && destroyed && restored;
    }

    method DisableAll() returns (ok: bool)
      requires GroupsFine()
      modifies fw`registries, fw`linked
      ensures GroupsFine() && fw.linked == {} && (!fw.mayFail ==> ok)
    {
      ok := true;
      for i := 0 to |groups|
        invariant GroupsFine() && (!fw.mayFail ==> ok) && forall j | 0 <= j < i :: j !in fw.linked
      {
        var disabled := DisableRules(i);
        ok := ok && disabled;
      }
    }

    method DestroyAll() returns (ok: bool)
      requires GroupsFine() && fw.Rests() && fw.linked == {}
      modifies groups, fw`kernels, fw`named, fw`made, fw`live, fw`stock, fw`busy
      ensures GroupsFine() && AllDown() && (!fw.mayFail ==> ok)
      ensures fw.named == old(fw.named) && (fw.named == {} ==> fw.busy == old(fw.busy))
      ensures forall i | 0 <= i < |groups| && old(MadeSets(i)) :: i !in fw.live && (ok ==> fw.stock[i].Absent?)
    {
      ok := true;
      for i := 0 to |groups|
        invariant GroupsFine() && (!fw.mayFail ==> ok)
        invariant fw.named == old(fw.named) && (fw.named == {} ==> fw.busy == old(fw.busy))
        invariant forall j | 0 <= j < i :: !groups[j].enabled
        invariant forall j | i <= j < |groups| && old(MadeSets(j)) :: MadeSets(j)
        invariant forall j | 0 <= j < i && old(MadeSets(j)) :: j !in fw.live && (ok ==> fw.stock[j].Absent?)
      {
        var destroyed := DestroySets(i);
        ok := ok && destroyed;
      }
    }

    /** Redirects DNS to the daemon; what fails half-way is undone. */
    method OverrideDns() returns (ok: bool)
      modifies this`overridden
      ensures overridden == ok && (!fw.mayFail ==> ok)
    {
      ok := fw.Succeeds();
      overridden := ok;
    }

    /** Counts as undone even when that fails. */
    method RestoreDns() returns (ok: bool)
      modifies this`overridden
      ensures !overridden && (!fw.mayFail ==> ok)
    {
      ok := fw.Succeeds();
      overridden := false;
    }

    method RollbackFailedBringUp() returns (ok: bool)
      requires GroupsFine() && fw.Rests() && (!fw.missed ==> !fw.busy)
      modifies groups, this`routingActive, this`overridden, fw`registries, fw`kernels, fw`named, fw`linked,
               fw`inOrder, fw`made, fw`live, fw`stock, fw`busy, fw`committed, fw`missed
      ensures Stands() && !routingActive
    {
      ghost var committed;
      ok, committed := TearDownRouting();
      routingActive := false;
    }

    method BringUpRouting() returns (ok: bool)
      requires Stands() && (!routingActive ==> fw.Rests())
      modifies groups, this`routingActive, this`overridden, fw`registries, fw`kernels, fw`named, fw`linked,
               fw`inOrder, fw`made, fw`live, fw`stock, fw`busy, fw`committed, fw`missed
      ensures Stands() && ok == routingActive && (!fw.mayFail ==> ok)
    {
      if routingActive {
        return true;
      }
      routingActive := true;
      var redirected := OverrideDns();
      if !redirected {
        var _ := RollbackFailedBringUp();
        return false;
      }
      ok := EnableUnderBatch();
      if !ok {
        var _ := RollbackFailedBringUp();
        return false;
      }
    }

    /** Under the batch nothing reaches a kernel before the one commit at its end. */
    method EnableUnderBatch() returns (ok: bool)
      requires GroupsFine() && fw.Rests() && AllDown() && (!fw.missed ==> !fw.busy && fw.named == {})
      modifies groups, fw`registries, fw`kernels, fw`named, fw`linked, fw`inOrder, fw`made, fw`live, fw`stock,
               fw`busy, fw`committed, fw`missed
      ensures GroupsFine() && (!fw.missed ==> !fw.busy) && (!fw.mayFail ==> ok)
      ensures ok ==> AllUp() && fw.InKernel()
    {
      ok := EnableAll();
      var committed := fw.CommitAll();
      ok := ok && committed;
    }

    /** Stops at the first group that fails. */
    method EnableAll() returns (ok: bool)
      requires GroupsFine() && fw.Rests() && AllDown() && (!fw.missed ==> !fw.busy && fw.named == {})
      modifies groups, fw`registries, fw`kernels, fw`named, fw`linked, fw`inOrder, fw`made, fw`live, fw`stock,
               fw`busy
      ensures GroupsFine() && (!fw.missed ==> !fw.busy && fw.named == {}) && (!fw.mayFail ==> ok)
      ensures ok ==> AllUp()
    {
      ok := true;
      var i := 0;
      while i < |groups| && ok
        invariant i <= |groups| && GroupsFine() && (!fw.mayFail ==> ok)
        invariant !fw.missed ==> !fw.busy && fw.named == {}
        invariant ok ==> Served(i, fw.linked, fw.inOrder, fw.live, fw.stock, helperByOrder)
        invariant ok ==> forall j | 0 <= j < i :: groups[j].enabled
        invariant ok ==> forall j | i <= j < |groups| :: !groups[j].enabled
      {
        ok := EnableGroup(i);
        i := i + 1;
      }
    }

    method BringDownRouting() returns (ok: bool)
      requires GroupsFine() && Safe() && (if routingActive then fw.Rests() else AllDown() && !overridden)
      modifies groups, this`routingActive, this`overridden, fw`registries, fw`kernels, fw`named, fw`linked,
               fw`inOrder, fw`made, fw`live, fw`stock, fw`busy, fw`committed, fw`missed
      ensures Stands() && !routingActive && (!fw.mayFail ==> ok)
      ensures ok && old(routingActive && Up()) ==> Gone(fw.stock)
    {
      if !routingActive {
        return true;
      }
      routingActive := false;
      ghost var committed;
      ok, committed := TearDownRouting();
    }

    /** Pauses the committer, or lets it go on; once stopped it takes no command. */
    method LetCommitter(work: bool)
      requires Stands()
      modifies fw`committerReady
      ensures Stands() && (old(Up()) ==> Up())
      ensures fw.committerReady == if fw.hasCommitter && !fw.committerStopped then work else old(fw.committerReady)
    {
      fw.LetCommitter(work);
    }

    /** With routing down, unless a commit failed, no kernel rule names any group's set. */
    lemma DownIsUnnamed()
      requires Valid() && !routingActive && !fw.missed
      ensures fw.AllFree() && !fw.busy
    {
      fw.NothingIsNamed();
    }

    // ---- The direct-group priority ----

    predicate DirectPriorityApplied()
      reads this
    {
      enabled == routingActive && (hasHelper ==> helperByOrder == (mode == BY_ORDER))
    }

    /** Configuration and helper hold the mode, and wanted routing is up with its chains made in it. */
    ghost predicate Runs(m: string)
      reads this, groups, fw
    {
      mode == m && (hasHelper ==> helperByOrder == (m == BY_ORDER)) && (enabled ==> Up())
    }

    method ApplyDirectPriority(m: string, ensureRouting: bool) returns (ok: bool)
      requires RoutingFine() && fw.Rests() && ensureRouting == enabled
      modifies groups, this`mode, this`helperByOrder, this`routingActive, this`overridden, fw`registries,
               fw`kernels, fw`named, fw`linked, fw`inOrder, fw`made, fw`live, fw`stock, fw`busy, fw`committed,
               fw`missed
      ensures RoutingFine()
      ensures mode == m && (hasHelper ==> helperByOrder == (m == BY_ORDER))
      ensures ok ==> Runs(m)
      ensures !ok ==> enabled && !routingActive
      ensures !fw.mayFail ==> ok
    {
      mode := m;
      if hasHelper {
        helperByOrder := m == BY_ORDER;
      }
      if !ensureRouting {
        return true;
      }
      if routingActive {
        var down := BringDownRouting();
        if !down {
          return false;
        }
      }
      ok := BringUpRouting();
    }

    method SaveConfig() returns (ok: bool)
      modifies this`savedMode, this`savedEnabled
      ensures savedMode == (if ok then mode else old(savedMode))
      ensures savedEnabled == if ok then enabled else old(savedEnabled)
      ensures !fw.mayFail ==> ok
    {
      ok := fw.Succeeds();
      if ok {
        savedMode, savedEnabled := mode, enabled;
      }
    }

    /** Applies and saves the mode, and goes back to `previous` when either fails. */
    method SwitchOrGoBack(m: string, previous: string) returns (out: Outcome)
      requires RoutingFine() && fw.Rests() && previous == mode
      modifies groups, this`mode, this`savedMode, this`savedEnabled, this`helperByOrder, this`routingActive,
               this`overridden, fw`registries, fw`kernels, fw`named, fw`linked, fw`inOrder, fw`made, fw`live,
               fw`stock, fw`busy, fw`committed, fw`missed
      ensures RoutingFine() && !out.Rejected? && (!fw.mayFail ==> out.Done?)
      ensures out.Done? ==> Runs(m)
      ensures out.RolledBack? ==> Runs(previous)
      ensures out.RoutingDown? ==> mode == previous && enabled && !routingActive
      ensures old(savedMode) == previous ==> savedMode == mode
    {
      var shouldRun := enabled;
      var applied := ApplyAndSave(m, shouldRun);
      if applied {
        return Done;
      }
      var back := ApplyDirectPriority(previous, shouldRun);
      return if back then RolledBack else RoutingDown;
    }

    method ApplyAndSave(m: string, shouldRun: bool) returns (ok: bool)
      requires RoutingFine() && fw.Rests() && shouldRun == enabled
      modifies groups, this`mode, this`savedMode, this`savedEnabled, this`helperByOrder, this`routingActive,
               this`overridden, fw`registries, fw`kernels, fw`named, fw`linked, fw`inOrder, fw`made, fw`live,
               fw`stock, fw`busy, fw`committed, fw`missed
      ensures RoutingFine() && (!fw.mayFail ==> ok)
      ensures ok ==> Runs(m) && savedMode == mode
      ensures !ok ==> savedMode == old(savedMode)
    {
      ok := ApplyDirectPriority(m, shouldRun);
      if ok {
        ok := SaveConfig();
      }
    }

    /** Transactional for every pattern of failures: the new mode runs, or the old one does,
        or the caller learns that routing is down, and a repeat is not taken for applied. */
    method SetDirectPriority(m: string) returns (out: Outcome)
      requires Valid()
      modifies groups, this`mode, this`savedMode, this`savedEnabled, this`helperByOrder, this`routingActive,
               this`overridden, fw`committerReady, fw`registries, fw`kernels, fw`named, fw`linked, fw`inOrder,
               fw`made, fw`live, fw`stock, fw`busy, fw`committed, fw`missed
      ensures Valid()
      ensures (out.Rejected? <==> m != ABSOLUTE && m != BY_ORDER) && (!fw.mayFail ==> out.Done? || out.Rejected?)
      ensures out.Rejected? ==>
                mode == old(mode) && helperByOrder == old(helperByOrder) && routingActive == old(routingActive)
      ensures out.Done? ==> Runs(m)
      ensures out.RolledBack? ==> Runs(old(mode))
      ensures out.RoutingDown? ==> mode == old(mode) && enabled && !routingActive && !DirectPriorityApplied()
      ensures old(savedMode) == old(mode) ==> savedMode == mode
    {
      if m != ABSOLUTE && m != BY_ORDER {
        return Rejected;
      }
      if mode == m && DirectPriorityApplied() {
        return Done;
      }
      out := SwitchWhilePaused(m);
    }

    /** The committer works again only if routing is up in the end. */
    method SwitchWhilePaused(m: string) returns (out: Outcome)
      requires Valid()
      modifies groups, this`mode, this`savedMode, this`savedEnabled, this`helperByOrder, this`routingActive,
               this`overridden, fw`committerReady, fw`registries, fw`kernels, fw`named, fw`linked, fw`inOrder,
               fw`made, fw`live, fw`stock, fw`busy, fw`committed, fw`missed
      ensures Valid() && !out.Rejected? && (!fw.mayFail ==> out.Done?)
      ensures out.Done? ==> Runs(m)
      ensures out.RolledBack? ==> Runs(old(mode))
      ensures out.RoutingDown? ==> mode == old(mode) && enabled && !routingActive
      ensures old(savedMode) == old(mode) ==> savedMode == mode
    {
      LetCommitter(false);
      out := SwitchOrGoBack(m, mode);
      if routingActive {
        LetCommitter(true);
      }
    }

    // ---- The main switch ----

    /** Switching off always ends with routing down and the wish recorded; switching on
        reports success only if routing is up. */
    method SetEnabled(on: bool) returns (ok: bool)
      requires Valid()
      modifies groups, this`enabled, this`savedMode, this`savedEnabled, this`routingActive, this`overridden,
               fw`committerReady, fw`registries, fw`kernels, fw`named, fw`linked, fw`inOrder, fw`made, fw`live,
               fw`stock, fw`busy, fw`committed, fw`missed
      ensures Valid()
      ensures ok ==> enabled == on && routingActive == on
      ensures ok && old(enabled == on ==> savedEnabled == on) ==> savedEnabled == on
      ensures !on ==> !enabled && !routingActive
      ensures !on && ok && old(routingActive) ==> Gone(fw.stock)
      ensures on && shuttingDown ==> !ok && routingActive == old(routingActive) && enabled == old(enabled)
      ensures on && !routingActive ==> !ok && enabled == old(enabled)
      ensures !fw.mayFail && !(on && shuttingDown) ==> ok
    {
      if shuttingDown && on {
        return false;
      }
      if enabled == on && routingActive == on {
        return true;
      }
      var down := true;
      if on {
        var up := SwitchOn();
        if !up {
          return false;
        }
      } else {
        down := SwitchOff();
      }
      var saved := Wish(on);
      ok := down && saved;
    }

    /** Whether routing is in order, but for the user's wish. */
    ghost predicate Switched(on: bool)
      reads this, groups, fw
    {
      && Stands() && routingActive == on
      && (fw.hasCommitter ==> fw.committerReady == (on && !fw.committerStopped))
      && (shuttingDown ==> fw.committerStopped)
    }

    method SwitchOn() returns (ok: bool)
      requires Valid() && !routingActive
      modifies groups, this`routingActive, this`overridden, fw`committerReady, fw`registries, fw`kernels,
               fw`named, fw`linked, fw`inOrder, fw`made, fw`live, fw`stock, fw`busy, fw`committed, fw`missed
      ensures if ok then Switched(true) else Valid() && !routingActive
      ensures !fw.mayFail ==> ok
    {
      ok := BringUpRouting();
      if ok {
        LetCommitter(true);
      }
    }

    method SwitchOff() returns (ok: bool)
      requires Valid()
      modifies groups, this`routingActive, this`overridden, fw`committerReady, fw`registries, fw`kernels,
               fw`named, fw`linked, fw`inOrder, fw`made, fw`live, fw`stock, fw`busy, fw`committed, fw`missed
      ensures Switched(false) && (!fw.mayFail ==> ok)
      ensures ok && old(routingActive) ==> Gone(fw.stock)
    {
      LetCommitter(false);
      ok := BringDownRouting();
    }

    /** Keeps the user's wish, in memory at least. */
    method Wish(on: bool) returns (saved: bool)
      modifies this`enabled, this`savedMode, this`savedEnabled
      ensures enabled == on && (!fw.mayFail ==> saved) && (saved ==> savedEnabled == on)
    {
      enabled := on;
      saved := SaveConfig();
    }

    // ---- Shutdown ----

    /** Stops the committer and takes routing down for the last time. */
    method Shutdown()
      requires Valid()
      modifies groups, this`shuttingDown, this`routingActive, this`overridden, fw`committerReady,
               fw`committerStopped, fw`registries, fw`kernels, fw`named, fw`linked, fw`inOrder, fw`made,
               fw`live, fw`stock, fw`busy, fw`committed, fw`missed
      ensures Valid() && shuttingDown && !routingActive
    {
      fw.StopCommitter();
      shuttingDown := true;
      var _ := BringDownRouting();
    }

    /** Bringing routing up again is refused from then on, but the switch of the direct-group
        priority does not ask: it ends with routing up exactly if the user wants routing and
        the mode is one, unless a step fails. */
    method SwitchAfterShutdown(m: string) returns (out: Outcome)
      requires Valid()
      modifies groups, this`mode, this`savedMode, this`savedEnabled, this`helperByOrder, this`shuttingDown,
               this`routingActive, this`overridden, fw`committerReady, fw`committerStopped, fw`registries,
               fw`kernels, fw`named, fw`linked, fw`inOrder, fw`made, fw`live, fw`stock, fw`busy, fw`committed,
               fw`missed
      ensures Valid() && shuttingDown
      ensures routingActive ==> enabled && (m == ABSOLUTE || m == BY_ORDER)
      ensures !fw.mayFail ==> (routingActive <==> enabled && (m == ABSOLUTE || m == BY_ORDER))
    {
      Shutdown();
      out := SetDirectPriority(m);
    }

    // ---- What happens in between ----

    /** The firmware and the committer may work at any time between two operations. */
    ghost method Interfere()
      requires Valid()
      modifies fw`kernels, fw`named
      ensures Valid()
    {
      fw.Interfere();
      assert old(Up()) ==> Up();
    }
  }
}

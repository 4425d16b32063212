/**
  The groups' rules and sets in all address families: the registries, what the kernels
  hold, and the sets. Commits can fail or be cut off, the firmware can take rules out of a
  kernel at any time, and a committer that is not paused can commit at any time.
 */
module Firewalls {
  import opened Text
  import opened Netfilter
  import opened Chains
  import opened Reconciler
  import opened Teardown
  import opened IPTables
  import opened GroupRules
  import opened GroupRegistry
  import opened GroupJumps
  import RefSafety
  import Preamble

  /** One address family's view of the groups, and the names its kernel takes for chains. */
  datatype Family = Family(bypass: string, places: seq<Place>, users: Users)

  /** A group owns the same sets and takes the same route in every family. */
  ghost predicate GoodFamilies(families: seq<Family>, groups: nat)
  {
    && (forall f | 0 <= f < |families| ::
          && |families[f].places| == groups && GoodPlaces(families[f].places, families[f].bypass)
          && GoodUsers(families[f].users))
    && (forall e, f, i | 0 <= e < |families| && 0 <= f < |families| && 0 <= i < groups ::
          && families[e].places[i].owned == families[f].places[i].owned
          && families[e].places[i].route == families[f].places[i].route)
  }

  ghost predicate RegistryFine(m: Model, family: Family, linked: set<nat>)
  {
    Sound(m, family.places, linked) && FineJumps(m, family.places)
  }

  ghost predicate KernelFine(k: Kernel, m: Model, family: Family)
  {
    && Traced(k, m, family.places) && FineKernel(k, m, family.places)
    && RefSafety.KernelRefSafe(k, family.users)
  }

  ghost predicate FamilyFine(m: Model, k: Kernel, family: Family, linked: set<nat>)
  {
    RegistryFine(m, family, linked) && KernelFine(k, m, family)
  }

  /** A kernel that names no set of a group and has no jump to a chain of ours. */
  ghost predicate Untouched(k: Kernel, family: Family)
  {
    && CleanKernel(k) && RefSafety.KernelRefSafe(k, family.users) && NoJumpsToOurs(k, family.places)
    && forall i | 0 <= i < |family.places| :: FreeIn(k, family.places[i])
  }

  lemma StartsFine(k: Kernel, family: Family)
    requires GoodPlaces(family.places, family.bypass) && Untouched(k, family)
    ensures FamilyFine(Start(), k, family, {}) && OthersFree(k, family.places, {})
    ensures PreambleIs(Start(), family.bypass, false)
  {
    StartIsSound(family.places, family.bypass);
    StartIsFine(family.places);
    StartAt("mangle", Preamble.PREAMBLE);
    forall i | 0 <= i < |family.places|
      ensures TracedTo(k, Start(), family.places[i])
    {
      assert FreeIn(k, family.places[i]);
    }
  }

  lemma KernelFineGrows(k: Kernel, m: Model, more: Model, family: Family)
    requires KernelFine(k, m, family) && Grows(m, more)
    ensures KernelFine(k, more, family)
  {
    TracedGrows(k, m, more, family.places);
    FineKernelGrows(k, m, more, family.places);
  }

  /** Commits, whole or cut off, keep a kernel fine, and the kernel refuses none of them. */
  lemma CommitKeepsKernel(m: Model, k: Kernel, family: Family, linked: set<nat>, visited: set<string>)
    requires GoodPlaces(family.places, family.bypass) && GoodUsers(family.users) && FamilyFine(m, k, family, linked)
    ensures RefSafety.SafeCommit(m, k, family.users)
    ensures KernelFine(AfterKernel(m, k), m, family) && KernelFine(Partly(visited, m, k), m, family)
  {
    CommitKeepsTraced(k, m, family.places, family.bypass, linked, visited);
    CommitKeepsFine(m, k, family.places, family.bypass, visited);
    CommitIsSafe(m, k, family.places, family.bypass, family.users);
    CommitKeepsTargets(m, k, family.users, visited);
  }

  /** What the firmware may leave of a kernel: less of ours, and in order. */
  ghost predicate Lost(k: Kernel, before: Kernel, family: Family)
  {
    NamesLess(k, before) && JumpsLess(k, before, family.places) && RefSafety.KernelRefSafe(k, family.users)
  }

  lemma LossKeepsKernel(k: Kernel, before: Kernel, m: Model, family: Family)
    requires KernelFine(before, m, family) && Lost(k, before, family)
    ensures KernelFine(k, m, family)
  {
    LossKeepsTraced(k, before, m, family.places);
    LossKeepsFine(k, before, m, family.places);
  }

  /** The kernels name no sets but those they named. */
  ghost predicate NamesNoMore(before: seq<Kernel>, after: seq<Kernel>)
  {
    |before| == |after| && forall f | 0 <= f < |after| :: NamesLess(after[f], before[f])
  }

  /** No kernel rule names a set of a group outside `named`. */
  ghost predicate OthersFree(k: Kernel, places: seq<Place>, named: set<nat>)
  {
    forall i | 0 <= i < |places| && i !in named :: FreeIn(k, places[i])
  }

  lemma LossKeepsFree(k: Kernel, before: Kernel, places: seq<Place>, named: set<nat>)
    requires NamesLess(k, before) && OthersFree(before, places, named)
    ensures OthersFree(k, places, named)
  {
    forall i | 0 <= i < |places| && i !in named
      ensures FreeIn(k, places[i])
    {
      assert FreeIn(before, places[i]);
    }
  }

  /** After a commit the groups without rules are free; after one that was cut off, those
      that were free before as well. */
  lemma CommitFrees(m: Model, k: Kernel, family: Family, linked: set<nat>, named: set<nat>, visited: set<string>)
    requires GoodPlaces(family.places, family.bypass) && FamilyFine(m, k, family, linked)
    requires OthersFree(k, family.places, named)
    ensures OthersFree(AfterKernel(m, k), family.places, linked)
    ensures OthersFree(Partly(visited, m, k), family.places, named + linked)
  {
    forall i | 0 <= i < |family.places| && i !in linked
      ensures FreeIn(AfterKernel(m, k), family.places[i])
    {
      DownIsFree(k, m, family.places, family.bypass, linked, i);
    }
    forall i | 0 <= i < |family.places| && i !in named + linked
      ensures FreeIn(Partly(visited, m, k), family.places[i])
    {
      CutOffIsFree(m, k, family.places[i], visited);
    }
  }

  lemma CutOffIsFree(m: Model, k: Kernel, p: Place, visited: set<string>)
    requires GoodConfig(m) && CleanKernel(k) && FreeIn(k, p) && FreeIn(AfterKernel(m, k), p)
    ensures FreeIn(Partly(visited, m, k), p)
  {
    forall t, c, name | Referenced(Partly(visited, m, k), t, c, name)
      ensures name !in p.owned
    {
      PartlyByChain(visited, m, k, t, c);
      assert Referenced(AfterKernel(m, k), t, c, name) || Referenced(k, t, c, name);
    }
  }

  ghost predicate AllFine(families: seq<Family>, groups: nat, registries: seq<Model>, kernels: seq<Kernel>,
                          linked: set<nat>, named: set<nat>)
  {
    && GoodFamilies(families, groups) && |registries| == |kernels| == |families|
    && (forall i | i in linked :: i < groups)
    && (forall f | 0 <= f < |families| :: FamilyFine(registries[f], kernels[f], families[f], linked))
    && (forall f | 0 <= f < |families| :: OthersFree(kernels[f], families[f].places, named))
  }

  /** A commit that succeeded: the registry it was of, and the kernel it made. */
  datatype Record = Recorded(registry: Model, kernel: Kernel)

  /** The family's last commit succeeded, nothing was registered since, and it left the
      kernel the chains of all linked groups, with their rules and jumps, and the preamble if
      one of them needs it. */
  ghost predicate LeftIn(last: Option<Record>, m: Model, family: Family, linked: set<nat>, preamble: bool)
    requires forall i | i in linked :: i < |family.places|
  {
    && last.Some? && last.value.registry == m
    && (preamble ==> PreambleInKernel(last.value.kernel, family.bypass))
    && forall i | i in linked :: Carries(last.value.kernel, family.places[i], family.bypass)
  }

  ghost predicate AllLeft(last: seq<Option<Record>>, registries: seq<Model>, families: seq<Family>, linked: set<nat>,
                          preamble: bool)
    requires |last| == |registries| == |families|
    requires forall f, i | 0 <= f < |families| && i in linked :: i < |families[f].places|
  {
    forall f | 0 <= f < |families| :: LeftIn(last[f], registries[f], families[f], linked, preamble)
  }

  /** And only linked groups can be named in its kernel. */
  ghost predicate Through(last: Option<Record>, m: Model, k: Kernel, family: Family, linked: set<nat>, preamble: bool)
    requires forall i | i in linked :: i < |family.places|
  {
    LeftIn(last, m, family, linked, preamble) && OthersFree(k, family.places, linked)
  }

  /** What the kernel has of a group's sets: none, all, or nobody knows. */
  datatype Stock = Absent | Unsure | Present

  class Firewall {
    const families: seq<Family>
    const groups: nat
    const hasCommitter: bool
    /** Steps can fail for reasons outside the program. */
    const mayFail: bool
    var committerReady: bool
    /** The committer's worker has exited; it takes no more commands. */
    var committerStopped: bool
    var registries: seq<Model>
    /** Groups whose link is enabled, groups that hold sets they made, and those of them whose
        sets were not given up since. */
    var linked: set<nat>
    var made: set<nat>
    var live: set<nat>
    ghost var stock: seq<Stock>
    /** Linked groups whose jumps were made while direct groups kept their order. */
    ghost var inOrder: set<nat>
    ghost var kernels: seq<Kernel>
    /** Each family's last commit, if it succeeded. */
    ghost var committed: seq<Option<Record>>
    /** No kernel rule names a set of a group outside `named`. */
    ghost var named: set<nat>
    /** A set was destroyed while a kernel rule named it. */
    ghost var busy: bool
    /** Some commit failed. */
    ghost var missed: bool

    /** Registries and kernels are in order. */
    ghost predicate Sane()
      reads this
    {
      && AllFine(families, groups, registries, kernels, linked, named)
      && |committed| == |families| && live <= made && |stock| == groups
    }

    /** And every linked group has all its rules and jumps, made in its mode, and those that
        need the preamble have it. */
    ghost predicate Valid()
      reads this
    {
      Sane() && Ruled(registries, linked, inOrder) && PreambleFor(registries, NeedPreamble(linked))
    }

    ghost predicate PreambleFor(registries: seq<Model>, there: bool)
      requires |registries| == |families|
    {
      forall f | 0 <= f < |families| :: PreambleIs(registries[f], families[f].bypass, there)
    }

    predicate UsesPreamble(i: nat)
      requires GoodFamilies(families, groups) && i < groups
    {
      |families| > 0 && (families[0].places[i].route.Interface? || families[0].places[i].route.Blackhole?)
    }

    predicate NeedPreamble(some: set<nat>)
      requires GoodFamilies(families, groups)
    {
      exists i | i in some :: i < groups && UsesPreamble(i)
    }

    /** In every family the groups of `some` have all their chains, rules and jumps; those of
        `inOrder` were made while direct groups kept their order, the others not. */
    ghost predicate Ruled(registries: seq<Model>, some: set<nat>, inOrder: set<nat>)
      requires GoodFamilies(families, groups) && |registries| == |families|
    {
      forall f, i | 0 <= f < |families| && 0 <= i < groups && i in some ::
        HasRules(registries[f], families[f].places[i], families[f].bypass, i in inOrder)
    }

    /** Every family's last commit left the linked groups' rules in its kernel. */
    ghost predicate InKernel()
      requires Valid()
      reads this
    {
      AllLeft(committed, registries, families, linked, NeedPreamble(linked))
    }

    /** No kernel rule names a set of the group. */
    ghost predicate Free(i: nat)
      requires i < groups && Valid()
      reads this
    {
      forall f | 0 <= f < |families| :: FreeIn(kernels[f], families[f].places[i])
    }

    ghost predicate AllFree()
      requires Valid()
      reads this
    {
      forall i | 0 <= i < groups :: Free(i)
    }

    /** A committer at work could put rules of half-made groups into the kernel. */
    ghost predicate Rests()
      reads this
    {
      hasCommitter ==> !committerReady
    }

    /** After startup has cleaned the kernels: nothing names a set of a group or jumps to a
        chain of ours. */
    constructor (families: seq<Family>, groups: nat, hasCommitter: bool, mayFail: bool, ghost kernels: seq<Kernel>)
      requires GoodFamilies(families, groups) && |kernels| == |families|
      requires forall f | 0 <= f < |families| :: Untouched(kernels[f], families[f])
      ensures Valid() && Rests() && linked == {} && named == {} && !busy && !missed
      ensures made == {} && !committerReady && !committerStopped
      ensures this.groups == groups && this.hasCommitter == hasCommitter && this.mayFail == mayFail
      ensures this.families == families && this.kernels == kernels
    {
      this.families, this.groups, this.hasCommitter, this.mayFail := families, groups, hasCommitter, mayFail;
      this.kernels, committerReady, committerStopped, linked, made := kernels, false, false, {}, {};
      inOrder, named, busy, missed := {}, {}, false, false;
      committed := seq(|families|, _ => None);
      live, stock := {}, seq(groups, _ => Unsure);
      registries := seq(|families|, _ => Start());
      forall f | 0 <= f < |families|
        ensures FamilyFine(Start(), kernels[f], families[f], {}) && OthersFree(kernels[f], families[f].places, {})
        ensures PreambleIs(Start(), families[f].bypass, false)
      {
        StartsFine(kernels[f], families[f]);
      }
    }

    /** Pauses the committer, or lets it go on; once stopped it takes no command. */
    method LetCommitter(work: bool)
      requires Valid()
      modifies this`committerReady
      ensures Valid() && (old(InKernel()) ==> InKernel())
      ensures committerReady == if hasCommitter && !committerStopped then work else old(committerReady)
    {
      if hasCommitter && !committerStopped {
        committerReady := work;
      }
    }

    method StopCommitter()
      requires Valid()
      modifies this`committerReady, this`committerStopped
      ensures Valid() && (old(InKernel()) ==> InKernel())
      ensures !committerReady && committerStopped
    {
      committerReady, committerStopped := false, true;
    }

    // ---- What happens from outside ----

    /** Whether a step succeeds. */
    method Succeeds() returns (ok: bool)
      ensures !mayFail ==> ok
    {
      ok := *;
      ok := ok || !mayFail;
    }

    ghost method SetKernel(f: nat, k: Kernel)
      requires Valid() && f < |families| && KernelFine(k, registries[f], families[f])
      requires OthersFree(k, families[f].places, named)
      modifies this`kernels
      ensures Valid() && kernels == old(kernels)[f := k]
    {
      assert FamilyFine(registries[f], kernels[f], families[f], linked);
      kernels := kernels[f := k];
    }

    /** From now on the linked groups may be named. */
    ghost method ExpectLinked()
      requires Valid()
      modifies this`named
      ensures Valid() && named == old(named) + linked
    {
      forall f | 0 <= f < |families|
        ensures OthersFree(kernels[f], families[f].places, named + linked)
      {
        assert OthersFree(kernels[f], families[f].places, named);
      }
      named := named + linked;
    }

    /** The committer's own commit, of all tables or of some. */
    ghost method CommitterPass(f: nat)
      requires Valid() && f < |families|
      modifies this`kernels, this`named
      ensures Valid() && (Rests() ==> kernels == old(kernels) && named == old(named))
    {
      if hasCommitter && committerReady {
        ExpectLinked();
        assert FamilyFine(registries[f], kernels[f], families[f], linked);
        var visited: set<string> := *;
        CommitKeepsKernel(registries[f], kernels[f], families[f], linked, visited);
        CommitFrees(registries[f], kernels[f], families[f], linked, named, visited);
        assert named + linked == named;
        SetKernel(f, Partly(visited, registries[f], kernels[f]));
      }
    }

    ghost method Loss(f: nat)
      requires Valid() && f < |families|
      modifies this`kernels
      ensures Valid() && |kernels| == old(|kernels|) && NamesLess(kernels[f], old(kernels[f]))
      ensures kernels == old(kernels)[f := kernels[f]]
    {
      assert FamilyFine(registries[f], kernels[f], families[f], linked);
      var k: Kernel := *;
      if Lost(k, kernels[f], families[f]) {
        LossKeepsKernel(k, kernels[f], registries[f], families[f]);
        LossKeepsFree(k, kernels[f], families[f].places, named);
        SetKernel(f, k);
      }
    }

    /** The firmware takes rules out, the committer commits unless it rests. */
    ghost method Interfere()
      requires Valid()
      modifies this`kernels, this`named
      ensures Valid() && (Rests() ==> NamesNoMore(old(kernels), kernels) && named == old(named))
    {
      CleanAsTheyAre();
      for f := 0 to |families|
        invariant Valid() && (Rests() ==> NamesNoMore(old(kernels), kernels) && named == old(named))
      {
        var pass: bool := *;
        if pass {
          CommitterPass(f);
        } else {
          Loss(f);
        }
      }
    }

    lemma CleanAsTheyAre()
      requires Valid()
      ensures NamesNoMore(kernels, kernels)
    {
      forall f | 0 <= f < |families|
        ensures NamesLess(kernels[f], kernels[f])
      {
        assert FamilyFine(registries[f], kernels[f], families[f], linked);
      }
    }

    // ---- Rules ----

    method SetRegistry(f: nat, m: Model)
      requires Sane() && f < |families| && RegistryFine(m, families[f], linked) && Grows(registries[f], m)
      modifies this`registries
      ensures Sane() && registries == old(registries)[f := m]
    {
      assert FamilyFine(registries[f], kernels[f], families[f], linked);
      KernelFineGrows(kernels[f], registries[f], m, families[f]);
      registries := registries[f := m];
    }

    lemma RuledWhenCleared(before: seq<Model>, f: nat, i: nat, some: set<nat>, inOrder: set<nat>)
      requires GoodFamilies(families, groups) && |before| == |families| && f < |families| && i < groups && i !in some
      requires Ruled(before, some, inOrder)
      ensures var p := families[f].places[i];
              Ruled(before[f := ClearedAt(before[f], p.chain, Joints(p))], some, inOrder)
    {
      forall j | 0 <= j < groups && j in some
        ensures var p := families[f].places[i];
                HasRules(ClearedAt(before[f], p.chain, Joints(p)), families[f].places[j], families[f].bypass,
                         j in inOrder)
      {
        OthersKeepRules(before[f], families[f].places[i], Mode(families[f].bypass, 0, false), families[f].places[j],
                        families[f].bypass, j in inOrder);
      }
    }

    lemma RuledWhenPlaced(before: seq<Model>, f: nat, i: nat, mode: Mode, some: set<nat>, inOrder: set<nat>)
      requires GoodFamilies(families, groups) && |before| == |families| && f < |families| && i < groups && i !in some
      requires Ruled(before, some, inOrder) && mode.bypass == families[f].bypass && Hooked(before[f])
      ensures var p := families[f].places[i];
              var m := PlacedAt(before[f], p, mode, Joints(p));
              Ruled(before[f := m], some, inOrder) && HasRules(m, p, mode.bypass, mode.byOrder)
    {
      PlacingGivesRules(before[f], families[f].places[i], mode);
      forall j | 0 <= j < groups && j in some
        ensures var p := families[f].places[i];
                HasRules(PlacedAt(before[f], p, mode, Joints(p)), families[f].places[j], families[f].bypass,
                         j in inOrder)
      {
        OthersKeepRules(before[f], families[f].places[i], mode, families[f].places[j], families[f].bypass,
                        j in inOrder);
      }
    }

    lemma RuledWithPreamble(before: seq<Model>, f: nat, some: set<nat>, inOrder: set<nat>)
      requires GoodFamilies(families, groups) && |before| == |families| && f < |families|
               && Ruled(before, some, inOrder)
      ensures Ruled(before[f := PreamblePlaced(before[f], families[f].bypass)], some, inOrder)
      ensures Ruled(before[f := PreambleCleared(before[f])], some, inOrder)
    {
      forall j | 0 <= j < groups && j in some
        ensures HasRules(PreamblePlaced(before[f], families[f].bypass), families[f].places[j], families[f].bypass,
                         j in inOrder)
        ensures HasRules(PreambleCleared(before[f]), families[f].places[j], families[f].bypass, j in inOrder)
      {
        PreambleKeepsRules(before[f], families[f].places[j], families[f].bypass, families[f].bypass, j in inOrder);
      }
    }

    /** In order but for the rules of one group. */
    ghost predicate ValidBut(i: nat)
      reads this
    {
      Sane() && Ruled(registries, linked - {i}, inOrder) && PreambleFor(registries, NeedPreamble(linked))
    }

    /** Registers the group's chains for deletion and takes its jumps out. */
    method ClearRules(i: nat)
      requires ValidBut(i) && i < groups
      modifies this`registries
      ensures ValidBut(i) && (i !in linked ==> Valid())
      ensures forall f | 0 <= f < |families| :: RegistryFine(registries[f], families[f], linked - {i})
    {
      for f := 0 to |families|
        invariant ValidBut(i)
        invariant forall e | 0 <= e < f :: RegistryFine(registries[e], families[e], linked - {i})
      {
        ClearNext(f, i);
      }
      assert i !in linked ==> linked - {i} == linked;
    }

    method ClearNext(f: nat, i: nat)
      requires ValidBut(i) && f < |families| && i < groups
      modifies this`registries
      ensures ValidBut(i) && RegistryFine(registries[f], families[f], linked - {i})
      ensures registries == old(registries)[f := registries[f]]
    {
      RuledWhenCleared(registries, f, i, linked - {i}, inOrder);
      PreambleStays(registries[f], families[f].places[i], Mode(families[f].bypass, 0, false), families[f].bypass,
                    NeedPreamble(linked));
      var cleared := ClearIn(f, i);
      SetRegistry(f, cleared);
    }

    /** One family's registry without the group's rules. */
    method ClearIn(f: nat, i: nat) returns (cleared: Model)
      requires Sane() && f < |families| && i < groups
      ensures var p := families[f].places[i]; cleared == ClearedAt(registries[f], p.chain, Joints(p))
      ensures RegistryFine(cleared, families[f], linked) && RegistryFine(cleared, families[f], linked - {i})
      ensures Grows(registries[f], cleared)
    {
      var p := families[f].places[i];
      assert FamilyFine(registries[f], kernels[f], families[f], linked);
      ClearingTakesDown(registries[f], families[f].places, linked, i);
      ClearingGrows(registries[f], p.chain, Joints(p));
      cleared := ClearedAt(registries[f], p.chain, Joints(p));
      SoundWithMore(cleared, families[f].places, linked - {i}, linked);
      ClearingKeepsFine(registries[f], families[f].places, families[f].bypass, i, Joints(p));
    }

    /** Registers the preamble or takes it out, in every family. */
    method MovePreamble(install: bool, ghost some: set<nat>)
      requires Sane() && Ruled(registries, some, inOrder)
      modifies this`registries
      ensures Sane() && Ruled(registries, some, inOrder) && PreambleFor(registries, install)
    {
      for f := 0 to |families|
        invariant Sane() && Ruled(registries, some, inOrder)
        invariant forall e | 0 <= e < f :: PreambleIs(registries[e], families[e].bypass, install)
      {
        RuledWithPreamble(registries, f, some, inOrder);
        MovePreambleIn(f, install);
      }
    }

    method MovePreambleIn(f: nat, install: bool)
      requires Sane() && f < |families|
      modifies this`registries
      ensures Sane()
      ensures registries == old(registries)[f := if install then PreamblePlaced(old(registries[f]), families[f].bypass)
                                                 else PreambleCleared(old(registries[f]))]
      ensures PreambleIs(registries[f], families[f].bypass, install)
    {
      var bypass := families[f].bypass;
      assert FamilyFine(registries[f], kernels[f], families[f], linked);
      PreambleKeepsSound(registries[f], families[f].places, linked, bypass);
      PreambleKeepsFine(registries[f], families[f].places, bypass);
      PreambleGrows(registries[f], bypass);
      PreambleMoves(registries[f], bypass);
      SetRegistry(f, if install then PreamblePlaced(registries[f], bypass) else PreambleCleared(registries[f]));
    }

    /** The group's link is disabled; the last interface group takes the preamble along. */
    method UnlinkGroup(i: nat)
      requires ValidBut(i) && i < groups
      modifies this`registries, this`linked
      ensures Valid() && linked == old(linked) - {i}
    {
      ClearRules(i);
      DropLink(i);
      if UsesPreamble(i) && !NeedPreamble(linked) {
        MovePreamble(false, linked);
      }
    }

    method DropLink(i: nat)
      requires ValidBut(i) && i < groups
      requires forall f | 0 <= f < |families| :: RegistryFine(registries[f], families[f], linked - {i})
      modifies this`linked
      ensures linked == old(linked) - {i} && Sane() && Ruled(registries, linked, inOrder)
      ensures NeedPreamble(linked) || !UsesPreamble(i) ==> PreambleFor(registries, NeedPreamble(linked))
    {
      ghost var before := linked;
      linked := linked - {i};
      assert forall f | 0 <= f < |families| :: FamilyFine(registries[f], kernels[f], families[f], before);
      assert NeedPreamble(linked) || !UsesPreamble(i) ==> NeedPreamble(linked) == NeedPreamble(before);
    }

    method PlaceRules(i: nat, mark: nat, byOrder: bool) returns (ok: bool)
      requires ValidBut(i) && i in linked && (i in inOrder <==> byOrder)
      modifies this`registries
      ensures ValidBut(i) && (ok ==> Valid())
      ensures !mayFail ==> ok
    {
      for f := 0 to |families|
        invariant ValidBut(i)
        invariant forall e | 0 <= e < f :: HasRules(registries[e], families[e].places[i], families[e].bypass, byOrder)
      {
        ok := Succeeds();
        if !ok {
          return;
        }
        PlaceNext(f, i, Mode(families[f].bypass, mark, byOrder));
      }
      assert forall j | j in linked && j != i :: j in linked - {i};
      ok := true;
    }

    method PlaceNext(f: nat, i: nat, mode: Mode)
      requires ValidBut(i) && f < |families| && i in linked && mode.bypass == families[f].bypass
      modifies this`registries
      ensures ValidBut(i) && registries == old(registries)[f := registries[f]]
      ensures HasRules(registries[f], families[f].places[i], families[f].bypass, mode.byOrder)
    {
      assert FamilyFine(registries[f], kernels[f], families[f], linked);
      RuledWhenPlaced(registries, f, i, mode, linked - {i}, inOrder);
      PreambleStays(registries[f], families[f].places[i], mode, families[f].bypass, NeedPreamble(linked));
      var placed := PlaceIn(f, i, mode);
      SetRegistry(f, placed);
    }

    /** One family's registry with the group's rules. */
    method PlaceIn(f: nat, i: nat, mode: Mode) returns (placed: Model)
      requires Sane() && f < |families| && i in linked && mode.bypass == families[f].bypass
      ensures var p := families[f].places[i]; placed == PlacedAt(registries[f], p, mode, Joints(p))
      ensures RegistryFine(placed, families[f], linked) && Grows(registries[f], placed)
    {
      var p := families[f].places[i];
      assert FamilyFine(registries[f], kernels[f], families[f], linked);
      JointsAreGood(p);
      PlacingKeepsSound(registries[f], families[f].places, linked, mode, i, Joints(p));
      PlacingKeepsFine(registries[f], families[f].places, i, mode, Joints(p));
      PlacingGrows(registries[f], p, mode, Joints(p));
      placed := PlacedAt(registries[f], p, mode, Joints(p));
    }

    /** Enables the group's link in the given mode. The first interface group brings the
        preamble; routes and marks can fail, and then everything is taken out again. */
    method LinkGroup(i: nat, byOrder: bool) returns (ok: bool)
      requires Valid() && i < groups
      modifies this`registries, this`linked, this`inOrder
      ensures Valid() && linked == if ok then old(linked) + {i} else old(linked) - {i}
      ensures inOrder == if byOrder then old(inOrder) + {i} else old(inOrder) - {i}
      ensures !mayFail ==> ok
    {
      EnableLink(i, byOrder);
      if UsesPreamble(i) && !NeedPreamble(linked - {i}) {
        MovePreamble(true, linked - {i});
      }
      assert NeedPreamble(linked) <==> UsesPreamble(i) || NeedPreamble(linked - {i});
      ok := Succeeds();
      if ok {
        var mark: nat := *;
        ok := PlaceRules(i, mark, byOrder);
      }
      if !ok {
        UnlinkGroup(i);
      }
    }

    method EnableLink(i: nat, ghost byOrder: bool)
      requires Valid() && i < groups
      modifies this`linked, this`inOrder
      ensures Sane() && linked == old(linked) + {i} && Ruled(registries, linked - {i}, inOrder)
      ensures PreambleFor(registries, old(NeedPreamble(linked)))
      ensures inOrder == if byOrder then old(inOrder) + {i} else old(inOrder) - {i}
    {
      ghost var before := linked;
      linked := linked + {i};
      inOrder := if byOrder then inOrder + {i} else inOrder - {i};
      forall f | 0 <= f < |families|
        ensures FamilyFine(registries[f], kernels[f], families[f], linked)
      {
        assert FamilyFine(registries[f], kernels[f], families[f], before);
        SoundWithMore(registries[f], families[f].places, before, linked);
      }
      assert forall j | j in linked - {i} :: j in before && (j in inOrder <==> j in old(inOrder));
    }

    // ---- Commits ----

    /** One family's commit: all of it, or some of its tables. */
    method CommitFamily(f: nat) returns (ok: bool)
      requires Valid() && f < |families| && linked <= named
      modifies this`kernels, this`committed
      ensures Valid() && |kernels| == old(|kernels|)
      ensures forall e | 0 <= e < |families| && e != f :: kernels[e] == old(kernels[e])
      ensures ok ==> kernels[f] == AfterKernel(registries[f], old(kernels[f]))
      ensures committed == old(committed)[f := if ok then Some(Recorded(registries[f], kernels[f])) else None]
      ensures ok ==> OthersFree(kernels[f], families[f].places, linked)
      ensures ok ==> LeftIn(committed[f], registries[f], families[f], linked, NeedPreamble(linked))
      ensures !mayFail ==> ok
    {
      assert FamilyFine(registries[f], kernels[f], families[f], linked);
      ghost var visited: set<string> := *;
      CommitKeepsKernel(registries[f], kernels[f], families[f], linked, visited);
      CommitFrees(registries[f], kernels[f], families[f], linked, named, visited);
      assert named + linked == named;
      CommitCarriesLinked(f, kernels[f]);
      ok := Succeeds();
      SetKernel(f, if ok then AfterKernel(registries[f], kernels[f]) else Partly(visited, registries[f], kernels[f]));
      committed := committed[f := if ok then Some(Recorded(registries[f], kernels[f])) else None];
    }

    lemma CommitCarriesLinked(f: nat, k: Kernel)
      requires Valid() && f < |families| && CleanKernel(k)
      ensures forall i | i in linked ::
                Carries(AfterKernel(registries[f], k), families[f].places[i], families[f].bypass)
      ensures NeedPreamble(linked) ==> PreambleInKernel(AfterKernel(registries[f], k), families[f].bypass)
    {
      assert FamilyFine(registries[f], kernels[f], families[f], linked);
      if NeedPreamble(linked) {
        PreambleReachesKernel(k, registries[f], families[f].bypass);
      }
      forall i | i in linked
        ensures Carries(AfterKernel(registries[f], k), families[f].places[i], families[f].bypass)
      {
        CommitCarries(k, registries[f], families[f].places[i], families[f].bypass, i in inOrder);
      }
    }

    /** The first families are through. */
    ghost predicate ThroughTo(n: nat)
      requires Sane() && n <= |families|
      reads this
    {
      forall f | 0 <= f < n ::
        Through(committed[f], registries[f], kernels[f], families[f], linked, NeedPreamble(linked))
    }

    ghost method LoseSome(n: nat)
      requires Valid() && Rests() && n <= |families|
      modifies this`kernels, this`named
      ensures Valid() && named == old(named) && (old(ThroughTo(n)) ==> ThroughTo(n))
    {
      ghost var before := kernels;
      Interfere();
      forall e | 0 <= e < n && OthersFree(before[e], families[e].places, linked)
        ensures OthersFree(kernels[e], families[e].places, linked)
      {
        LossKeepsFree(kernels[e], before[e], families[e].places, linked);
      }
    }

    /** The firmware goes first. */
    method CommitNext(f: nat) returns (ok: bool)
      requires Valid() && Rests() && f < |families| && linked <= named
      modifies this`kernels, this`named, this`committed
      ensures Valid() && named == old(named) && (!mayFail ==> ok)
      ensures ok && old(ThroughTo(f)) ==> ThroughTo(f + 1)
    {
      LoseSome(f);
      ok := CommitFamily(f);
    }

    /** The end of a batch: the families are committed one by one, each whatever became of
        the others. If all succeed, each family's commit left the kernel the linked groups'
        chains and jumps, and only groups that have rules are named. */
    method CommitAll() returns (ok: bool)
      requires Valid() && Rests()
      modifies this`kernels, this`named, this`committed, this`missed
      ensures Valid() && missed == (old(missed) || !ok)
      ensures ok ==> InKernel()
      ensures named == if ok then linked else old(named) + linked
      ensures !mayFail ==> ok
    {
      ok := CommitFamilies();
      missed := missed || !ok;
      if ok {
        OnlyLinkedAreNamed();
      }
    }

    method CommitFamilies() returns (ok: bool)
      requires Valid() && Rests()
      modifies this`kernels, this`named, this`committed
      ensures Valid() && named == old(named) + linked && (!mayFail ==> ok)
      ensures ok ==> ThroughTo(|families|)
    {
      ok := true;
      ExpectLinked();
      for f := 0 to |families|
        invariant Valid() && Rests() && named == old(named) + linked && (!mayFail ==> ok)
        invariant ok ==> ThroughTo(f)
      {
        var committed := CommitNext(f);
        ok := ok && committed;
      }
    }

    ghost method OnlyLinkedAreNamed()
      requires Valid() && ThroughTo(|families|)
      modifies this`named
      ensures Valid() && InKernel() && named == linked
    {
      named := linked;
    }

    /** No commit, at whatever moment and in whatever order it visits the registry, sends the
        kernel a command it refuses, or leaves on its way a jump to a missing chain. */
    lemma KernelAcceptsCommit(f: nat, v: Visit)
      requires Valid() && f < |families| && v.Covers(registries[f])
      ensures RefSafety.StrictAccepts(Cursor(kernels[f], ""), CommitScript(v, registries[f], kernels[f]),
                                      families[f].users)
      ensures forall n: nat | n <= |CommitScript(v, registries[f], kernels[f])| ::
                var ran := RunOps(Cursor(kernels[f], ""), CommitScript(v, registries[f], kernels[f])[..n]);
                ran.ok && RefSafety.KernelRefSafe(ran.at.kernel, families[f].users)
    {
      assert FamilyFine(registries[f], kernels[f], families[f], linked);
      CommitKeepsKernel(registries[f], kernels[f], families[f], linked, {});
      RefSafety.CommitIsRefSafe(v, registries[f], kernels[f], families[f].users);
    }

    // ---- Sets ----

    /** Tells the kernel to destroy the group's sets; it can refuse, as when a rule names one. */
    method DestroyOwned(i: nat) returns (ok: bool)
      requires Valid() && i < groups
      modifies this`kernels, this`named, this`busy, this`made, this`live, this`stock
      ensures Valid() && (old(InKernel()) ==> InKernel())
      ensures busy == (old(busy) || !Free(i))
      ensures Rests() ==> named == old(named) && (i !in named ==> busy == old(busy))
      ensures made == old(made) && live == old(live)
      ensures stock == old(stock)[i := if ok then Absent else stock[i]]
      ensures !mayFail ==> ok
    {
      Interfere();
      ok := Succeeds();
      NoteDestroy(i);
      NoteSets(made, live, stock[i := if ok || stock[i].Absent? then Absent else Unsure]);
    }

    method CreateOwned(i: nat) returns (ok: bool)
      requires Valid() && i < groups
      modifies this`made, this`live, this`stock
      ensures Valid() && made == old(made) && live == old(live)
      ensures stock == old(stock)[i := if ok then Present else Unsure]
      ensures !mayFail ==> ok
    {
      ok := Succeeds();
      NoteSets(made, live, stock[i := if ok then Present else Unsure]);
    }

    method NoteSets(made: set<nat>, live: set<nat>, ghost stock: seq<Stock>)
      requires Valid() && live <= made && |stock| == groups
      modifies this`made, this`live, this`stock
      ensures Valid() && this.made == made && this.live == live && this.stock == stock
      ensures old(InKernel()) ==> InKernel()
    {
      this.made, this.live, this.stock := made, live, stock;
    }

    /** Records whether a rule names a set of the group that is being destroyed. */
    ghost method NoteDestroy(i: nat)
      requires Valid() && i < groups
      modifies this`busy
      ensures Valid() && busy == (old(busy) || !Free(i)) && (i !in named ==> busy == old(busy))
    {
      NamedIfNotFree(i);
      busy := busy || !Free(i);
    }

    lemma NamedIfNotFree(i: nat)
      requires Valid() && i < groups
      ensures !Free(i) ==> i in named
    {
      forall f | 0 <= f < |families| && i !in named
        ensures FreeIn(kernels[f], families[f].places[i])
      {
        assert OthersFree(kernels[f], families[f].places, named);
      }
    }

    lemma NothingIsNamed()
      requires Valid() && named == {}
      ensures AllFree()
    {
      forall i | 0 <= i < groups
        ensures Free(i)
      {
        NamedIfNotFree(i);
      }
    }

    /** Sets of an earlier run go first. Only a group that made all its sets holds them. */
    method MakeSets(i: nat) returns (ok: bool)
      requires Valid() && i < groups
      modifies this`kernels, this`named, this`busy, this`made, this`live, this`stock
      ensures Valid()
      ensures ok ==> i in live && made == old(made) + {i} && live == old(live) + {i}
      ensures !ok ==> made == old(made) && live == old(live)
      ensures stock == old(stock)[i := if ok then Present else stock[i]]
      ensures Rests() ==> named == old(named) && (i !in named ==> busy == old(busy))
      ensures !mayFail ==> ok
    {
      ok := RenewOwned(i);
      if ok {
        NoteSets(made + {i}, live + {i}, stock);
      } else {
        var _ := DestroyOwned(i);
      }
    }

    method RenewOwned(i: nat) returns (ok: bool)
      requires Valid() && i < groups
      modifies this`kernels, this`named, this`busy, this`made, this`live, this`stock
      ensures Valid() && made == old(made) && live == old(live)
      ensures stock == old(stock)[i := if ok then Present else stock[i]]
      ensures Rests() ==> named == old(named) && (i !in named ==> busy == old(busy))
      ensures !mayFail ==> ok
    {
      ok := DestroyOwned(i);
      if ok {
        ok := CreateOwned(i);
      }
    }

    /** A group without sets has nothing to do, nor has one that tried before; success means
        that the sets of one that made them are gone. */
    method DestroySets(i: nat) returns (ok: bool)
      requires Valid() && i < groups
      modifies this`kernels, this`named, this`busy, this`made, this`live, this`stock
      ensures Valid()
      ensures live == old(live) - {i} && made == if ok then old(made) - {i} else old(made)
      ensures stock == old(stock)[i := if ok && i in old(live) then Absent else stock[i]]
      ensures i !in old(live) ==> ok && stock == old(stock)
      ensures Rests() ==> named == old(named) && (i !in named ==> busy == old(busy))
      ensures !mayFail ==> ok
    {
      ok := true;
      if i in live {
        ok := DestroyOwned(i);
      }
      NoteSets(if ok then made - {i} else made, live - {i}, stock);
    }
  }
}

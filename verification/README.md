# MagiTrickle: routing state, modelled and proved

MagiTrickle is a router daemon. It keeps firewall rules, kernel address sets and DNS data in
agreement with a rule model while the firmware and other programs rewrite the same state. This
project models the parts where that agreement is decided and proves what they promise.

- **iptables reconciler** (`Text`, `Netfilter`, `Chains`, `Convergence`, `Reconciler`, `RefSafety`,
  `ScriptText`, `IPTables`). The kernel tables are read as text, three kinds of chain are compiled
  into a prioritised script, and the script is applied. `Netfilter` is the kernel: what each script
  command does to a table. `Chains` and `IPTables` are the program's classes, `ScriptText` the
  printer and the two parsers. One commit leads from any kernel state to `Reconciler.AfterKernel`,
  whatever order the maps are visited in.
- **Committer worker** (`Committer`). One worker, two channels, a mode, a latch and a timer, as
  interleaved steps; the properties hold over all runs.
- **Records cache** (`RecordsCache`, `Persist`). The alias graph, its reverse index, the search, the
  lookup that survives cycles, and the filtered snapshot.
- **Domain arbitration** (`Trie`, `DomainSearch`). The label trie against a flat rule list.
- **Address sets** (`Ttl`, `TimedSets`, `GroupSets`, `GroupRuns`, `ClientBypass`). Timed sets brought
  to a wanted content, lifetimes in wrapping arithmetic, whole lives of a group's sets, and shadow
  sets swapped in with rollback.
- **Packets** (`Packets`, `Traversal`, `Destinations`, `Delivery`, `Forwarding`). The groups' rules read
  token by token, as the kernel would, and what they do to a packet: chain by chain, then along the
  jumps of PREROUTING in the mangle and the nat table, and at last from the registry calls of a
  bring-up over its commit to the packet, beside the answer of the lookup page.
- **Routing lifecycle** (`Preamble`, `Arbitration`, `Teardown`, `GroupRules`, `GroupRegistry`,
  `GroupJumps`, `Firewalls`, `Lifecycle`). The counted preamble, which group's chain takes a packet,
  and the two-phase teardown: the rules each group registers, which sets they name, where the jumps to
  them stand, what of all this a commit leaves in the kernel, and the transactions above that.
  `GroupRegistry` has the calls on the registry object and what each does to its model; `Firewalls`
  keeps these models and the kernels of all families, with commits that fail half-way, a firmware that
  takes rules out at any time and a committer that commits, or is cut off, at any time unless it is
  paused or stopped.
- **Conflicts** (`IntervalTree`, `Words`, `Conflicts`). The augmented search tree against plain
  filtering, network ranges from their bit operations, and the search for overlapping subnet rules.

In `Firewalls`, `Lifecycle`, `Preamble`, `ClientBypass`, `TimedSets` and `GroupRuns` every step that can
fail in the program may fail at any time, so their contracts hold for every pattern of failures. Where
`mayFail` is off no step fails for reasons outside the program, and then the operations are proved to
succeed. The kernel of `IPTables` fails only on what it cannot carry out. Go map iteration is an
arbitrary choice of the next key. Clocks, the glob and regex matchers and the address parsers are
parameters.

`dafny verify dfyconfig.toml` checks the whole project.

## What turned out to need a condition

- The duplicate counter of a patch chain is 8 bits wide: a rule settles at its wanted count exactly
  if there were fewer than 256 copies (`Convergence.SettledIffFewerThan256`); the exact count is proved
  for every number of copies.
- The worker's guarantee about pauses is relative to the moment the command is received. Relative to
  the acknowledgement it is false (`Committer.RequestDuringAckSurvives` is a run): an older request can
  still begin a pass exactly if one was queued between the drain and the acknowledgement and the
  context is alive (`Committer.OldPassAfterAckIff`).
- The lookup page names the group a packet goes to by its set hits alone. For UDP that is the truth. For
  TCP it is exactly unless an interface group is named while a proxied group comes first among the
  direct and the proxied ones: its redirection in the nat table overrules the mark
  (`Destinations.TcpGoesWhereNamedIff`, `Destinations.RedirectionOverrulesMark`), although a comment in
  `ipset-to-link.go` (lines 172-174) takes the first match to win there as well.
- A set may be destroyed while a kernel rule names it, which the kernel refuses, only after some commit
  failed (`Lifecycle.App.Valid`, `Lifecycle.App.DownIsUnnamed`): teardown goes on to the sets even then.
- Once shutdown has begun, switching on is refused, for nobody would take the rules out again. The switch
  of the direct-group priority does not ask: it brings routing up again exactly if the user wants routing
  and the mode is valid, unless a step fails (`Lifecycle.App.SwitchAfterShutdown`).
- A saved deadline is cut to seconds and must lie after the instant of loading: exactly the deadlines
  of `Persist.SafeDeadline` survive (`Persist.SurvivesIffSafe`, `Persist.UnsafeDeadlineIsNoticed`).
- `sync` keeps all it wants, whatever was in the set, exactly if the wanted keys are closed under the
  kernel's naming (`TimedSets.SyncKeepsWantedIff`); the program's keys are (`GroupSets.DesiredIsCanonical`).
- An address set stores a client network as given exactly if its prefix is not 0
  (`ClientBypass.StoredAsGivenIff`): unlike subnet rules, a client network of prefix 0 is not split.
- `getIPv6Range` gives the network's range exactly if the prefix is not 0
  (`Conflicts.IPv6RangeIsNetworkIff`).
- The conflict search reports each overlapping pair once, whatever the networks, exactly if no two pairs
  of rules share a key (`Conflicts.SearchIsCompleteIff`); the ids the program makes are hexadecimal, and
  then none do (`Conflicts.HexIdsTellPairs`).
- The guard against clobbering permanent entries is for single addresses; for wider networks it would
  not hold (`GroupRuns.AddKeepsIff`).

## Model

| member | source | states |
|---|---|---|
| Netfilter.RunTableByChain | src/backend/utils/iptables/executable-fake.go:190-294 | What a list of commands does to one chain depends only on the commands for that chain, so commands on different chains commute |
| Netfilter.RunTableIfChainsRun | src/backend/utils/iptables/executable-fake.go:190-294 | A list of commands runs on a table if each chain's share of it runs on that chain |
| Chains.KeyIsInjective | src/backend/utils/iptables/rules.go:12-15 | On rules of tokens, the text under which existing rules are counted tells rules apart |
| Chains.ChainPatch.AddRule | src/backend/utils/iptables/chain-patch.go:21-38 | In-place compaction: afterwards the list is the old one without the rule, then the new entry; no rule is listed twice |
| Chains.ChainPatch.CountExisting | src/backend/utils/iptables/chain-patch.go:44-49 | Each key's counter is its number of occurrences modulo 256 |
| Chains.ChainPatch.Compile | src/backend/utils/iptables/chain-patch.go:40-81 | The loops emit the commands of the specification `CompilePatch`, priority 0 |
| Chains.ChainOverride.Compile | src/backend/utils/iptables/chain-override.go:13-36 | Nothing if the chain equals the model, else flush and re-append, priority -128 |
| Chains.ChainOverride.InsertRule | src/backend/utils/iptables/chain-override.go:46-58 | The rule is inserted at the position, the later ones shifted; a position outside the list changes nothing |
| Chains.ChainOverride.DeleteRule | src/backend/utils/iptables/chain-override.go:60-73 | Exactly the first occurrence goes, the order of the rest stays |
| Convergence.OverrideConverges | src/backend/utils/iptables/chain-override.go:13-36 | From any state the plan runs and leaves exactly the model's rules |
| Convergence.DeleteConverges | src/backend/utils/iptables/chain-delete.go:7-17 | From any state the plan runs and leaves no chain |
| Convergence.PatchConverges | src/backend/utils/iptables/chain-patch.go:40-81 | The plan runs; foreign rules keep count and order, and each of our rules ends at its settled count, for any number of copies before |
| Convergence.SettledIffFewerThan256 | src/backend/utils/iptables/chain-patch.go:44-49 | The settled count is one (append, insert) or none (delete) exactly if fewer than 256 copies were there |
| Convergence.SecondCommitIsEmpty | src/backend/utils/iptables/chain-patch.go:40-81 | Compiling a chain again after its plan ran gives no commands, also past the counter's wrap-around |
| Convergence.PrefixAddsOnlyModelRules | src/backend/utils/iptables/iptables.go:329-368 | At every prefix of a plan each rule in the chain was there before or is one the model adds |
| Convergence.FreshPatchOrder | src/backend/utils/iptables/chain-patch.go:51-79 | On a chain with none of our rules the result is the inserts at 1 in reverse, the foreign rules, the appends in order |
| Reconciler.OnTableScript | src/backend/utils/iptables/iptables.go:285-370 | Whatever the visit of the chain map, a chain's share of the script is its own declaration and commands |
| Reconciler.TableConverges | src/backend/utils/iptables/iptables.go:285-370 | A table's section runs without failure and every chain ends as its own plan leaves it |
| Reconciler.CommitConverges | src/backend/utils/iptables/iptables.go:253-377 | From any kernel of tokens the script of a commit never fails and its outcome is one and the same for all visiting orders of tables and chains |
| Reconciler.AfterCommitHolds | src/backend/utils/iptables/iptables.go:253-377 | Afterwards override chains equal the model, deleted chains are absent, patch rules are settled, all other rules and chains are as before and in order |
| Reconciler.AfterKernelIsClean | src/backend/utils/iptables/iptables.go:253-377 | A commit keeps the kernel within what the next commit accepts |
| Reconciler.SecondCommitSendsNothing | src/backend/utils/iptables/iptables.go:372-374 | A second commit has an empty script, so the kernel is not called |
| RefSafety.CommitIsRefSafe | src/backend/utils/iptables/iptables.go:285-370 | A kernel that refuses jumps to missing chains and drops of used or non-empty chains accepts the whole script over all tables, and every prefix leaves all jump targets present |
| ScriptText.RestoreReadsScript | src/backend/utils/iptables/executable-fake.go:160-297 | The text a commit prints is parsed by `Restore` into exactly the compiled commands |
| ScriptText.ParseOfSaveIsIdentity | src/backend/utils/iptables/iptables.go:128-203 | Printing a kernel with `Save` and parsing it gives the same tables, chains (empty ones too) and rules, for any order of sections |
| ScriptText.ScriptPrintable | src/backend/utils/iptables/iptables.go:329-368 | Every command a model of tokens compiles to can be printed and read back |
| Text.SplitFields | src/backend/utils/iptables/iptables.go:205-224 | The one-pass splitter returns the maximal runs of non-blank characters |
| Text.FieldsOfJoin | src/backend/utils/iptables/iptables.go:205-224 | Splitting tokens joined by spaces returns the tokens |
| Text.AtoiItoa | src/backend/utils/iptables/iptables.go:348-352 | Reading a printed rule number returns it, negative numbers included |
| IPTables.FakeKernel.Save | src/backend/utils/iptables/executable-fake.go:113-158 | The text is a printed form of the kernel that parses back to the kernel |
| IPTables.FakeKernel.Restore | src/backend/utils/iptables/executable-fake.go:160-297 | Line by line, the tables become what the parsed text says; an error stops where it occurs |
| IPTables.IPTables.Append | src/backend/utils/iptables/iptables.go:91-100 | An error exactly for a chain never registered; otherwise that one chain's model changes |
| IPTables.IPTables.Insert | src/backend/utils/iptables/iptables.go:102-111 | As for Append, with a position |
| IPTables.IPTables.Delete | src/backend/utils/iptables/iptables.go:113-122 | As for Append, for removal |
| IPTables.IPTables.GetCurrentRules | src/backend/utils/iptables/iptables.go:128-203 | Reads back the kernel's rules |
| IPTables.IPTables.BuildScript | src/backend/utils/iptables/iptables.go:285-370 | The buffer is the print of the commit script of some visit; sections appear only for tables with something to do, commands in ascending priority |
| IPTables.IPTables.CommitContext | src/backend/utils/iptables/iptables.go:253-377 | On tokens a commit succeeds and the kernel becomes `AfterKernel`; the kernel is not called for nothing |
| IPTables.IPTables.Commit | src/backend/utils/iptables/iptables.go:239-248 | In batch mode nothing reaches the kernel, otherwise as CommitContext |
| Committer.RunInv | src/backend/netfilter_committer.go:140-221 | The worker's invariant holds after every interleaving |
| Committer.PassStemsFromLaterRequest | src/backend/netfilter_committer.go:154-219 | A pass begins only when ready, and goes back to a request sent after every pause received so far |
| Committer.ModeIsLastAcked | src/backend/netfilter_committer.go:154-180 | In every run the mode is that of the last acknowledged command of the step list, `Starting` if there is none |
| Committer.PassOnlyWhenLastAckedReady | src/backend/netfilter_committer.go:195-212 | In every run a pass begins only if the last acknowledged command was `Ready` |
| Committer.NoPassWhilePaused | src/backend/netfilter_committer.go:108-126 | From the acknowledgement of a pause on no pass begins until a later `Ready` is acknowledged |
| Committer.NoPassAfterCancel | src/backend/netfilter_committer.go:189-193 | Once the context was checked after a cancellation the worker has exited and begins no pass |
| Committer.PassesHaveCauses | src/backend/netfilter_committer.go:94-106 | In every run passes begun and triggers still pending are together at most the requests sent and the passes failed |
| Committer.NothingRunsAfterStop | src/backend/netfilter_committer.go:133-138 | Once stop has returned no worker step is possible at any later point |
| Committer.RequestDuringAckSurvives | src/backend/netfilter_committer.go:160-180 | A run in which a request sent before the acknowledgement of a pause starts a pass after resuming |
| Committer.OldPassAfterAckIff | src/backend/netfilter_committer.go:154-180 | In every run, at the acknowledgement of a pause, some continuation begins a pass that stems from an older request exactly if a request was queued since the drain and the context is not cancelled |
| Committer.RequestIsNeverLost | src/backend/netfilter_committer.go:97-106 | A request sent at any step of a run while starting or ready stays in the queue, the latch or the worker's hand until a pass begins, a pause is received or the worker is cancelled |
| Committer.FailedPassIsRetried | src/backend/netfilter_committer.go:212-219 | A failed pass at any step of a run arms a retry, which stays armed until a pass begins, a pause is received or the worker is cancelled |
| Committer.ArmedRunsWhenReady | src/backend/netfilter_committer.go:182-212 | Whatever is armed can begin a pass at once when ready |
| RecordsCache.Records.AddAliasLocked | src/backend/utils/recordsCache/records.go:52-69 | The alias map is updated and the reverse index stays exactly its inverse, self-aliases ignored |
| RecordsCache.Records.RemoveReverseAlias | src/backend/utils/recordsCache/records.go:71-86 | Swap-remove takes out exactly that name and no empty list is left |
| RecordsCache.Records.AddAddressLocked | src/backend/utils/recordsCache/records.go:100-113 | The record of a known address gets the new deadline in place, a new one is appended, all others are as they were; addresses stay distinct |
| RecordsCache.Records.GetAliases | src/backend/utils/recordsCache/records.go:116-140 | Terminates and returns, without repeats and the name first, exactly the names whose alias path reaches it, cycles included |
| RecordsCache.Records.GetAddresses | src/backend/utils/recordsCache/records.go:142-186 | Terminates, cycles included; the answer is the unexpired records, in order, of the first name with any on the path of unexpired aliases, or empty if no name on any such path has one |
| RecordsCache.AnswerComesFromReachable | src/backend/utils/recordsCache/records.go:142-186 | Whenever a name is answered with addresses stored under another, it reaches that other name, so GetAliases of that one lists it |
| RecordsCache.Records.CleanupRecords | src/backend/utils/recordsCache/records.go:211-244 | Exactly the expired records go, and names left without any; the rest keeps its order, and the index stays the inverse |
| RecordsCache.CleanupKeepsAnswers | src/backend/utils/recordsCache/records.go:211-244 | A cleanup changes no answer at that or any later time |
| Persist.ListKnownDomains | src/backend/utils/recordsCache/records.go:188-208 | Exactly the names with addresses or an alias, each once |
| Persist.SnapshotFiltered | src/backend/utils/recordsCache/persist.go:63-99 | The snapshot holds exactly the forward alias closure of the kept names, in spite of the early break |
| Persist.LoadSnapshot | src/backend/utils/recordsCache/persist.go:142-173 | On any cache: each address ends with its last saved record whose deadline lies after the instant of loading, or keeps its own if there is none; places stay, new addresses follow; aliases likewise |
| Persist.SurvivesIffSafe | src/backend/utils/recordsCache/persist.go:102-173 | A record is live after reloading exactly when it was before, at every later time, exactly if its deadline is safe |
| Persist.ReloadAnswers | src/backend/utils/recordsCache/persist.go:102-173 | At any time its records survive to, a reloaded cache gives for every saved name the same addresses, with their deadlines cut to seconds |
| Persist.SaveThenLoad | src/backend/utils/recordsCache/persist.go:63-173 | With safe deadlines a reloaded cache gives for every kept name the answer of the original, deadlines included, at every later time |
| Persist.UnsafeDeadlineIsNoticed | src/backend/utils/recordsCache/persist.go:102-173 | A single record with any other deadline is answered differently at some later time |
| Trie.Trie.Insert | src/backend/utils/trie/trie.go:43-71 | The first insertion into a slot stays; no other slot changes |
| Trie.Trie.SearchExplain | src/backend/utils/trie/trie.go:95-126 | The exact slot of the whole name, else the namespace slot of its longest label suffix that has one, else nothing |
| Trie.PathOfIsInjective | src/backend/utils/trie/trie.go:47-58 | A node stands for one list of labels |
| DomainSearch.NamespaceIsSuffix | src/backend/models/rule.go:66-76 | "Equal, or ends with a dot and the rule" is the same as having the rule's labels as a suffix, for all strings, empty labels included |
| DomainSearch.Arbiter.RebuildTrie | src/backend/app.go:151-194 | Trie and glob list are those of the active rules in routing order |
| DomainSearch.Arbiter.SearchDomainExplain | src/backend/app.go:210-253 | Over the enabled rules of running, enabled groups in routing order: the first rule that names the domain, else the first of the longest that cover it, else the first glob, else the first regex; stated on groups and rules and on the flat list |
| DomainSearch.FlatVerdictIsUnique | src/backend/app.go:210-253 | The flat rule list determines the verdict |
| DomainSearch.VerdictIsVerdict | src/backend/app.go:151-253 | The verdict on the flat list of active rules is the verdict read off the groups and their rules by position |
| Ttl.SaturatingAdd | src/backend/ttl.go:29-34 | The minimum of the true sum and the largest 32-bit number |
| Ttl.FromRecord | src/backend/ttl.go:48-57 | Never 0, never below the configured extra time, the plain sum for ordinary values, clamped otherwise |
| Ttl.FromDeadline | src/backend/ttl.go:64-77 | For every 64-bit duration the seconds left rounded up, at least 1, at most a week; nothing if expired |
| Ttl.WrappedDeadlineIsCapped | src/backend/ttl.go:69-75 | Where the sum wraps to a negative number the result is still the cap |
| TimedSets.SyncSet | src/backend/group.go:359-396 | If no call fails, a key is in the set afterwards exactly if a wanted key names it and it was not listed under an unwanted one; for canonical wishes the keys are the wanted ones, each with the later of both timeouts. Calls that fail are skipped: each key is then as before or as wanted. Nothing happens if the set cannot be listed; without failing steps it succeeds |
| TimedSets.SyncKeepsWantedIff | src/backend/group.go:359-396 | Nothing wanted is lost for any previous content exactly if the wanted keys are closed under the kernel's naming |
| TimedSets.PrefixZeroHostIsLost | src/backend/utils/netfilterTools/ipset.go:28-36 | A single address written with prefix 0 is deleted by the pass that adds it |
| TimedSets.SyncMirror | src/backend/utils/netfilterTools/ipset.go:257-298 | If no call fails the mirror's keys become exactly the permanent networks, new ones permanent; else each key is as before or as it should be, and nothing is removed from a mirror that cannot be listed |
| GroupSets.StaticSubnets | src/backend/group.go:501-587 | The loop computes the permanent networks of the enabled rules of the family |
| GroupSets.StaticsAreCanonical | src/backend/group.go:534-545 | Every permanent network is named as the kernel lists it, prefix 0 never occurs |
| GroupSets.StaticsCover | src/backend/group.go:501-587 | They cover exactly the addresses some enabled rule means, the two halves of everything included |
| GroupSets.DesiredSubnets | src/backend/group.go:446-494 | The nested loops compute the wanted content: permanent networks, and each live address of the family that DNS gives for a known name matched by an enabled rule that is no subnet rule, with its longest life |
| GroupSets.SightingsAre | src/backend/group.go:446-475 | An address is sighted exactly if some enabled rule that is no subnet rule matches a known name whose lookup gives it, of the family and not expired |
| GroupSets.DesiredIsWanted | src/backend/group.go:446-494 | The wanted content in terms of rules, names and lookups: permanent exactly the permanent networks, any other key the longest life DNS gives for it, and nothing else |
| GroupSets.DesiredIs | src/backend/group.go:446-494 | A wanted key is permanent exactly if it is a permanent network; any other has the longest life among its sightings; nothing seen is left out |
| GroupSets.DesiredIsCanonical | src/backend/group.go:477-486 | All wanted keys are canonical and carry a sendable timeout |
| GroupRuns.FamilySets.AddSubnet | src/backend/group.go:66-86 | An answer for a permanent single address changes nothing, any other is added or replaced |
| GroupRuns.AnswerIsAdded | src/backend/group.go:66-86 | After an answer its key has its timeout and nothing else changed, unless a permanent single address would lose its permanence: then nothing changed |
| GroupRuns.FamilySets.UpdateHosts | src/backend/group.go:594-608 | The cache holds the addresses of the permanent single-address networks |
| GroupRuns.FamilySets.Sync | src/backend/group.go:333-396 | If no call fails the main set has exactly what rules, names and lookups ask for, each entry for the later of both timeouts, the mirror the permanent networks, the cache the single addresses; otherwise each key of either set is as before or as it should be; without failing steps it succeeds |
| GroupRuns.FamilySets.Reassert | src/backend/group.go:617-649 | Success means every permanent network is permanent again, the rest of the set is as before, mirror and cache are up to date; on failure each key is as before or as it should be; without failing steps it succeeds |
| GroupRuns.RunKeepsStatics | src/backend/group.go:66-86 | Over every run of answers, syncs, reassertions, expiries and kernel refreshes from empty sets, whatever calls fail in the passes: nothing but permanent networks becomes permanent, and from the first pass on that reached them all each of them stays permanent |
| GroupRuns.AddKeepsIff | src/backend/group.go:77-83 | An added answer takes away a permanence exactly if it is for a permanent network wider than one address |
| ClientBypass.NormalizeSourceNetworks | src/backend/utils/netfilterTools/client-routing.go:30-82 | The loop, with its two parsers and the split by family, returns what `NormalizedAreFirst` and `RefusedIff` describe |
| ClientBypass.TrimIs | src/backend/utils/netfilterTools/client-routing.go:36 | Trimming takes away the blanks at both ends and nothing else |
| ClientBypass.RefusedIff | src/backend/utils/netfilterTools/client-routing.go:36-58 | The list is refused exactly if some text is not blank and cannot be parsed |
| ClientBypass.NormalizedAreFirst | src/backend/utils/netfilterTools/client-routing.go:30-82 | Every text that is not blank names one of the networks, and the networks stand in the order they are first named in, each once |
| ClientBypass.NormalizedTwice | src/backend/utils/netfilterTools/client-routing.go:27-29 | Normalising what was normalised changes nothing |
| ClientBypass.StoredAsGivenIff | src/backend/utils/netfilterTools/client-routing.go:114-128 | A network is stored as given exactly if its prefix is not 0 |
| ClientBypass.FilledIsListed | src/backend/utils/netfilterTools/client-routing.go:114-128 | A client address is in the filled set of its family exactly if some text of the list is its address or a network it lies in |
| ClientBypass.Helper.SetupClientBypass | src/backend/utils/netfilterTools/client-routing.go:157-194 | On success the active sets exist and in every family hold exactly the clients that some text lists; an unreadable list touches nothing; without failing steps a readable list is taken |
| ClientBypass.Helper.SwapAll | src/backend/utils/netfilterTools/client-routing.go:232-247 | Either all families are swapped, or, if every rollback swap succeeds, none; the active sets are whole at every moment; without failing steps it succeeds |
| ClientBypass.Helper.UpdateClientBypass | src/backend/utils/netfilterTools/client-routing.go:198-254 | Success means that in every family exactly the clients that some text lists are bypassed; all or nothing over the families for every failure whose rollback succeeds; at every moment each active set exists with its old or its new content; without failing steps a readable list is taken once the sets are there |
| ClientBypass.ClientRouting.SetClientRouting | src/backend/app.go:474-509 | Configuration and kernel sets both carry the new networks, and exactly the listed clients are bypassed, or both the old ones when putting them back succeeds; an error if the sets were never set up; without failing steps a readable list is taken once the sets are there |
| Preamble.Helper.AcquireInterfacePreamble | src/backend/utils/netfilterTools/netfiler-helper.go:82-101 | A reference is taken exactly on success; while there are references the preamble precedes every jump to a holder's chain in every family; without failing steps it succeeds |
| Preamble.Helper.ReleaseInterfacePreamble | src/backend/utils/netfilterTools/netfiler-helper.go:105-122 | One reference is given back; the preamble leads as long as any is left, and with the last one no jump to it stays registered |
| Preamble.IPSetToLink.Enable | src/backend/utils/netfilterTools/ipset-to-link.go:561-632 | Whatever fails, the references count the links that hold the preamble, and it leads while there are any; success means the link's jump is registered in every family in the place its mode asks for, failure that it holds nothing and nothing jumps to it; without failing steps it succeeds |
| Preamble.IPSetToLink.Disable | src/backend/utils/netfilterTools/ipset-to-link.go:634-650 | The same after disabling; the link holds nothing and nothing jumps to it |
| Preamble.IPSetToLink.ClearIfDisabled | src/backend/utils/netfilterTools/ipset-to-link.go:659-673 | A disabled link's jumps are taken out and nothing else is disturbed |
| Preamble.LedKept | src/backend/utils/netfilterTools/netfiler-helper.go:151-160 | Registering any other rule keeps the preamble ahead |
| Preamble.LedFresh | src/backend/utils/netfilterTools/netfiler-helper.go:151-160 | A preamble appended before a group's jump is ahead of it |
| Teardown.ReferencedAfter | src/backend/app.go:625-646 | Which chains name a set after a successful commit |
| Teardown.SetIsFreeIff | src/backend/app.go:625-646 | After a successful commit no kernel rule names a set exactly if no registered chain does and all rules that did were in chains of ours |
| Teardown.PartlyByChain | src/backend/utils/netfilterTools/netfiler-helper.go:224-236 | A commit cut off after some tables leaves each chain as after the whole commit or as before it |
| GroupRules.RulesAreOwn | src/backend/utils/netfilterTools/ipset-to-link.go:84-221 | In every table and for every route the rules of a group's chain name no set but the group's own and its mirror |
| GroupRules.MangleNamesSet | src/backend/utils/netfilterTools/ipset-to-tproxy.go:95-162 | In the mangle table one of them names the group's set |
| Packets.GuardLetsOthersIn | src/backend/utils/netfilterTools/client-routing.go:92-100 | A packet of a client in the bypass set leaves the chain at once, any other comes to its rules |
| Packets.DirectChain | src/backend/utils/netfilterTools/ipset-to-link.go:72-128 | In either table a direct group ends the traversal for what its set lists and leaves the packet as it is |
| Packets.LinkMangleChain | src/backend/utils/netfilterTools/ipset-to-link.go:169-184 | In the mangle table a listed packet gets the group's mark, its connection too, and the traversal ends |
| Packets.LinkFilterChain | src/backend/utils/netfilterTools/ipset-to-link.go:133-150 | In the filter table a listed packet is accepted exactly if it leaves through the group's interface, never for a black hole |
| Packets.LinkNatChain | src/backend/utils/netfilterTools/ipset-to-link.go:194-209 | In the nat table a listed packet is masqueraded |
| Packets.ProxyNatChain | src/backend/utils/netfilterTools/ipset-to-tproxy.go:62-81 | In the nat table exactly listed TCP is redirected to the proxy's port |
| Packets.ProxyMangleChain | src/backend/utils/netfilterTools/ipset-to-tproxy.go:91-162 | In the mangle table listed UDP gets the proxy's mark and goes to its port, or to a waiting socket; a new connection outside the static networks renews the entry; everything else goes on |
| Packets.OwnMaskAddsBits | src/backend/utils/netfilterTools/ipset-to-tproxy.go:60 | A value under its own mask is or-ed to the mark |
| Packets.PreambleChain | src/backend/utils/netfilterTools/netfiler-helper.go:124-150 | In the original direction the connection's mark is given back, and a marked packet leaves the table |
| Traversal.MangleByWinner | src/backend/utils/netfilterTools/ipset-to-link.go:169-174 | Along any list of jumps the first group whose rules take an undecided packet decides about it, nobody after it: what `Winner` and `TakerOf` assume |
| Traversal.NatByWinner | src/backend/utils/netfilterTools/ipset-to-link.go:80-82 | The same in the nat table, for direct and proxied groups |
| Traversal.WinnerIsPick | src/backend/utils/netfilterTools/ipset-to-link.go:42-53 | In the order a bring-up makes, the first group to take a packet is the pick by mode and order, in both tables |
| Destinations.UdpGoesWhereNamed | src/backend/api/v1/lookup.go:211-240 | New UDP traffic goes where the group named by the page sends it |
| Destinations.TcpGoesWhereNamedIff | src/backend/api/v1/lookup.go:211-240 | New TCP traffic does exactly unless the page names an interface group while, among the direct and the proxied groups that list the address, a proxied one comes first |
| Destinations.RedirectionOverrulesMark | src/backend/utils/netfilterTools/ipset-to-link.go:172-174 | A concrete case: the page names an interface group, the connection is redirected to the proxy |
| Destinations.MarkedConnectionStays | src/backend/utils/netfilterTools/netfiler-helper.go:151-158 | A packet of a marked connection keeps the mark unless a direct group in front, or a group before the first interface group, takes it |
| Destinations.ExemptGoesPlain | src/backend/utils/netfilterTools/client-routing.go:92-100 | No group touches a packet of an exempt client, in either table |
| Delivery.GroupList | src/backend/utils/netfilterTools/ipset-to-link.go:48-53 | What bringing a group up does to the two lists of jumps: an interface group hangs nothing under nat PREROUTING |
| Delivery.PreroutingAfterCommit | src/backend/utils/netfilterTools/ipset-to-link.go:98-130 | After the commit of a bring-up both PREROUTING chains are our inserts, the foreign rules, our appends, in the mode's order |
| Delivery.ChainsAfterCommit | src/backend/utils/netfilterTools/ipset-to-link.go:126-130 | And the groups' chains stand in the kernel rule for rule, the preamble if an interface group needs it |
| Delivery.CommitIsAccepted | src/backend/utils/iptables/iptables.go:253-377 | What the calls of a bring-up register is a registry a commit accepts |
| Delivery.UdpIsDelivered | src/backend/api/v1/lookup.go:211-240 | From the registry calls over the commit to the packet: after a bring-up beside any indifferent foreign rules new UDP traffic goes where the page says |
| Delivery.TcpIsDeliveredIff | src/backend/api/v1/lookup.go:211-240 | The same for TCP, under exactly the condition above |
| Delivery.UnlistedIsLeftAlone | src/backend/utils/netfilterTools/ipset-to-link.go:84-190 | Traffic to an address no group lists goes its own way |
| Delivery.ExemptIsLeftAlone | src/backend/utils/netfilterTools/client-routing.go:92-100 | So does all traffic of an exempt client |
| Forwarding.ForwardedIff | src/backend/utils/netfilterTools/ipset-to-link.go:133-155 | Once the kernel carries the groups, FORWARD accepts exactly what leaves through the interface of a group that lists the destination |
| Forwarding.MasqueradedIff | src/backend/utils/netfilterTools/ipset-to-link.go:194-214 | And POSTROUTING masquerades exactly what goes to an address such a group, or a black hole, lists |
| GroupRegistry.InsertIPTablesRules | src/backend/utils/netfilterTools/ipset-to-link.go:55-221 | The registry object gets exactly the group's chains, guarded, and the jumps to them; under a batch it succeeds and the kernel is untouched |
| GroupRegistry.DeleteIPTablesRules | src/backend/utils/netfilterTools/ipset-to-link.go:223-305 | Every chain of the group is registered for deletion and its jumps are taken out, whatever fails; under a batch the kernel is untouched |
| GroupRegistry.RemoveInterfacePreamble | src/backend/utils/netfilterTools/netfiler-helper.go:167-184 | The preamble's jump is taken out and its chain registered for deletion |
| GroupRegistry.PlacingKeepsSound | src/backend/utils/netfilterTools/ipset-to-tproxy.go:44-174 | Registering a group's chains keeps it true that a registered chain naming a group's set is that group's, and that patched chains name none |
| GroupRegistry.ClearingTakesDown | src/backend/utils/netfilterTools/ipset-to-tproxy.go:176-215 | Afterwards each of the group's chains is registered for deletion and no registered chain names its sets |
| GroupRegistry.PlacingGivesRules | src/backend/utils/netfilterTools/ipset-to-link.go:48-221 | Afterwards each of the group's chains holds its rules, and each built-in chain's list holds its jump: inserted at 1 for a direct group in the absolute mode, else appended |
| GroupRegistry.OthersKeepRules | src/backend/utils/netfilterTools/ipset-to-link.go:223-305 | Placing or clearing one group leaves every other group's chains, rules and jumps as they are |
| GroupRegistry.CommitKeepsTraced | src/backend/utils/netfilterTools/netfiler-helper.go:224-236 | Every kernel rule that names a group's set stays in a registered chain of that group, also when the commit is cut off after any of the tables |
| GroupRegistry.DownIsFree | src/backend/app.go:625-646 | After a commit no kernel rule, in any table or chain, names a set of a group whose rules were taken out |
| GroupRegistry.RulesReachKernel | src/backend/utils/netfilterTools/ipset-to-link.go:126-130 | After a commit the kernel carries the group's chains rule for rule, and the jumps to them |
| GroupRegistry.PreambleReachesKernel | src/backend/utils/netfilterTools/netfiler-helper.go:124-161 | And the preamble, if it is registered |
| GroupRegistry.PreambleStays | src/backend/utils/netfilterTools/netfiler-helper.go:82-122 | No group's calls touch the preamble's chain or jump |
| GroupRegistry.RulesUseSet | src/backend/group.go:253-257 | From then on a kernel rule names the group's set, so it cannot be destroyed before the rules are gone |
| GroupJumps.EditKeepsFine | src/backend/utils/netfilterTools/ipset-to-tproxy.go:62-89 | Registering a chain together with its jump, or taking both out together, keeps it true that every wanted jump leads to a registered chain and every chain to be deleted has its jump taken out |
| GroupJumps.CommitKeepsFine | src/backend/utils/netfilterTools/netfiler-helper.go:224-236 | After such a registry's commit, whole or cut off, a kernel rule that jumps to a chain of ours is that chain's jump in its built-in chain, while the chain is registered |
| GroupJumps.CommitIsSafe | src/backend/utils/iptables/iptables.go:306-370 | On such a kernel such a registry meets what `RefSafety.CommitIsRefSafe` asks |
| Firewalls.Firewall.KernelAcceptsCommit | src/backend/utils/netfilterTools/netfiler-helper.go:224-236 | In every state the groups' links, commits, cut-off commits and the firmware can lead to, a kernel that refuses jumps to missing chains and drops of used chains accepts the whole script of a commit, in any order of visits, and no prefix leaves a jump to a missing chain |
| Firewalls.Firewall.CommitAll | src/backend/utils/netfilterTools/netfiler-helper.go:224-236 | The families are committed one by one whatever fails; if all succeed, every family's commit was of the present registry and left the kernel the chains of all linked groups, rule for rule, their jumps, and the preamble if one of them needs it, and only groups that have rules can be named by a kernel rule |
| Firewalls.Firewall.LinkGroup | src/backend/utils/netfilterTools/ipset-to-link.go:561-632 | Success means the group has all its chains, rules and jumps in every family, the jumps where the given mode puts them; failure that it has none; every other group's are unharmed, and the preamble is registered exactly while a linked group needs it |
| Firewalls.Firewall.DestroyOwned | src/backend/utils/netfilterTools/ipset.go:376-393 | A destroy counts as one of a set in use exactly if some kernel rule names one of the group's sets at that moment |
| Firewalls.Firewall.MakeSets | src/backend/utils/netfilterTools/ipset.go:395-423 | Success means that all sets of the group exist and are held by it; after a failure it holds what it held before |
| Firewalls.Firewall.DestroySets | src/backend/group.go:288-304 | Success means that sets the group had made are gone from the kernel; a set that could not be destroyed is not tried again |
| Lifecycle.App.TearDownRouting | src/backend/app.go:608-656 | All groups are down whatever fails, and every set an enabled group had made was told to go; if all families were committed no kernel rule names any group's set and no set was destroyed while one did; success means those sets are gone |
| Lifecycle.App.BringUpRouting | src/backend/app.go:513-562 | Success exactly if routing is up: DNS redirected, every wanted group with its sets in the kernel and its rules registered in every family, its jumps where the present mode puts them, and every family's last commit, of just this registry, left them in the kernel; otherwise everything is down; while no commit failed no set is destroyed in use; without failing steps it succeeds |
| Lifecycle.App.BringDownRouting | src/backend/app.go:589-600 | Routing is down afterwards, also on error, and unless a commit failed no kernel rule names a set; success means the sets of all wanted groups are gone |
| Lifecycle.App.DownIsUnnamed | src/backend/app.go:589-656 | In every state between operations, with routing down and no commit failed, no kernel rule names any group's set |
| Lifecycle.App.ApplyDirectPriority | src/backend/app.go:698-720 | Configuration and helper hold the mode; success means wanted routing runs, committed in every family, with every wanted group's jumps registered where the mode puts them, failure that routing is down |
| Lifecycle.App.SetDirectPriority | src/backend/app.go:772-826 | Transactional for every pattern of failures: the registered jumps are those of the new mode, or of the old one, or the caller learns that routing is down and a repeat is not taken for applied; without failing steps a valid mode is applied |
| Lifecycle.App.SetEnabled | src/backend/app.go:830-877 | Success means configuration and routing agree with the wish, and a changed wish is saved, on with all rules committed in every family, off with all sets of the wanted groups gone; switching off always ends with routing down and the wish kept; without failing steps it succeeds unless shutdown has begun |
| Lifecycle.App.Shutdown | src/backend/start.go:259-265 | The committer is stopped and routing is down, whatever fails |
| Lifecycle.App.SwitchAfterShutdown | src/backend/app.go:772-826 | After shutdown a switch of the direct-group priority leaves routing up only if the user wants it and the mode is valid, and does so in that case if no step fails |
| Lifecycle.App.Interfere | src/backend/app.go:589-656 | What the firmware and the committer do between operations keeps the state valid |
| Arbitration.BringUpJumps | src/backend/utils/netfilterTools/ipset-to-link.go:48-53 | A bring-up in routing order, link by link, registers direct jumps at 1 in reverse (absolute mode) and all others in order at the end, the preamble before the first interface group, and nothing else; without failing steps it succeeds |
| Arbitration.KnownIsFresh | src/backend/utils/iptables/chain-patch.go:21-79 | The list a bring-up leaves is one a commit accepts, and none of its rules is in a chain without our jumps |
| Arbitration.CollectHits | src/backend/api/v1/lookup.go:154-175 | Exactly the groups with a network that contains the address, once, in routing order |
| Arbitration.PickIpsetWinner | src/backend/api/v1/lookup.go:277-293 | In absolute mode the last direct hit, else the first hit |
| Arbitration.LookupWinner | src/backend/api/v1/lookup.go:219-240 | The page's answer is the group whose jump comes first |
| Arbitration.PickedIsKernelPick | src/backend/api/v1/lookup.go:273-293 | The picked hit is the kernel's choice in both modes |
| Arbitration.FirstJumpTakes | src/backend/utils/netfilterTools/ipset-to-link.go:98-103 | After the commit of a bring-up PREROUTING is our inserts, the foreign rules, our appends, and its first jump to a group whose set holds the address is the kernel's choice |
| Arbitration.RouteThenLookUp | src/backend/api/v1/lookup.go:219-293 | Routing brought up from nothing beside any foreign rules and committed: in every family and both modes the first jump to a group whose set holds the address leads to the group the page names; without failing steps it succeeds |
| IntervalTree.BuildTree | src/frontend/src/utils/interval-tree.ts:47-68 | The tree holds exactly the slice in order, and each `max` bounds the ends below it |
| IntervalTree.QueryNode | src/frontend/src/utils/interval-tree.ts:80-100 | Pruned traversal returns what a full traversal would |
| IntervalTree.IntervalTree.Build | src/frontend/src/utils/interval-tree.ts:31-45 | Sorting and building lose nothing that was inserted |
| IntervalTree.IntervalTree.Query | src/frontend/src/utils/interval-tree.ts:70-78 | Each datum as often as overlapping intervals carrying it were inserted; an error exactly before the tree is built |
| IntervalTree.FoundIsHits | src/frontend/src/utils/interval-tree.ts:80-100 | The traversal order only rearranges plain filtering |
| IntervalTree.SortByStartKeeps | src/frontend/src/utils/interval-tree.ts:38-41 | The sort orders by start and keeps every interval |
| Conflicts.OctetsInOrder | src/frontend/src/utils/ip.ts:46-49 | The shifted octets, or-ed, are the octets one after the other |
| Conflicts.IPv4AsWritten | src/frontend/src/utils/ip.ts:60-73 | For every address and prefix 0 to 32 the mask expressions give the range `RangeIsNetwork` is about |
| Conflicts.IPv6AsWritten | src/frontend/src/utils/ip.ts:75-89 | The same for 128 bits |
| Conflicts.RangeIsNetwork | src/frontend/src/utils/ip.ts:60-73 | A range holds exactly the addresses that share the network's prefix |
| Conflicts.IPv4OverlapIffNested | src/frontend/src/utils/ip.ts:60-73 | Two IPv4 networks overlap exactly if one contains the other |
| Conflicts.IPv6RangeIsNetworkIff | src/frontend/src/utils/ip.ts:75-89 | The IPv6 range is the network's exactly if the prefix is not 0 |
| Conflicts.FindSubnetConflicts | src/frontend/src/modules/conflicts/conflicts.svelte.ts:236-280 | Every reported pair overlaps and has different ids, and every overlapping pair is reported exactly once unless two pairs share a key |
| Conflicts.PairKeyNamesPair | src/frontend/src/modules/conflicts/conflicts.svelte.ts:274-276 | On ids without a colon the key names the unordered pair |
| Conflicts.HexIdsTellPairs | src/backend/utils/intID/id.go:13-15 | With distinct hexadecimal ids no two pairs share a key |
| Conflicts.SearchIsCompleteIff | src/frontend/src/modules/conflicts/conflicts.svelte.ts:236-280 | The search reports every overlapping pair exactly once for all networks exactly if no two different pairs of rules share a key |

## Left out

- `Save` prints tables and chains in alphabetical order in the fake; here any order, so what is proved holds for that one too.
- The fake's failure injection, locks, contexts and logging; the retry loop with its error classification (`commit-retry.go`).
- Insert positions below 1 make `Restore` fail; convergence is stated for models whose inserts are at 1 or beyond, which the program's are.
- White space in `strings.Fields` is the Latin-1 white space; names and rules with white space inside are outside the round trip.
- The worker is a machine over interleaved steps on values, because its meaning is its interleavings; a pass is one begin and one end step that may fail, and `stop` is a cancel step and a return step.
- Concurrent changes of the cache between the two lock sections of `SnapshotFiltered`; the guard that keeps an empty cache from overwriting a file; files themselves.
- IPv4-mapped IPv6 forms: addresses in the cache are taken as canonical.
- A group has one `GroupRuns.FamilySets` per address family; an error listing the main set of the first family, after which the second's main set is left alone, is in `RunKeepsStatics` a pass of the second that reaches nothing of its main set. The sync and the trie rebuild after a bring-up only log errors and are not part of `Lifecycle`.
- `Firewalls` keeps each family's registry as the value that `GroupRegistry` shows the registry object to hold, and calls none of the object's methods itself; the preamble is there while a linked group needs it, its counting is `Preamble`. Chains left by a crash and their removal at startup (`iptables-cleaner.go`) come before its first state.
- IPv6 interval trees: their sort goes through `Number`, which rounds; the tree is modelled over exact integers.
- The domain part of the conflict search, IP string parsing, and the interface's stores.
- Netlink routes, ip rules and module loading are steps that may fail; which mark a link gets is any number, and what a routing table does with a marked packet is not part of this model. `Preamble` and `Arbitration` are about the mangle PREROUTING chain; a TPROXY group is there a link without preamble, since its jump is appended like an interface group's.
- `Packets` reads the matches and targets the groups' rules are made of; foreign rules are taken to let a packet through. What a SET target adds is noted with the packet and does not change the sets of that moment. `Delivery` starts from registry lists that hold only rules to take out, as after a teardown.
- The DNS redirection is a flag that its steps set and clear; its own chain and its commits (`port-remap.go`) are not part of this model.
- Enabling a single group while routing is up, subscriptions, and configuration reload during a lifecycle change.
- DNS transport, answer rewriting, HTTP handlers, authentication, speed test, updater.

# ZTAP enforcement: a verified model

ZTAP turns Kubernetes NetworkPolicy objects into the contents of eBPF maps, swaps
whole policy generations under live traffic, and keeps enforcing while its agent is
dead. This project models that path in Dafny and proves what it promises: that a
packet is always decided by one complete policy generation, that the packed keys
mean what the policies mean, and that a crash at any moment can be recovered.

`dafny verify dfyconfig.toml` checks the whole project.

## How the files fit together

| part | files |
|---|---|
| from policies to a policy set | `NativePolicies`, `Resolution`, `CompilerSpec`, `Compiler`, `CompiledSets`, `CompiledForm`, `NativeEngine` |
| what policies mean, and that this is preserved | `PolicyMeaning`, `MeaningAgreement`, `CompilerMeaning` |
| CIDR subtraction | `Cidr`, `RangeSplit`, `IpBlock`, `ExpansionBound` |
| from a policy set to map keys and back to a verdict | `PolicySets`, `EngineKeys`, `SlotShift`, `LpmTrie`, `SlotVerdict`, `PacketProgram` |
| connection table and accounting | `Connections`, `ConnectionLives`, `ConnectionEviction`, `ConnectionRaces`, `FlowAccounting` |
| the commit protocol with concurrent packets | `SlotProtocol` |
| the durable engine | `DurableKernel`, `EngineStore`, `GuardCheck`, `EngineCore`, `Recovery`, `OwnerCodec`, `ProgramJournal`, `Cleanup` |
| calls, crashes and restarts; the agent among packets | `AgentHistory`, `SystemRuns` |
| all of it together | `Traffic`, `EndToEnd` |
| shared | `Ordering`, `Options`, `Environment` |

The threads that run through them:

* **One register.** `SlotProtocol` is a state machine of one writer, a counter scan
  that reads one CPU at a time, and any number of packets, one atomic step at a time.
  Every run refines a register that is replaced atomically. `DurableKernel` says which
  single mutations of the kernel are moves of that writer; `EngineStore` and
  `EngineCore` record every mutation they make and are proved to make no other.
* **One meaning.** `PolicyMeaning` evaluates the policies on the snapshot as it was given
  and on the packet's own fields; it uses no function of the compiler or of the packet
  program. `NativePolicies` and `CompilerSpec` say what the policies compile to as sets,
  with predicates of their own. The methods of `Compiler` compute those sets; `EngineKeys`
  packs them; `LpmTrie` looks them up bit by bit. `MeaningAgreement` and `CompilerMeaning`
  close the circle.
* **Told twice.** What a helper on the way computes is stated once more in plain terms, on
  packets, texts, bits, names or single pins, and with the source's numbers written out
  (`RegistrationMeans`, `SameEntryMeans`, `RuleKeyLayout`, `ValidMeans`, `JournalMeans`,
  `MetricsCountDecisions`, `BelievedMeans` and others).
* **One committed state.** `Sound` in `DurableKernel` is what recovery needs. It holds
  in every kernel state that any call passes through, so `Recovery` accepts every
  crash, and the committed state in it is the one before or the one after the call.
  `AgentHistory` strings calls, crashes and restarts together, `SystemRuns` lets packets
  in between every two steps, `Traffic` gives all of them one connection table, and
  `EndToEnd` says what they are decided by.

## Decisions a reader should know

* The configuration records are rewritten. The comment above `active_config` in
  `bpf/engine.c` calls the pointed map immutable after publication; in the durable
  engine `configuration_0` and `configuration_1` are reused (persistence_linux.go:79-92,
  engine_linux.go:737-776), and a packet loads pointer, slot and epoch separately. The
  model follows the code, and the guarantees hold for it.
* Every kernel operation may fail without effect; a chain of operations may stop
  anywhere. Timeouts, cancellation and uncertain identities are such failures. All of
  them are answers of one `World`, which may stop failing at any time; what calls
  achieve from then on is part of their contracts.
* An address is a number below 2^32; a direction mask is two bits and a flag for any
  other bit; epochs, cgroups and counters are 64-bit. Times are nanoseconds on a clock
  that does not wrap, except in the flow limiter, whose unsigned subtraction is written
  out.
* A label selector is a well-formedness flag and a predicate on labels. Name, label and
  annotation checks of policy metadata are one flag. A pod is identified by namespace,
  slash and name.
* The source sorts policies and pods before compiling. The model compiles them in any
  order, and proves that the result and the refusal are the same for all orders.
* Orphaned and candidate link handles are sets of cgroups: removing two handles of one
  cgroup is removing the same two pins twice.
* New eBPF programs get identifiers that the registry has not recorded.
* A close is not final under every interleaving: a stale swap can extend a closing entry
  (`ConnectionRaces.StaleSwapExtends`), and a stale insertion can replace it
  (`ConnectionRaces.StaleInsertReopens`). `ConnectionRaces.CloseIsFinalIff` is the exact
  condition. Sequentially a close is always final.
* Eviction is not harmless in every run, either. It never adds an admission by state
  exactly when every entry it takes has expired by the latest packet of the run
  (`ConnectionEviction.EvictionIsHarmlessIff`). Every live entry, open or closing, TCP or
  UDP, has a continuation in which its eviction lets state admit a packet that it would
  have refused: the tuple is made anew by a later rule-allowed packet, with a later expiry.
* A block with at most 38 contained excepts never exceeds 1024 prefixes; one with 39 can.

## Model

| member | source | states |
|---|---|---|
| `SlotProtocol.ReadsAreCommitted` | bpf/engine.c:847-882 | In every run, with any number of packets on any CPUs and any succeeding or failing writer, whatever a validated packet reads at any moment is the complete set published at the epoch it carries; that set never changes afterwards and is no older than the configuration active when the packet arrived. |
| `SlotProtocol.RunRefines` | bpf/engine.c:847-882 | Every run of the two-slot protocol is, step by step, a run of one atomic register: publishing replaces epoch and set together, and every packet reads the one snapshot it took. |
| `SlotProtocol.NextRefines` | bpf/engine.c:853-873 | One step of writer, scan or packet is a step of the atomic register or invisible to it; the snapshot is taken at the second load of the pointer. |
| `SlotProtocol.NextKeeps` | bpf/engine.c:853-975 | Every step keeps the invariant: active slot is epoch mod 2, active contents are what was committed, counters are exact, a secured packet stands on contents nobody rewrites. |
| `SlotProtocol.RunKeeps` | bpf/engine.c:853-975 | The invariant holds in every state of every run. |
| `SlotProtocol.HistoryGrows` | internal/enforcer/engine_core.go:186-206 | What an epoch published is never altered by any later step of any run. |
| `SlotProtocol.ScanKeeps` | internal/enforcer/engine_linux.go:790-806 | Reading a zero counter on one CPU, at whatever moment, shows that no secured packet of the retired slot runs there, and none can appear there later. |
| `SlotProtocol.QuietMeansUnused` | internal/enforcer/engine_linux.go:778-814 | Once every CPU has been read at zero, no packet is validated on the inactive slot or about to be, and a packet becomes secured only on the active slot. |
| `SlotProtocol.ZeroPassEntitles` | internal/enforcer/engine_linux.go:790-806 | One polling pass that reads every CPU once, each at its own moment among moving packets, and finds zero everywhere, leaves no validated packet on the retired slot and entitles the writer to it. |
| `SlotProtocol.BlockedMeansThreeCommits` | bpf/engine.c:857-882 | A packet leaves the loop without a configuration only after three commits landed inside its registration loop, and it then holds no registration. |
| `SlotProtocol.StoppedMeansZero` | bpf/engine.c:866-975 | In every reachable state a counter is zero exactly when no packet on that CPU is registered on that slot. |
| `SlotProtocol.CountersAfterStep` | bpf/engine.c:866-873 | A packet step changes its own CPU's counters by exactly the change in its registration. |
| `SlotProtocol.WriteKeeps` | internal/enforcer/engine_linux.go:737-768 | Every move the writer is allowed (insert, delete, write a record, swing, quiesce, forget) keeps the invariant. |
| `SlotProtocol.StepKeeps` | bpf/engine.c:857-882 | Every packet step keeps the invariant, including the step that secures it. |
| `SlotProtocol.InitOk` | internal/enforcer/engine_linux.go:498-519 | The maps as initialized satisfy the invariant. |
| `DurableKernel.SwingIsLegal` | internal/enforcer/engine_linux.go:753-757 | Swinging the pointer is an allowed move, and keeps the durable state recoverable, once the inactive slot holds a valid set whose subjects are linked and its record names the next epoch. |
| `DurableKernel.RecordIsLegal` | internal/enforcer/engine_linux.go:748-752 | Rewriting the inactive slot's configuration record changes nothing committed and is an allowed move. |
| `DurableKernel.PutIsLegal` | internal/enforcer/engine_linux.go:571-618 | Writing a row of the quiet inactive slot is an allowed move that changes nothing committed and leaves a recoverable state. |
| `DurableKernel.DeleteIsLegal` | internal/enforcer/engine_linux.go:728-735 | Deleting a row of the quiet inactive slot, likewise. |
| `DurableKernel.JournalIsLegal` | internal/enforcer/persistence_linux.go:664-700 | A journal or pin mutation that keeps pins owned and committed subjects linked leaves a recoverable state and is invisible to packets. |
| `DurableKernel.ImageIsHolds` | internal/enforcer/engine_keys.go:110-196 | The rows of a slot are those of a set exactly when the packet program's lookups see that set. |
| `DurableKernel.InstalledShape` | internal/enforcer/persistence_linux.go:471-537 | Everything a valid set installs passes the per-entry checks of recovery. |
| `DurableKernel.TraceGrows` | internal/enforcer/engine_core.go:186-206 | A history of recoverable states related by allowed moves stays one when an allowed move is added. |
| `EngineStore.Store.PutRow` | internal/enforcer/engine_linux.go:571-618 | One map write: it may fail without effect; otherwise exactly one row of the inactive slot is added. |
| `EngineStore.Store.DeleteRow` | internal/enforcer/engine_linux.go:728-735 | One map deletion, with the same guarantee. |
| `EngineStore.Store.Flip` | internal/enforcer/engine_linux.go:737-768 | Record first, pointer second; failure of either leaves everything committed as it was, success commits exactly the rows of the inactive slot at the next epoch. |
| `EngineStore.Store.WaitQuiescent` | internal/enforcer/engine_linux.go:778-814 | May time out without effect; success is what entitles the writer to the inactive slot. |
| `EngineStore.Store.ClearMap` | internal/enforcer/engine_linux.go:664-735 | Deletes the inactive slot's rows of one map until a deletion fails; success leaves none, the committed slot is never touched. |
| `EngineStore.Store.ClearSlot` | internal/enforcer/engine_linux.go:636-662 | Success empties the inactive slot and its counts; whatever happens, what is committed, the pins and the referenced owners stay. |
| `EngineStore.Store.PopulateSlot` | internal/enforcer/engine_linux.go:531-620 | Success leaves the inactive slot with exactly the rows of the set, every classification having its owner in the journal; failure part-way disturbs nothing committed; when nothing fails, a valid set and a cleared slot are all it takes. |
| `EngineStore.Store.PutClassified` | internal/enforcer/engine_linux.go:583-599 | At no recorded moment, also when the loop fails part-way, does the inactive slot hold a classification whose owner is not in the journal. |
| `EngineStore.EncodingIsImage` | internal/enforcer/engine_keys.go:110-196 | The rows written from an encoding are exactly the rows the set installs. |
| `EngineStore.Store.PruneUnreferencedOwners` | internal/enforcer/guard_linux.go:364-402 | Deletes only owners that no committed row and no pin refers to, leaves none of them when it succeeds, and keeps the state recoverable at every deletion. |
| `EngineStore.Store.RememberOwner` | internal/enforcer/persistence_linux.go:664-700 | On success the owner is in the journal; on failure nothing has changed. |
| `EngineStore.Store.DeleteOwner` | internal/enforcer/persistence_linux.go:1107-1113 | Deleting an unreferenced owner keeps pins owned and committed subjects linked. |
| `EngineStore.Store.Remove` | internal/enforcer/persistence_linux.go:1070-1114 | Refuses exactly the committed subjects; otherwise removes both pins, and the owner unless the cgroup is still classified; a partial failure removes nothing else. |
| `EngineStore.Store.Attach` | internal/enforcer/persistence_linux.go:1116-1184 | Owner first, then each pinned direction; success means both directions pinned and owned; failure leaves only this cgroup's own pins. |
| `EngineStore.Store.ValidateCandidate` | internal/enforcer/persistence_linux.go:609-662 | A guarded candidate that passes classifies all its subjects; a committed cgroup without an owner is never found; when nothing fails, only the guard check can refuse. |
| `EngineStore.Store.CommittedAreOwned` | internal/enforcer/persistence_linux.go:644-647 | Every committed subject and classification has a durable owner. |
| `GuardCheck.ValidateGuardCandidate` | internal/enforcer/guard_linux.go:348-362 | Accepts exactly the sets whose every subject has its cgroup among the classified. |
| `EngineCore.Engine.Apply` | internal/enforcer/engine_core.go:68-210 | All or nothing: an error before the commit leaves configuration, committed contents and links unchanged; otherwise the set is committed, at the next epoch in the other slot unless it already was committed; no kernel state in between has anything else committed; the inactive slot ends up empty or noted for cleanup; a guarded engine commits only classified subjects; the conflict and invalid-slot errors never occur, and closed, invalid-set and epoch-exhausted errors only for their own reasons. And progress: once nothing fails any more, a valid, guard-accepted set on an engine with an epoch left is committed, the links are its subjects, and no orphan and no pending cleanup remain. |
| `EngineCore.Engine.ApplyOpen` | internal/enforcer/engine_core.go:88-209 | The same for an open engine, with links equal to the committed subjects and disjoint from the orphans afterwards, whatever failed. |
| `EngineCore.Engine.Commit` | internal/enforcer/engine_core.go:181-209 | After the pointer swap the new set is committed even if status publication, link removal or slot cleanup fail; before it nothing is. |
| `EngineCore.Engine.Publish` | internal/enforcer/engine_core.go:152-185 | From a populated slot: every failing exit rolls back and leaves the engine as before. |
| `EngineCore.Engine.PrepareSlot` | internal/enforcer/engine_core.go:131-150 | Success leaves the inactive slot quiet, populated with exactly the set, and owned; every failure leaves what is committed alone and any cleanup noted for the other slot. |
| `EngineCore.Engine.ReclaimPendingSlot` | internal/enforcer/engine_core.go:253-270 | The conflict error is unreachable: a pending cleanup always names the inactive slot; success clears it, failure is counted once. |
| `EngineCore.Engine.RollbackCandidate` | internal/enforcer/engine_core.go:272-288 | Removes the candidate's links, remembering those that resist, and leaves the slot empty or noted for cleanup; committed links and contents are untouched. |
| `EngineCore.Engine.RetryOrphanLinks` | internal/enforcer/engine_core.go:290-307 | Success leaves no orphan; what cannot be removed stays remembered; no removal is refused as committed. |
| `EngineCore.Engine.AttachLinks` | internal/enforcer/engine_core.go:152-177 | Success: exactly the missing subjects are attached, each with both pins and its owner; failure leaves every pin tracked. |
| `EngineCore.Engine.AttachOne` | internal/enforcer/engine_core.go:158-176 | A failed attachment that cannot be undone becomes an orphan, never a link. |
| `EngineCore.Engine.CloseRemovedLinks` | internal/enforcer/engine_core.go:309-329 | Afterwards the links are exactly the committed subjects; links that resist removal become orphans; nothing committed is detached. |
| `EngineCore.Engine.ReclaimCommittedSlot` | internal/enforcer/engine_core.go:331-349 | The retired slot is cleared after quiescence or noted for the next call; the commit stands either way. |
| `EngineCore.Engine.Precheck` | internal/enforcer/engine_core.go:96-112 | Identity, pending cleanup and orphans come first; a failure there changes nothing committed. |
| `EngineCore.Engine.SameEncodingMeansCommitted` | internal/enforcer/engine_core.go:116-122 | The no-op path is taken exactly when the committed rows are those of the desired set. |
| `EngineCore.SubjectsOfImage` | internal/enforcer/engine_core.go:441-448 | The subject rows of a set are those of its cgroup list. |
| `EngineCore.Engine.LinksAreAttached` | internal/enforcer/engine_core.go:408-425 | Between calls every link the engine has is pinned in both directions and has its owner in the journal. |
| `EngineCore.Engine.constructor` | internal/enforcer/engine_core.go:408-425 | Recovery state: pending cleanup of the inactive slot, links of the committed subjects, the other pinned links as orphans. |
| `EngineCore.Engine.Close` | internal/enforcer/engine_core.go:351-397 | Releases handles, keeps those that resist for another call; the programs and maps are let go once, only when no handle is left, and it reports success only then; it succeeds when nothing fails; the durable state is not in its frame, so enforcement survives it. |
| `EngineKeys.EncodePolicySet` | internal/enforcer/engine_keys.go:110-196 | Refuses exactly an invalid slot or set; otherwise returns the sorted, duplicate-free encoding whose rows are exactly what the set installs. |
| `EngineKeys.EncodeSubjects` | internal/enforcer/engine_keys.go:128-135 | Strictly sorted listing of exactly the subject rows. |
| `EngineKeys.EncodeSelfs` | internal/enforcer/engine_keys.go:136-148 | Deduplicated, strictly sorted listing of exactly the self-bypass keys. |
| `EngineKeys.EncodeNodes` | internal/enforcer/engine_keys.go:149-155 | Deduplicated, strictly sorted listing of exactly the node-bypass keys. |
| `EngineKeys.EncodeRules` | internal/enforcer/engine_keys.go:156-165 | Deduplicated, strictly sorted listing of exactly the rule keys. |
| `EngineKeys.EncodeClassified` | internal/enforcer/engine_keys.go:142-145 | Strictly sorted listing of exactly the classification keys. |
| `EngineKeys.EncodingIsCanonical` | internal/enforcer/engine_core.go:212-215 | Two encodings are equal exactly when they stand for the same rows. |
| `EngineKeys.RuleOrderIsRank` | internal/enforcer/engine_keys.go:182-194 | The comparison of the rule sort is the order the canonical listing is strict in. |
| `EngineKeys.MetaIsInjective` | internal/enforcer/engine_keys.go:198-229 | The packed word determines slot, direction, protocol and port: nothing aliases. |
| `EngineKeys.MetaUnpacks` | internal/enforcer/persistence_linux.go:523-535 | Unpacking in recovery inverts packing, and the reserved bits are zero. |
| `EngineKeys.RuleKeyLayout` | internal/enforcer/engine_keys.go:198-229 | Every bit of a rule key: prefix length plus 96, slot, direction set for ingress, six zero bits, protocol, port, cgroup, and the peer without its host bits. |
| `EngineKeys.EncodePolicyRuleKey` | internal/enforcer/engine_keys.go:198-229 | Refuses exactly a third slot, a peer that is no IPv4 prefix, no or two directions, other protocols than 6 and 17, and port zero. |
| `EngineKeys.ListingOrder` | internal/enforcer/engine_keys.go:165-195 | The order of each listing, field by field. |
| `PolicySets.ValidMeans` | internal/policy/compiler.go:583-653 | The boundary check in plain words, with its limits: subjects, classifications, entries, distinct cgroups, masks, addresses, rules and whom they are for. |
| `SlotShift.EqualEncodings` | internal/enforcer/engine_core.go:212-215 | Two valid sets have equal encodings exactly when they install the same rows, in whichever slot, whatever their order and duplicates. |
| `SlotShift.ShiftInstalls` | internal/enforcer/engine_keys.go:110-229 | A set installs the same rows in either slot up to the slot bit of the keys. |
| `LpmTrie.MatchMeans` | bpf/engine.c:832-845 | A trie entry matches bit by bit, in memory order, exactly when packed word and cgroup are equal and the peer lies in the prefix. |
| `LpmTrie.LeadingBits` | bpf/engine.c:832-845 | Agreeing in the leading bits is agreeing after masking. |
| `SlotVerdict.LookupMeansRule` | bpf/engine.c:832-845 | The lookup succeeds exactly when some rule of the slot's set has the same cgroup, direction, protocol and port and a prefix containing the peer; the other slot's rules cannot make it succeed. |
| `SlotVerdict.RuleKeyMatches` | internal/enforcer/engine_keys.go:198-229 | A rule's packed key matches exactly the packets the rule admits. |
| `SlotVerdict.LookupsMeanSet` | bpf/engine.c:705-720 | Subject, node, self and class lookups find exactly what the slot's set says. |
| `PacketProgram.Program.EnforcePacket` | bpf/engine.c:847-976 | The whole program: blocked without a configuration if it could not register, otherwise the slot decision of the slot it registered on; the connection table is updated exactly when the packet reaches it; every decision is counted once, a missing subject passes uncounted; and on every path the counters of both slots end as they began. |
| `PacketProgram.Program.Register` | bpf/engine.c:857-876 | The answer is the first configuration read twice in a row, slot and epoch, after attempts that each found a change of either; nothing, if no configuration is usable or three attempts found a change; the counter of the slot it returns is one higher, by the protocol's account, and nothing else has changed. |
| `PacketProgram.RegistrationMeans` | bpf/engine.c:857-876 | For any six reads exactly one answer fits that description, and it is the one the loop computes. |
| `PacketProgram.RegistrationIsProtocol` | bpf/engine.c:857-882 | In every run of the commit protocol a packet that loads what the reads say is validated on exactly the slot and epoch the loop answers, and is turned away only if the loop has no answer. |
| `PacketProgram.Program.GuardPacket` | bpf/engine.c:1040-1071 | Passes exactly exempt traffic, which never registers, and classified cgroups of the slot it registered on; counts every block; gives its registration back on every path. |
| `PacketProgram.Program.Judge` | bpf/engine.c:884-975 | The early exits, in their order, compute the decision that the policies are compared with, and each of them takes exactly one from the counter of its own slot: the change the protocol gives a validated packet that leaves. |
| `PacketProgram.Program.JudgeConnection` | bpf/engine.c:955-975 | The last three exits: live state, else a rule, else denial; the table takes the one step for this packet, and each exit gives the registration back. |
| `NativePolicies.ValidateNativePolicy` | internal/policy/native.go:839-982 | Accepts exactly the valid policies; which these are, told on the text of the policy, is MeaningAgreement.AcceptanceAgrees. |
| `NativePolicies.ValidateNativePeer` | internal/policy/native.go:1032-1058 | Accepts exactly the valid peers, including that an ipBlock expands. |
| `NativePolicies.ValidatePeerRules` | internal/policy/native.go:944-979 | Accepts exactly the rule lists with peers and ports, all valid. |
| `NativePolicies.DirectionsMean` | internal/policy/compiler.go:668-698 | A direction is isolated exactly if the policy has rules for it or names it, if it is ingress and no types are listed, or if the policy says nothing that counts: no rule is ever ignored. |
| `Resolution.NormalizeResolutionInput` | internal/policy/compiler.go:222-305 | Accepts exactly the consistent snapshots, and returns the normalized snapshot and the namespace index. |
| `Resolution.NormalizePods` | internal/policy/compiler.go:255-300 | Accepts exactly the pods that are well formed, distinct and share no cgroup. |
| `Resolution.ClaimCgroups` | internal/policy/compiler.go:291-300 | Refuses exactly a zero cgroup or one another pod has claimed. |
| `Resolution.NormalizeNodes` | internal/policy/compiler.go:228-241 | Refuses exactly an invalid address or the lack of any IPv4 address. |
| `Resolution.IndexNamespaces` | internal/policy/compiler.go:243-254 | Refuses exactly a blank name or contradicting duplicates. |
| `Resolution.NormalizePodKeeps` | internal/policy/compiler.go:275-283 | Normalizing a pod changes no address, cgroup or identity. |
| `CompilerSpec.NormalizedIsReady` | internal/policy/compiler.go:222-305 | In a normalized snapshot every cgroup has one owner and everything is sorted and unmapped. |
| `Compiler.CompileNativePolicies` | internal/policy/compiler.go:173-220 | Succeeds exactly when the snapshot is consistent and fits; the result is the one set the policies stand for, passes the boundary check, and the rejected list is exactly the invalid policies. |
| `CompiledForm.RefusalMeans` | internal/policy/compiler.go:382-458 | A good snapshot is refused exactly if a pod that a policy is about could not be resolved, or the one set the policies stand for has more than 16384 subjects, or more than 16384 rules, node addresses and own addresses. |
| `CompiledForm.SomeSetIsCompiled` | internal/policy/compiler.go:542-565 | Whether or not it fits, there is a set that the policies stand for. |
| `CompiledForm.CompiledOrder` | internal/policy/compiler.go:542-776 | Subjects are listed by cgroup, rules by cgroup, direction, address, prefix length, protocol and port, addresses ascending; nothing twice. |
| `Compiler.CompileState.CompilePolicy` | internal/policy/compiler.go:307-347 | Takes the tables of the policies done to the tables of one more; failure means the whole input cannot compile. |
| `Compiler.CompileState.RejectPolicy` | internal/policy/compiler.go:311-320 | A refused policy isolates and quarantines exactly the pods it selects, by namespace if its selector is unusable, and adds no rule. |
| `Compiler.CompileState.AcceptPolicy` | internal/policy/compiler.go:322-346 | An accepted policy isolates its pods, quarantines those with IPv6, and adds exactly its rules. |
| `Compiler.CompileState.AddSelectedSubjects` | internal/policy/compiler.go:382-423 | Adds the masks to exactly the cgroups of the pods; the running counts stay true; failure means the whole input cannot compile. |
| `Compiler.CompileState.EnsureEntry` | internal/policy/compiler.go:405-418 | A new cgroup adds its own bypasses to the count; the limits are checked at once; the ownership conflict never occurs. |
| `Compiler.CompileState.SelectedLocalPods` | internal/policy/compiler.go:349-369 | Exactly the pods the policy selects; unavailable exactly when the selector is. |
| `Compiler.CompileState.ResolvePeers` | internal/policy/compiler.go:460-517 | Sorted, duplicate-free prefixes of exactly the peers' addresses; fails exactly when a selector or a block is unusable. |
| `Compiler.CompileState.ResolvePodPeer` | internal/policy/compiler.go:471-515 | The addresses of exactly the pods the peer selects. |
| `Compiler.CompileState.AddRules` | internal/policy/compiler.go:425-458 | Adds exactly the product of cgroups, prefixes and ports, deduplicated; failure means an unusable peer or port, or an input that cannot compile. |
| `Compiler.CompileState.OverflowRefuses` | internal/policy/compiler.go:411-418 | A table that has outgrown a limit shows that the whole input exceeds it: early refusal is no order effect. |
| `Compiler.CompileState.PolicySetOf` | internal/policy/compiler.go:542-565 | The sorted output is the one set the policies stand for. |
| `Compiler.CompileState.FitsAll` | internal/policy/compiler.go:173-220 | Tables of all policies that fit show that nothing refuses the input. |
| `CompiledSets.CompiledIsUnique` | internal/policy/compiler.go:190-204 | The compiled set does not depend on the order or multiplicity of policies, nor on the order of pods. |
| `CompiledSets.RefusalIsOrderFree` | internal/policy/compiler.go:190-204 | Whether compilation succeeds does not depend on them either. |
| `CompiledSets.Recount` | internal/policy/compiler.go:570-580 | The final recount equals the running count. |
| `CompiledSets.CompiledIsValid` | internal/policy/compiler.go:583-653 | Every successful result passes ValidatePolicySet. |
| `CompiledSets.RulesAreInRange` | internal/policy/compiler.go:441-447 | Every compiled rule fits the kernel fields, and its cgroup is a subject. |
| `CompiledSets.RuleRankSeparates` | internal/policy/compiler.go:759-776 | The rule comparison is zero only for equal rules. |
| `NativeEngine.Candidate` | internal/enforcer/native_engine.go:18-40 | The candidate is the compiled set plus exactly the local workloads as classification; it passes the guard check, and the boundary check exactly when the classification fits. |
| `NativeEngine.SubjectsAreClassified` | internal/enforcer/native_engine.go:33-40 | Every subject is classified, so the guard check never rejects a compiled candidate. |
| `NativeEngine.CandidateIsValid` | internal/enforcer/native_engine.go:33-40 | The union breaks no other check. |
| `CompilerMeaning.CompilationPreservesMeaning` | bpf/engine.c:886-975 | For every good snapshot, cgroup, direction and packet, and every answer of the connection table, the decision from the packed keys equals the evaluation of the source policies on the snapshot as given (PolicyMeaning.Decision), which shares nothing with the compiler: addresses as written, text prefixes, names, the packet's own fields; cgroups of no pod pass. |
| `MeaningAgreement.SnapshotsAgree` | internal/policy/compiler.go:222-305 | The snapshots the compiler takes are exactly the good ones, told by names, addresses and cgroups. |
| `MeaningAgreement.AcceptanceAgrees` | internal/policy/native.go:839-982 | The policies it accepts are exactly the good ones, told by version, kind, types, selectors, block texts, protocol names and port numbers. |
| `MeaningAgreement.ExpandableMeansWritable` | internal/policy/native.go:1078-1161 | A block is accepted exactly when all texts are IPv4 prefixes, every except is no shorter than the CIDR and starts in it, and at most 1024 text prefixes cover its addresses and no others. |
| `MeaningAgreement.NamedPodsAgree` | internal/policy/compiler.go:486-505 | Without a namespace selector a peer names pods of the policy's own namespace, with one pods of the namespaces it matches; never pods in the host network; always with labels its pod selector matches. |
| `MeaningAgreement.PeerAddressesAgree` | internal/policy/compiler.go:460-517 | The addresses a peer allows are exactly those of its block, or of the pods it names. |
| `MeaningAgreement.AllowedAgrees` | internal/policy/compiler.go:425-458 | A rule allows exactly its peers' addresses with 6 for TCP, 17 for UDP, and its port numbers. |
| `MeaningAgreement.PermissionAgrees` | internal/policy/compiler.go:307-347 | A policy allows a packet exactly if it is accepted, is about the pod in that direction, and has a rule with the destination of an egress packet or the source of an ingress packet, and its destination port. |
| `MeaningAgreement.QuarantineAgrees` | internal/policy/compiler.go:307-347 | A policy quarantines exactly the pods it isolates if it is not accepted, and those with an IPv6 address. |
| `CompilerMeaning.RuleSetMeans` | internal/policy/compiler.go:425-458 | The rules of a cgroup admit a packet exactly when some accepted policy allows it. |
| `CompilerMeaning.PeerBlocksMean` | internal/policy/compiler.go:460-517 | Some prefix of a peer contains an address exactly when the peer allows the address. |
| `CompilerMeaning.SubjectOf` | internal/policy/compiler.go:382-423 | A cgroup is a subject exactly when some policy selects its pod. |
| `CompilerMeaning.GuardMeansWorkload` | bpf/engine.c:1060-1065 | The guard's class lookup succeeds exactly for cgroups of local pods outside the host network, and for every subject. |
| `IpBlock.ExpandNativeIPBlock` | internal/policy/native.go:1078-1161 | Succeeds exactly for an accepted block with at most 1024 maximal prefixes and lists exactly those, shorter ones first and then by address; otherwise it names the CIDR's own fault or the first faulty except and what is wrong with its text, or the limit. |
| `IpBlock.MaximalsCover` | internal/policy/native.go:1116-1160 | The prefixes cover every address of the base that no except covers, and no other. |
| `RangeSplit.MaximalsAreDisjoint` | internal/policy/native.go:1116-1160 | Prefixes that share an address are the same prefix. |
| `IpBlock.MaximalsAreFewest` | internal/policy/native.go:1174-1196 | No list of prefixes with the same union is shorter. |
| `IpBlock.UpTo38ExceptsExpand` | internal/policy/native.go:30-32 | A block with at most 38 contained excepts, overlapping, nested or adjacent, never hits the limit. |
| `IpBlock.FewMaximals` | internal/policy/native.go:1078-1161 | k distinct excepts leave at most 25 k + 64 prefixes. |
| `IpBlock.BelowLine` | internal/policy/native.go:1078-1161 | The bounds behind it: for each j a line in the number of excepts that no subtraction exceeds. |
| `IpBlock.LineIsMet` | internal/policy/native.go:1078-1161 | Between 2^j and 2^(j+1) excepts the j-th line is met, at every height: no lower bound holds there. |
| `ExpansionBound.SpreadMeetsTheLine` | internal/policy/native.go:1078-1161 | For every k from 32 to 64 there is a block with k excepts that leaves exactly 25 k + 64 prefixes. |
| `ExpansionBound.ThirtyEightIsExact` | internal/policy/native.go:30-32 | Blocks with at most n contained excepts are never refused for their size if and only if n is at most 38. |
| `IpBlock.MergeRanges` | internal/policy/native.go:1116-1131 | Merging overlapping and adjacent ranges changes no address and leaves gaps between all ranges. |
| `IpBlock.WalkGaps` | internal/policy/native.go:1133-1152 | The gap walk lists exactly the maximal prefixes, or there are more than the limit. |
| `IpBlock.ParseExcepts` | internal/policy/native.go:1096-1114 | Refuses at the first except that is no prefix, not IPv4 or not contained. |
| `RangeSplit.AppendRangePrefixes` | internal/policy/native.go:1174-1196 | Terminates, appends exactly the maximal prefixes of the range, at most 62, or stops at the limit. |
| `RangeSplit.GreedyIsMaximal` | internal/policy/native.go:1174-1196 | The block the loop emits is the largest that alignment and remaining length allow, and no larger prefix of the range contains it. |
| `RangeSplit.PhaseCount` | internal/policy/native.go:1174-1196 | At most 62 blocks have been emitted at any time. |
| `Connections.OneEntryPerTuple` | bpf/engine.c:738-755 | Both directions of a tuple, and nothing else, map to one entry; epoch, cgroup and protocol are part of it. |
| `Connections.SameEntryMeans` | bpf/engine.c:724-755 | Told on packets: two packets share an entry exactly when epoch, cgroup and protocol are the same and they go the same way between the same addresses and ports, or opposite ways with addresses and ports exchanged. |
| `Connections.ConnTable.RefreshConnection` | bpf/engine.c:757-783 | Without interference the atomic steps compute the refreshed entry. |
| `Connections.ConnTable.RememberReverseConnection` | bpf/engine.c:785-809 | A reset deletes, a bare SYN starts anew, a live entry is refreshed, otherwise one is created. |
| `Connections.ConnTable.AllowConnectionState` | bpf/engine.c:811-830 | Admits exactly live entries and never a bare SYN; a reset deletes. |
| `ConnectionEviction.EvictionIsHarmlessIff` | bpf/engine.c:757-830 | After every run with a monotone clock: evicting a set of entries never adds an admission by state, in any continuation, if and only if every entry it takes has expired by the latest packet of the run. |
| `ConnectionEviction.LiveEvictionAdmits` | bpf/engine.c:757-830 | For every live entry, open or closing, TCP or UDP, a continuation in which its eviction lets state admit a packet that would have been refused. |
| `ConnectionEviction.ExpiredIsHarmless` | bpf/engine.c:757-830 | Taking expired entries only changes no admission by state, ever after. |
| `ConnectionEviction.EvictionForgets` | bpf/engine.c:300-305 | After an eviction every other tuple is, for ever, as it would have been, and an evicted tuple has no entry until a rule starts it anew. |
| `ConnectionEviction.EvictionAddsNothing` | bpf/engine.c:811-830 | Evicting any entries, live ones too, adds no admission by state to a tuple as long as no rule has started it anew since. |
| `ConnectionEviction.EvictionCanAdmit` | bpf/engine.c:785-830 | A run in which an evicted closing entry makes room for an open one, and state admits a packet it would have refused. |
| `Connections.StateOnlyContinues` | bpf/engine.c:956-970 | In every run, whatever state allows has an earlier rule-allowed packet of the same epoch, cgroup and tuple with no allowed reset in between, and is not a bare SYN. |
| `Connections.EntriesAreVouched` | bpf/engine.c:785-830 | Every entry of the table goes back to such a packet. |
| `Connections.ExpiriesTrackTimers` | bpf/engine.c:757-783 | Over every run with a monotone clock the coalesced table keeps step with exact timers: an open expiry lies less than a second below the exact one, a closing one is exact. |
| `Connections.AdmissionIsTimely` | bpf/engine.c:757-783 | It admits nothing an exact idle timeout would refuse and everything a timeout one second shorter would admit; a closing tuple ends exactly on time. |
| `Connections.FreshAfterAdmission` | bpf/engine.c:774-782 | After each admitted packet of an open tuple the expiry lies in (now+idle-1s, now+idle]. |
| `Connections.ClosingIsFinal` | bpf/engine.c:757-783 | From the second FIN on no packet and no retransmitted FIN moves the expiry; only a rule starts the tuple anew. |
| `Connections.ClosingStarts` | bpf/engine.c:762-770 | The closing expiry is the completing FIN plus 120 seconds. |
| `ConnectionLives.RepliesAreAdmitted` | bpf/engine.c:738-830 | In every run with a monotone clock: after a rule-allowed packet, with no allowed reset and no eviction of the tuple since, a reply with addresses and ports exchanged that is no bare SYN is admitted by state, within a day less a second (UDP 29 seconds) unless FINs have been allowed both ways, and within 120 seconds (UDP 29) in any case. |
| `ConnectionLives.SilenceEnds` | bpf/engine.c:757-830 | What state admits comes less than 24 hours, for UDP 30 seconds, after an admitted packet of the same tuple. |
| `ConnectionLives.WritesAreCoalesced` | bpf/engine.c:757-783 | An admitted packet of a tuple that stays open moves the expiry to a full idle timeout, unless it is less than a second short of that already; then it stays. |
| `ConnectionLives.ResetEnds` | bpf/engine.c:785-830 | After an allowed RST the next packet of the tuple, in either direction, is not admitted by state. |
| `ConnectionLives.ClosedConnectionsEnd` | bpf/engine.c:757-830 | Once FINs were allowed in both directions, and no rule has allowed a packet of the tuple since the first, state admits nothing of it from 120 seconds after the second. |
| `ConnectionRaces.CloseIsFinalIff` | bpf/engine.c:757-830 | With concurrent CPUs: a closed entry stays and keeps its expiry, in every continuation in which it is not deleted and looked up only before it expires, if and only if no CPU is about to swap against a stale expiry equal to the closing one or to insert over the entry. |
| `ConnectionRaces.AloneIsSequential` | bpf/engine.c:757-783 | Without interference the atomic steps, at most four, do to the expiry and the FINs what the sequential refresh does. |
| `ConnectionRaces.StaleSwapExtends` | bpf/engine.c:757-783 | A concrete interleaving in which such a stale comparison extends a closing entry by a day. |
| `ConnectionRaces.StaleInsertReopens` | bpf/engine.c:797-809 | A concrete interleaving in which two packets find no entry, one inserts it, the connection closes, and the other inserts over it: the tuple is open again. |
| `ConnectionRaces.UnthreatenedHolds` | bpf/engine.c:774-808 | Without such a CPU no interleaving of lookups, refreshes and insertions moves the expiry or replaces the entry. |
| `ConnectionRaces.NoNewSwappers` | bpf/engine.c:778-782 | After the second FIN nobody reaches the compare-and-swap any more. |
| `ConnectionRaces.NoNewInserters` | bpf/engine.c:797-808 | While the entry is live nobody reaches the insertion. |
| `ConnectionRaces.ClosedOnce` | bpf/engine.c:762-770 | The closing expiry is written at most once per map element, in every interleaving. |
| `FlowAccounting.AccountsBalance` | bpf/engine.c:629-688 | In every run counted decisions equal delivered events plus rate-limited plus ring-full drops. |
| `FlowAccounting.AtMostTwoWindows` | bpf/engine.c:640-648 | At most 200 events of a CPU pass the limiter in any half-open second. |
| `FlowAccounting.HundredGetPast` | bpf/engine.c:640-648 | The limiter refuses nothing before 100 events have got past it within one second. |
| `FlowAccounting.FatesMean` | bpf/engine.c:640-660 | Each fate of an event has its own counter: refused, accepted without space, accepted with space. |
| `FlowAccounting.CpuFlow.Decide` | bpf/engine.c:682-688 | Counts the decision under its own label and accounts for its event, whatever the ring does. |
| `FlowAccounting.CpuFlow.EmitFlowEvent` | bpf/engine.c:629-680 | The limiter and ring path, with unsigned subtraction, computes the accounted meter. |
| `FlowAccounting.CountersCount` | bpf/engine.c:523-536 | Each counter counts exactly the decisions of its label. |
| `FlowAccounting.IndexIsInjective` | bpf/engine.c:526-526 | No two labels share a counter. |
| `FlowAccounting.DecisionMetricLabels` | internal/enforcer/engine_linux.go:58-83 | The label list has the names of each label at the kernel's index for it. |
| `FlowAccounting.MetricsSnapshot` | internal/enforcer/engine_linux.go:366-417 | The active epoch, and every named decision and drop metric with the sum of its own counter over all CPUs; refused exactly when a sum overflows. |
| `FlowAccounting.MetricsCountDecisions` | internal/enforcer/engine_linux.go:35-83 | For whatever has been decided on however many CPUs: exactly one published metric bears the names of a reason, a direction and an action, and it is the number of such decisions; rate_limited is the number of events the limiter refused, ring_full of those that found no space. |
| `FlowAccounting.SumCounterValues` | internal/enforcer/counter_sums.go:5-14 | The sum, refused exactly when it does not fit 64 bits. |
| `Recovery.Restart` | internal/enforcer/persistence_linux.go:146-318 | Recovery accepts every recoverable state, whichever workloads have died, and opens an engine whose configuration, links and committed set are the kernel's. |
| `Recovery.EveryCrashRecovers` | internal/enforcer/persistence_linux.go:428-549 | A crash at any moment of a call restores what was committed before it or, at the next epoch, the set the call was given, with the encoding that Apply would compute; never a third state. |
| `Recovery.RecoveredEncoding` | internal/enforcer/persistence_linux.go:547-548 | The re-encoded recovered set is the encoding of whatever set was committed. |
| `Recovery.DecodedIsImage` | internal/enforcer/persistence_linux.go:457-549 | Encoding, storing as unordered map entries and decoding yields a valid set that installs the same rows. |
| `Recovery.RecoverPolicySlots` | internal/enforcer/persistence_linux.go:457-549 | Never refuses a recoverable state, and what it returns restores it; of any other state it refuses only those with a malformed entry, a used slot before the first commit, an own address without a subject, or an invalid policy, and what it returns is the decoded slot. |
| `Recovery.RuleRoundTrip` | internal/enforcer/persistence_linux.go:523-535 | A rule key decodes to a valid rule that encodes to the same key. |
| `Recovery.DecodedCounts` | internal/enforcer/persistence_linux.go:457-549 | The decoded set is within all limits. |
| `Recovery.DecodeSelfs` | internal/enforcer/persistence_linux.go:506-522 | Every address goes to its subject; it fails only if a committed bypass has none. |
| `Recovery.RecoverActiveConfig` | internal/enforcer/persistence_linux.go:428-455 | Accepts exactly a pointed record that names its own slot. |
| `Recovery.RecoverLinks` | internal/enforcer/persistence_linux.go:940-1021 | Accepts exactly when committed subjects and classifications are owned and live subjects have both pins; the rest become candidates for removal. |
| `Recovery.ValidatePinInventory` | internal/enforcer/persistence_linux.go:828-855 | Accepts exactly when every link pin has an owner. |
| `Recovery.CheckShapes` | internal/enforcer/persistence_linux.go:471-537 | Accepts exactly the maps all of whose entries, in both slots, are well formed: slot, value, cgroup, prefix length, unused bits. |
| `Recovery.FreshKernelIsSound` | internal/enforcer/engine_linux.go:498-519 | The initial maps are recoverable. |
| `Recovery.Reapply` | internal/enforcer/engine_core.go:116-122 | Applying the committed set again keeps the epoch, whatever fails. |
| `Recovery.Call` | internal/enforcer/engine_core.go:68-210 | Every call of Apply is an episode: its recorded moments begin and end where the kernel does, are recoverable and allowed, and commit the old set or the given one. |
| `Recovery.Session` | internal/enforcer/engine_core.go:408-425 | Startup and any sequence of calls, whatever fails in them, chain into one history of such episodes. |
| `OwnerCodec.OwnerRoundTrip` | internal/enforcer/persistence_linux.go:551-572 | Every stored owner is read back as it was. |
| `OwnerCodec.RecordsAreCanonical` | internal/enforcer/persistence_linux.go:551-572 | A record is believed exactly when it is the record of some storable owner. |
| `OwnerCodec.BelievedIff` | internal/enforcer/persistence_linux.go:565-572 | A record of the right sizes is believed exactly when its trimmed fields form a storable owner. |
| `OwnerCodec.BelievedMeans` | internal/enforcer/persistence_linux.go:551-572 | Byte by byte: which fixed-size records are believed. |
| `ProgramJournal.RecoverPrograms` | internal/enforcer/persistence_linux.go:759-798 | Accepts exactly the journals in which pins are registered, linked programs pinned, egress and ingress links run programs registered under their own names, and guard hooks likewise; records without a pin are stale. |
| `ProgramJournal.JournalMeans` | internal/enforcer/persistence_linux.go:990-1003 | What the check of a link's program comes to, hook by hook. |
| `ProgramJournal.Journal.Start` | internal/enforcer/persistence_linux.go:277-295 | At every step of a start the journal is acceptable; a completed start runs live egress links on the new egress program, ingress links on the ingress program, each guard hook on its own, and keeps exactly the used programs; from any acceptable journal, whatever earlier starts left in it, it completes when nothing fails. |
| `ProgramJournal.Journal.PublishPrograms` | internal/enforcer/persistence_linux.go:800-826 | Record before pin, for every program. |
| `ProgramJournal.Journal.UpdateLinks` | internal/enforcer/persistence_linux.go:1023-1054 | Every live link moves to the new program of its own hook, one at a time; dead ones stay. |
| `ProgramJournal.Journal.RetirePrograms` | internal/enforcer/persistence_linux.go:857-925 | Unpin before unregister; a live link never references a stale program; no record is left without a pin. |
| `Cleanup.Remover.RemoveEnforcement` | internal/enforcer/cleanup_linux.go:27-265 | It refuses exactly what does not verify, and then changes nothing; an empty directory is done; the first change is the flag, and every further one removes a single pin whose turn no other pin precedes (links, programs, maps, journal; foreign ones never); at every moment it can be verified and run again, and startup refuses; completion leaves exactly the foreign entries, and it completes when nothing fails and it is not refused. |
| `Cleanup.RunAgain` | internal/enforcer/cleanup_linux.go:27-265 | A removal stopped anywhere, and run again after the kernel has let go of unpinned maps that nothing pinned needs, is not refused: it completes when nothing fails and leaves exactly the foreign entries. |
| `Cleanup.Remover.RemoveAll` | internal/enforcer/cleanup_linux.go:242-264 | Links, programs, maps, journal, in this order, also when stopped anywhere; complete when nothing fails. |
| `Cleanup.InOrderVerifies` | internal/enforcer/cleanup_linux.go:142-235 | Whatever an ordered removal has got to passes the verification again as long as the journal is there, even if the kernel has let go of unpinned maps that nothing pinned needs. |
| `Cleanup.Verify` | internal/enforcer/cleanup_linux.go:77-235 | Accepts exactly the directories with a journal in which every pinned link and program is recorded and each map that vouches for it is pinned or can be reopened by identifier. |
| `Cleanup.OpenDurableMaps` | internal/enforcer/persistence_linux.go:360-426 | As startup calls it: exactly the directories with a journal, an unraised flag and every map pinned. |
| `AgentHistory.CallObeys` | internal/enforcer/engine_core.go:68-210 | A trace that commits nothing but the old and the desired set is an episode of that call. |
| `AgentHistory.CrashedCallObeys` | internal/enforcer/engine_core.go:188-206 | A crash at any moment of a call leaves an episode, too. |
| `AgentHistory.ContinuingIsLegal` | internal/enforcer/engine_core.go:420-423 | A restart is a move of the protocol: it forgets what the writer knew of the packets, and changes nothing else. |
| `AgentHistory.HistoryIsTrace` | internal/enforcer/engine_core.go:408-425 | The calls, crashes and restarts of a node, from the initialized maps on, make up one trace of recoverable states and allowed moves. |
| `AgentHistory.CommittedWasGiven` | internal/enforcer/engine_core.go:186-206 | At every moment of such a life, what is committed is a set that some call was given, or nothing before the first commit. |
| `AgentHistory.LifeGoesOn` | internal/enforcer/engine_core.go:408-425 | A life continues with any session that starts on the kernel it left. |
| `AgentHistory.LifeCutShort` | internal/enforcer/engine_core.go:188-206 | A life cut short by a crash in the middle of its last call is a life. |
| `SystemRuns.EngineStepsAreWriterSteps` | internal/enforcer/engine_core.go:68-210 | Every recorded step of every call, also across a restart, is a step the protocol allows its writer, or changes nothing that packets can see. |
| `SystemRuns.SystemRunIsRun` | bpf/engine.c:847-882 | Every interleaving of a life of the agent with packets and counter scan is a run of the commit protocol, state by state, with nothing skipped. |
| `SystemRuns.PublishedWasGiven` | internal/enforcer/engine_core.go:186-206 | In every such interleaving every set ever published, at whatever epoch, is one that Apply was given. |
| `SystemRuns.ReadersSeeGivenSets` | bpf/engine.c:857-882 | A validated packet stands on a slot that holds, completely and exactly, the set some call was given for the epoch it carries. |
| `SystemRuns.FreshKernelIsInitial` | internal/enforcer/engine_linux.go:498-519 | The initialized maps are the protocol's initial state. |
| `EndToEnd.ValidatedPacketsObeyTheirEpoch` | bpf/engine.c:847-976 | Over the whole life of a node, with failing calls, crashes, restarts and any packets in between, a validated packet is decided by the source policies of one set that Apply was given, the one its epoch published; before the first commit it passes. |
| `EndToEnd.GuardObeysItsEpoch` | bpf/engine.c:1040-1071 | The parent guard, registered on its own, passes exactly the local workloads of the snapshot that the set of its epoch was compiled from, and none before the first commit. |
| `EndToEnd.StateObeysThePolicies` | bpf/engine.c:956-970 | Over the whole life of a node, with all its packets sharing one connection table that may evict anything at any time: a packet admitted by state has an earlier packet of the same epoch, cgroup and tuple, with no allowed reset in between, that the source policies of the very set this epoch published allow by a rule. |
| `Traffic.StateGoesBackToARule` | bpf/engine.c:956-970 | In the table that all registered packets share, a decision by state goes back to an earlier decision by rule about the same tuple, cgroup and epoch. |
| `Traffic.HoldersAreInPlace` | bpf/engine.c:857-882 | Every packet with a registration stands on the slot of its epoch's parity, in a recoverable kernel state, and the rows of that slot are the ones its epoch published. |
| `Traffic.PublishedStays` | internal/enforcer/engine_core.go:186-206 | What an epoch has published stays the same through everything that happens to the system later. |

## Left out

- Parsing of packets: the parser's status and the header fields are inputs, with the guarantee that a valid packet is TCP or UDP over IPv4.
- Host-network and bootstrap exceptions of the parent guard, and the installation of its links; the exceptions are one flag, and the guard registers like any other packet, at an epoch of its own.
- Missing configuration, counter or limiter maps: array maps exist from initialization on.
- Weak memory, RCU, which entries the LRU evicts, and packets holding an entry of the connection table that has been deleted meanwhile; eviction may remove any entries at any time.
- Per-epoch copies of the decision and drop counters, whose entries the kernel may evict.
- YAML decoding, error texts, logging, Prometheus and HTTP, locks, heartbeat contents, bpffs permission checks, program tags and map compatibility.
- The moment between attaching a link and pinning it: a link counts once it is pinned, since only pinned links outlive the agent.
- Which map is full: the capacity check before population is one of its possible failures.
- Other failures than those of a sound kernel during recovery: reading maps and pins succeeds, and whether a workload is alive is an input.
- Host owners, socket namespaces and the guard's own owner records.
- Publication of the maps themselves on first start, before the ownership journal is complete; recovery is stated from initialization on.
- EngineStore.Store.WaitQuiescent: the polling loop and its counter reads are one answer here; that a pass of zero reads entitles the writer is `SlotProtocol.ZeroPassEntitles`, and `SystemRuns` lets the agent take a slot for quiet only after such a pass.
- EngineStore.Store.RememberOwner: the comparison with an identity that is already persisted is one of its possible failures.
- PacketProgram.Program.GuardPacket: the block counters per cgroup, epoch and direction are one number.
- Compiler.CompileNativePolicies: the rejected list is fixed as a set; its order and the diagnostics are not modelled.
- Recovery.RecoverActiveConfig: a pointer to a map that is neither configuration cannot be expressed.
- Recovery.RecoverLinks: the program, attach type and cgroup storage of a pinned link are not part of it; which program a link runs is the subject of `ProgramJournal`.
- Recovery.ValidatePinInventory: covers subject links; map, guard and foreign entries are not modelled, program pins are the subject of `ProgramJournal`.
- Cleanup.Verify: that a pin holds the recorded kernel object, with its program tag and attach type, is part of being recorded.
- ConnectionRaces.CloseIsFinalIff: TCP only; looking up a tuple and the first look at the expiry found are one step.

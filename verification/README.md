# WireGate: a verified model of the control plane's protocols and derived state

WireGate distributes WireGuard configurations: a server keeps agents, their peers, access policies and
enrollment tokens in a SQL store; agents poll it, rotate their keys and apply what they are sent. This project
models the parts whose correctness spans several functions, processes or rows, and proves what they keep.

| File | What it models |
|---|---|
| `KeyRotation.dfy`, `RotationProtocol.dfy`, `RotationStranding.dfy`, `PassOutcomes.dfy`, `CheckInRules.dfy` | The agent's synchronisation pass over its key, state and configuration files, and the server's check-in, as one transition system in which requests and replies are lost or late, the agent dies between any two file writes, and administrators change anything but the key |
| `ControlPlane.dfy`, `ControlPlaneSafety.dfy`, `ControlPlaneTheorems.dfy`, `OperationEffects.dfy`, `Reconciliation.dfy`, `ControlPlaneRuns.dfy`, `CheckInRefinement.dfy` | Agents, peers, policies, assignments, tokens and the runtime as one store; sixteen operations on it; the invariant each keeps; what follows over whole runs; what each does to the rows and when it is refused; runs into states the code means to rule out; and how check-ins fit the rotation protocol |
| `EnrollmentRace.dfy` | Enrollment attempts with one token, statement by statement and without a transaction |
| `PolicyService.dfy`, `ControlPlaneService.dfy` | The services themselves: loops over rows and in-place updates, each method proved to do what its operation says |
| `RollupCache.dfy` | The rollup table that is accepted on a total only, against a fresh aggregation of an append-only log |
| `ClusterLease.dfy` | The lease row and the cached leadership flags of any number of instances, step by step |
| `AuditLog.dfy`, `HashChain.dfy` | Keyset pagination and export; the hash chain over recorded events |
| `RateLimiter.dfy` | The sliding-window limiter in memory and in the database, with cleanup |
| `LogDelivery.dfy`, `Redaction.dfy` | The bounded delivery queue with its counters; redaction of nested metadata |
| `AddressAllocator.dfy`, `Sessions.dfy`, `Totp.dfy`, `Fingerprint.dfy`, `ShellQuoting.dfy`, `Backoff.dfy` | Address allocation down to the bit loop, session lifetimes, one-time codes, configuration fingerprints, shell quoting, retry delays |
| `Prelude.dfy`, `Text.dfy`, `Sorting.dfy` | Shared definitions |

`dafny verify dfyconfig.toml` checks everything.

Each service call of the control plane, each file write of an agent and each critical section or database statement
of the lease, the limiter and the log service is one atomic step. Code that updates fields, rows or files step by step
is a class or a method with loops whose contract equates the new state with a specification function; the theorems are
lemmas about those functions and about runs of them. SHA-256, HMAC, JSON encoding, the public half of a private key and
network parsing are parameters: digests hexadecimal and injective where a theorem says so, JSON objects starting with a
brace, MACs of twenty bytes. Times are integers; requests for one agent are never served after a later one.

## Where the code departs from its intent

Each of these is kept as the code has it, with the exact condition proved.

- **Address range.** `lastAddress` sets bits from byte 0 of the 16-byte form but reads bytes 12 to 15 for IPv4, so
  there it returns the network address (`LastAddressAsWritten`). The allocator therefore hands out the broadcast
  address exactly when all other hosts are held (`SearchesDifferIff`); with offset 12 it meets its intent.
- **Stranded rotation.** Promotion removes the pending key file before the state is saved. An agent is left with a
  state that names a pending key without a file exactly when it dies in between (`StrandedExactlyByDying`), which a run
  from enrollment shows (`CrashBeforeSaveStrands`); from then on the pass that should rewrite the configuration fails,
  for ever (`StrandedForEver`, `ReconfigureWritesIff`).
- **Refused rotation.** A recorded pending key that is already registered is offered again and refused, so a new
  rotation completes exactly when that is not the case (`RotationCompletesIff`).
- **Silent rotation.** The fingerprint leaves out the agent's own key: an agent whose peer is put in service before it
  hears of its rotated key is told to reconfigure only when something else differs (`SilentRotationIff`).
- **Forgotten rotation.** Any refresh of a peer row turns a pending rotation back into a planned peer, and so does
  reconciling it, with no new key; `RotationForgottenIff` lists exactly what forgets a request.
- **Agents enabled again.** The server does not take the reported status "disabled" for a reason to reconfigure, so an
  agent enabled again whose peer is put in service before it checks in stays down until its configuration changes
  (`EnabledAgentStaysDownIff`).
- **Disabled agents.** `MarkAgentRotationPending` accepts a disabled agent and overwrites its peer's disabled status,
  after which the peer can be reconciled into service (`DisabledPeerLeavesIff`, `DisabledAgentIsForwarded`).
- **Hostnames.** The lookup by hostname returns any one row. After a revocation it may return the revoked agent while a
  live one has the name, and a second live agent gets it: exactly when both have it (`MayDuplicateIff`), as a run from
  the empty store shows (`TwoLiveAgentsShareHostname`).
- **Padded actions.** A state change request trims its action before changing the state, but decides on the untrimmed
  text whether to take the peer out of the runtime, so `" disable"` leaves a disabled peer served. The runtime is free
  of disabled and revoked peers throughout a run exactly when no state change left one behind
  (`RuntimeHoldsLivePeersIff`, `DisabledPeerStillServed`).
- **Single use of tokens.** Whole enrollments use a token once (`TokenEnrollsOnce`). The code marks the token last and
  without a transaction, so attempts that overlap or fail half-way may create more agents; `SingleUseIff` says exactly
  from when on that is ruled out.
- **Leadership flag.** `IsLeader` reports a flag that nothing lowers when the lease runs out, so another instance's tick
  raises a second one exactly when the lease has run out (`BareFlagsOverlap`, `TickOverlapsIff`); flag and cached expiry
  together are exclusive (`AtMostOneLeads`).
- **Queue depth.** A worker overtaking an emitter's count clamps the depth at zero, and the depth over-reports by one
  from then on (`OvertakenCountStays`); it equals the queue exactly when nothing was clamped (`DepthNeverUnderReports`).
- **Hash chain.** The previous hash is that of the latest row by time and id, so the log is a chain in recording order
  exactly when its events but the last were recorded in that order (`ChainIffInOrder`).
- **Empty fingerprints.** A configuration without allowed addresses, interface address or server key has no fingerprint,
  so an agent is told of a difference exactly when the desired configuration has them all
  (`ReconfigureIffDifferent`); losing the last allowed address goes unreported (`RevokedAccessIsNotReported`).

## Model

| member | source | states |
|---|---|---|
| RotationProtocol.RegisteredKeyNeverLost | agent/linux/sync.go:26-154 | In every state of every run from enrollment, with requests lost or late, replies lost, administrators at work and the agent dying between any two writes, the registered public key is the public half of the primary or of the pending key file |
| RotationProtocol.EveryConfigMatchesItsReply | agent/linux/sync.go:64-83 | Over whole runs, the configuration on disk holds the private key whose public half is the peer key of the reply that triggered the write |
| RotationProtocol.StepKeepsInv | agent/linux/sync.go:121-154 | The relation between key files, saved state, outstanding requests and registered key that every step keeps, including the safety of dying at each remaining write |
| RotationProtocol.ReconfigureWritesIff | agent/linux/sync.go:144-154 | A reconfiguring pass writes the configuration, with the key it names, unless the recorded pending key is registered and its file is gone |
| RotationStranding.CrashBeforeSaveStrands | agent/shared/client/client.go:243-261 | From every enrolled agent of which a rotation is requested, one undisturbed pass and a second one that dies after removing the pending file lead to a stranded, idle agent |
| RotationStranding.StrandedExactlyByDying | agent/shared/client/client.go:243-261 | After any run from enrollment, an idle agent is stranded exactly when on the way it died between removing the pending file and saving the state |
| RotationStranding.OffCourseIff | agent/linux/sync.go:64-85 | No other step, of the agent, the network, the server or an administrator, leaves a state that names a pending key without its file |
| RotationProtocol.StrandedForEver | agent/linux/sync.go:144-150 | From there the agent never writes its configuration or primary key again, whatever happens |
| RotationProtocol.RotationCompletesIff | internal/enrollment/service.go:1177-1200 | From any reachable idle state with a rotation requested, two undisturbed passes rotate to the offered key exactly when the recorded pending key is not already the registered one; else nothing changes on the server |
| RotationProtocol.SilentRotationIff | internal/enrollment/service.go:730-746 | When the peer is in service before the agent learnt that its new key is registered, a clean pass moves to that key exactly when a failed or drifted status or a different fingerprint is reported; else the old key stays configured |
| PassOutcomes.DisabledPassTakesDown | agent/linux/sync.go:40-51 | A disabled agent whose check-in is answered takes its tunnel down and reports so, or that it could not, and writes neither key nor configuration |
| PassOutcomes.DisabledAgentIsAnsweredIff | internal/enrollment/service.go:1177-1200 | A disabled agent's check-in is refused exactly when a pending rotation is offered a malformed, repeated or taken key |
| PassOutcomes.DisabledAgentNeverReconfigures | internal/enrollment/service.go:776-781 | Over whole runs in which it stays disabled or revoked, with replies lost and crashes anywhere, an agent never writes its configuration or a key |
| PassOutcomes.RevokedPassChangesNothing | internal/enrollment/service.go:554-559 | A revoked agent gets no answer, and its pass changes nothing but the status it remembers |
| PassOutcomes.RefreshReports | agent/linux/runtime_state.go:21-41 | The refresh reports an applied configuration exactly when file and interface are as applied, and drift otherwise |
| PassOutcomes.StagedUntilTouched | agent/linux/runtime_state.go:97-120 | A staged configuration stays staged while its file is untouched |
| PassOutcomes.ConfigWrittenIff | internal/enrollment/service.go:730-746 | For a served agent without a pending key, a pass writes the server's configuration, and records how that went, exactly when it reports a failure, drift or another fingerprint; else it writes nothing |
| PassOutcomes.DriftIsRepairedAndSettles | agent/linux/sync.go:26-85 | One working pass repairs drift, and while the machine is undisturbed the next one changes nothing at all |
| PassOutcomes.FailedApplyKeepsBothKeys | agent/linux/sync.go:64-82 | A failed apply with a new key leaves both key files and the recorded pending key |
| PassOutcomes.EnabledAgentStaysDownIff | internal/enrollment/service.go:730-746 | An agent enabled again whose peer is in service before its check-in stays down exactly when its configuration has not changed |
| PassOutcomes.EnabledAgentComesUp | internal/enrollment/service.go:730-746 | While its peer is still planned, an enabled agent comes up on its next pass |
| PassOutcomes.PassSavesIff | agent/linux/sync.go:26-85 | Every pass ends with saving the state, whatever fails, but the one told to reconfigure under a pending key without a file, which writes nothing |
| PassOutcomes.UnansweredPassKeeps | agent/linux/sync.go:33-39 | Without an answer a pass saves what it found and writes nothing else |
| PassOutcomes.UnwrittenKeyIsNotNamed | agent/linux/sync.go:52-63 | When the new rotation key cannot be written, the agent's state names none |
| PassOutcomes.UnwrittenConfigIsReported | agent/linux/sync.go:67-74 | A configuration that cannot be rendered or written leaves the old one, and is reported as failed under its fingerprint |
| PassOutcomes.KeyTakesOverWithoutConfig | agent/linux/sync.go:64-85 | A new key is promoted even when there is no configuration to write |
| CheckInRefinement.CheckInIsServed | internal/enrollment/service.go:538-613 | An authentic check-in succeeds in the store exactly when the rotation protocol's server answers it, and leaves the same server behind |
| CheckInRefinement.ReplyTellsState | internal/enrollment/service.go:594-603 | The reply names the stored key, asks for shutdown exactly when the agent is disabled, and for a rotation exactly when one is pending |
| CheckInRefinement.ReconfigureToldIff | internal/enrollment/service.go:730-746 | When an agent of the store is told to reconfigure: disabled and not reporting so, peer not in service, failed or drifted, or another fingerprint |
| CheckInRefinement.OnlyCheckInChangesKey | internal/enrollment/service.go:1177-1200 | Every operation but the agent's own check-in leaves its registered key alone |
| RotationProtocol.WritesRunOut | agent/linux/sync.go:26-85 | Performing the writes of a pass one by one ends in the same files as replaying them all |
| KeyRotation.AgentProcess.SyncOnce | agent/linux/sync.go:26-100 | Whatever the machine does and wherever the process dies, the files hold exactly a prefix of the pass's writes, all of them if it lives |
| KeyRotation.AgentProcess.FollowReply | agent/linux/sync.go:34-85 | The branches on failure, disabled, rotation required and reconfigure required perform the writes of the specification |
| KeyRotation.AgentProcess.EnsurePendingRotationKey | agent/linux/sync.go:121-142 | Reuses a recorded key, else an existing pending file, else creates one |
| KeyRotation.AgentProcess.PromotePendingPrivateKey | agent/shared/client/client.go:243-261 | Primary overwritten, pending removed, state updated, in that order, each failure leaving the rest undone |
| KeyRotation.AgentProcess.WriteAndApplyConfig | agent/linux/runtime_state.go:43-79 | Nothing without a configuration; a failed render or write leaves the files and records the failure; else the file is written and the outcome recorded |
| KeyRotation.AgentProcess.Reconfigure | agent/linux/sync.go:64-82 | Picks the key by comparing the reply with the recorded pending key, writes, applies, and promotes only after a successful apply with the pending key |
| Backoff.RunLoop | agent/linux/sync.go:156-190 | The delay after each pass is the interval after a success and the backoff of the number of failures in a row otherwise |
| Backoff.TrailingCountsIff | agent/linux/sync.go:156-190 | The count of failures in a row: that many passes failed, and the one before them succeeded |
| Backoff.ComputeBackoffDelay | agent/linux/sync.go:205-221 | The doubling loop gives failure * 2^(n-1) capped at the maximum |
| Backoff.DelayBounds | agent/linux/sync.go:205-221 | Delays never shrink while failures go on and stay between the first backoff and the maximum |
| Backoff.DelayDoubles | agent/linux/sync.go:205-221 | The first failure waits the first backoff and each further one twice as long, until the maximum |
| Backoff.ResolveDurations | agent/linux/sync.go:192-203 | The durations used are positive and ordered, those given are kept when they are, and five and sixty seconds stand in for missing ones |
| ControlPlaneTheorems.StoredIntentMatchesSimulation | internal/policy/service.go:570-679 | After every sequence of operations from the empty store, a peer's stored AllowedIPs are what SimulatePolicyIntent answers for its agent without overrides |
| ControlPlaneTheorems.SimulationPredicts | internal/policy/service.go:570-629 | Simulating an agent with its policies and some more gives exactly what bulk-assigning them then stores |
| OperationEffects.RenderingReaches | internal/policy/service.go:705-718 | Address by address: everything under a full tunnel by override or, without one, by some policy; else exactly what the policies list |
| OperationEffects.UpdatePolicyStores | internal/policy/service.go:218-268 | When an update succeeds; that it stores the mode and exactly the canonical networks given, leaves all other rows alone, and gives each assigned agent's peer the rendering under the new row |
| OperationEffects.CreatePolicyStores | internal/policy/service.go:125-166 | When a policy is created, and that it holds the mode and exactly the canonical networks given |
| OperationEffects.OverrideIsStored | internal/policy/service.go:631-654 | The given override is the one stored, the peer gets its rendering, and no other row changes |
| OperationEffects.SimulatedOverridePredicts | internal/policy/service.go:570-654 | Simulating an override tells what setting it stores |
| OperationEffects.AssignmentsBecome | internal/policy/service.go:285-417 | What one agent's assignments become, every other agent's staying as they are |
| OperationEffects.AssignSucceedsIff | internal/policy/service.go:285-330 | A policy is assigned exactly when it and the agent exist and it is not assigned yet |
| OperationEffects.UnassignSucceedsIff | internal/policy/service.go:332-374 | And unassigned exactly when it is assigned |
| OperationEffects.SimulationFailsIff | internal/policy/service.go:570-629 | Simulation fails exactly when given nothing to go by, or an agent or policy that does not exist |
| ControlPlaneSafety.ReachableInv | internal/enrollment/service.go:399-535 | Every store reached from the empty one is consistent (rows refer to rows that exist, states agree, keys and addresses distinct, tokens used once) and has every peer row equal to its rendering |
| ControlPlaneSafety.StepKeepsInv | internal/enrollment/service.go:1036-1200 | Each of the sixteen operations keeps that invariant |
| ControlPlaneSafety.RefreshMakesCurrent | internal/policy/service.go:656-679 | Refreshing the rows that a change may touch makes every row current again |
| ControlPlaneSafety.UpdatePolicyKeeps | internal/policy/service.go:218-268 | Changing a policy and refreshing the agents assigned to it leaves no row outdated |
| ControlPlaneSafety.EnrollKeeps | internal/enrollment/service.go:399-535 | An enrollment gives a distinct key and address, spends its token, and stores the rendering of the token's policies |
| ControlPlaneSafety.CheckInKeeps | internal/enrollment/service.go:538-613 | A check-in that completes a rotation keeps all keys distinct |
| ControlPlaneTheorems.ReachableStates | internal/enrollment/service.go:1036-1114 | In every reachable store an agent is revoked exactly when its peer is, with no address and no auth hash; public keys and addresses are pairwise distinct; each token created at most one agent |
| OperationEffects.RevokeMakesGone | internal/enrollment/service.go:1078-1107 | Revoking succeeds on every live agent and leaves neither token hash nor address |
| OperationEffects.TokenRevocationStores | internal/enrollment/service.go:366-385 | A token is revoked exactly while it could still enroll somebody, and nothing else changes |
| OperationEffects.ReissueSucceedsIff | internal/enrollment/service.go:1116-1147 | A replacement token is issued exactly for a revoked agent, under an unused id |
| OperationEffects.StateChangesSucceedIff | internal/enrollment/service.go:1036-1114 | Disabling needs an enrolled agent, enabling a disabled one, and reconciling a peer neither disabled nor revoked |
| OperationEffects.ReconcilePutsInService | internal/reconcile/service.go:204-253 | Reconciling makes the peer active and its runtime entry what its row says, and nothing else |
| OperationEffects.EnrollmentStoresRow | internal/enrollment/service.go:463-495 | The new peer holds the given key and, under a configured range, the least address of the range that is neither skipped nor held by a peer not revoked |
| OperationEffects.EnrollmentSucceedsIff | internal/enrollment/service.go:405-470 | An enrollment succeeds exactly with a well-formed key no peer has, a token neither revoked, used, expired nor bound elsewhere, no live agent found under the name, and an address left |
| OperationEffects.ExpiredTokenIsRefused | internal/enrollment/service.go:430-433 | A token past its expiry enrolls nobody |
| OperationEffects.IssuedTokenGrants | internal/enrollment/service.go:251-319 | A token issued for policies, a hostname and a time enrolls for exactly those |
| OperationEffects.CheckInSucceedsIff | internal/enrollment/service.go:538-559 | A check-in succeeds exactly with the agent's own token hash, while it is not revoked, and unless a pending rotation is offered a key the server cannot take |
| OperationEffects.CheckInStores | internal/enrollment/service.go:1177-1200 | It stores the offered key as planned if a rotation was pending, and changes nothing else |
| OperationEffects.RotateMarks | internal/enrollment/service.go:1149-1175 | Marking succeeds on every live agent and changes nothing but the peer's state |
| OperationEffects.RotationForgottenIff | internal/policy/service.go:671-675 | A requested rotation is forgotten, the peer keeping its key, exactly when the agent's policies, override or state change or its peer is reconciled first |
| ControlPlaneTheorems.RevocationIsFinal | internal/enrollment/service.go:1078-1107 | A revoked agent stays revoked over every run, without address or auth hash, and every check-in of it is refused whatever token it presents |
| ControlPlaneTheorems.RevokedStaysOut | internal/reconcile/service.go:204-214 | A revoked agent's peer that is out of the runtime never comes back to it |
| ControlPlaneTheorems.TokenEnrollsOnce | internal/enrollment/service.go:399-515 | After a successful enrollment no later one with the same token succeeds, whatever happens in between |
| EnrollmentRace.SingleUseIff | internal/enrollment/service.go:421-515 | Statement by statement: from some point on a token can create at most one agent exactly when it is closed there and at most one attempt has inserted its agent or stands between its check and its insertion |
| EnrollmentRace.FailedAttemptLeavesToken | internal/enrollment/service.go:491-515 | An undisturbed attempt secures the token; one that fails after inserting its agent does not |
| ControlPlaneTheorems.RevokedTokenNeverEnrolls | internal/enrollment/service.go:366-396 | A revoked token never enrolls an agent, whatever happens after its revocation |
| ControlPlaneTheorems.UnassignUndoesAssign | internal/policy/service.go:285-374 | Unassigning a just assigned policy restores every row, but that a peer in service is planned anew |
| ControlPlaneTheorems.EnableUndoesDisable | internal/enrollment/service.go:1051-1077 | Enabling a just disabled agent restores the store, but that its peer is planned anew and no longer in the runtime if the caller removed it |
| ControlPlaneTheorems.DisableShuts | internal/enrollment/service.go:1051-1066 | Disabling shuts the agent and its peer together, and takes the peer out of the runtime exactly when the caller does |
| ControlPlaneTheorems.DisabledPeerLeavesIff | internal/enrollment/service.go:1149-1175 | A disabled agent's peer leaves the disabled state exactly by being marked for rotation |
| ControlPlaneTheorems.DisabledUnlessRotated | internal/enrollment/service.go:1051-1066 | Without enable, revoke or rotate, a disabled agent's peer stays disabled over every run, cannot be reconciled and does not come back to the runtime |
| ControlPlaneTheorems.DisabledAgentIsForwarded | internal/reconcile/service.go:204-233 | Marking a disabled agent for rotation and reconciling puts its peer into service while the agent stays disabled |
| ControlPlaneTheorems.EnrollKeepsHostnamesIff | internal/enrollment/service.go:444-450 | A successful enrollment keeps the hostnames of live agents distinct exactly when no live agent had the hostname |
| ControlPlaneTheorems.LookupMayPassIff | internal/persistence/agentrepo/agentrepo.go:106-122 | The hostname lookup may let an enrollment pass exactly when no live agent or some revoked agent has the hostname |
| ControlPlaneTheorems.MayDuplicateIff | internal/enrollment/service.go:444-450 | An enrollment that everything but the hostname check admits may duplicate a live hostname, on some lookup result, exactly when both a live and a revoked agent have it |
| ControlPlaneRuns.TwoLiveAgentsShareHostname | internal/enrollment/service.go:444-450 | Whatever the names, a run from the empty store ends with two live agents of one hostname: enroll, revoke, enroll again, and enroll again on the revoked row |
| ControlPlaneTheorems.FreshHostnameStaysUnique | internal/enrollment/service.go:444-450 | A hostname that no revoked agent has is never enrolled twice |
| ControlPlaneTheorems.EnrollmentGrants | internal/enrollment/service.go:497-511 | A new agent gets exactly its token's policies and their rendering, under the bound hostname if there is one |
| ControlPlaneTheorems.ReissueRestoresPolicies | internal/enrollment/service.go:1116-1147 | The agent enrolled with a reissued token has the revoked agent's hostname and assignments, and their rendering without its override |
| ControlPlaneService.Service.UpdatePolicy | internal/policy/service.go:218-268 | The update and the refresh loop over the assigned agents do to the tables what the operation says, and keep the invariant |
| ControlPlaneService.Service.CreatePolicy | internal/policy/service.go:125-166 | Inserts the normalized policy or fails, as the operation says |
| ControlPlaneService.Service.AssignPolicy | internal/policy/service.go:285-330 | Inserts the assignment and refreshes the row, or fails with the operation's error |
| ControlPlaneService.Service.UnassignPolicy | internal/policy/service.go:332-374 | Removes the assignment and refreshes the row, or fails with the operation's error |
| ControlPlaneService.Service.AssignPoliciesToAgent | internal/policy/service.go:376-417 | The loop inserts exactly the missing assignments, then refreshes once |
| ControlPlaneService.Service.SetAgentTrafficModeOverride | internal/policy/service.go:631-654 | Stores the override and refreshes the row |
| ControlPlaneService.Service.SimulatePolicyIntent | internal/policy/service.go:570-629 | Answers the rendering of the requested or current policies under the given or stored override, or the right error, and changes nothing |
| ControlPlaneService.Service.RefreshPeerIntentForAgent | internal/policy/service.go:656-679 | Rewrites one row to its rendering, an active or rotation-pending peer becoming planned, and nothing else |
| ControlPlaneService.Service.ValidatePolicyIDs | internal/policy/service.go:270-283 | Comparing the number of rows found with the number of distinct trimmed ids tells whether all exist |
| ControlPlaneService.Service.PerformEnrollment | internal/enrollment/service.go:399-535 | Lookups, checks in order, allocation, inserts, assignment and the token's use together are the enrollment operation |
| ControlPlaneService.Service.AllocatePeerAddress | internal/enrollment/service.go:642-691 | Collecting the addresses of live peers and searching gives the least free address of the range |
| ControlPlaneService.Service.CheckInAgent | internal/enrollment/service.go:538-613 | Authentication by hash, then completion of a pending rotation, as the operation says |
| ControlPlaneService.Service.CompleteRotationOf | internal/enrollment/service.go:1177-1200 | The database lookup by key decides as the rule over all other peers' keys does |
| ControlPlaneService.Service.ChangeAgentState | internal/enrollment/service.go:1036-1114 | Disable, enable and revoke change both rows as the operations say |
| ControlPlaneService.Service.MarkAgentRotationPending | internal/enrollment/service.go:1149-1175 | Marks the peer unless the agent is revoked |
| ControlPlaneService.Service.ReconcilePeer | internal/reconcile/service.go:204-253 | Applies the stored intent to the runtime and activates the peer unless it is disabled or revoked |
| PolicyService.Render | internal/policy/service.go:528-568 | Override, mode loop and union loop over the policies' rows give the rendering of the set |
| PolicyService.RenderAllowedIPs | internal/policy/service.go:705-718 | The union loop gives the sorted distinct destinations, or everything under a full tunnel |
| PolicyService.EffectiveTrafficMode | internal/policy/service.go:816-826 | The override wins; else full tunnel exactly when some policy asks for it |
| PolicyService.NormalizeDestinations | internal/policy/service.go:746-767 | The sorted canonical networks, or failure exactly when one does not parse or none is left |
| ControlPlane.UniqueSorted | internal/policy/service.go:769-788 | The loop with its seen set and the sort give the one sorted list of the distinct trimmed non-empty values |
| Reconciliation.InSyncIff | internal/reconcile/service.go:293-308 | A peer counts as in sync exactly when the runtime holds the same addresses in any order |
| Reconciliation.CountDrifted | internal/reconcile/service.go:255-279 | The counting loop of the summary |
| Reconciliation.DriftedIff | internal/reconcile/service.go:293-308 | What the summary counts: rows whose addresses differ from the runtime's as multisets |
| Reconciliation.SyncedStays | internal/reconcile/service.go:204-253 | A peer in sync stays so under every operation that neither changes its own agent's intent nor takes it out of the runtime |
| Reconciliation.RemovalSyncedIff | internal/api/agents.go:308-320 | A peer taken out of the runtime by a disable or revoke is in sync exactly when it has nothing to route |
| Reconciliation.ReachableRuntimeCurrent | internal/reconcile/service.go:204-233 | In every reachable store a peer in service is in the runtime with exactly its registered key and its stored addresses |
| Reconciliation.StepKeepsLiveIff | internal/api/agents.go:293-320 | From a store whose runtime holds no disabled or revoked peer, an operation leads to another exactly when it does not shut a served peer without its caller removing it |
| Reconciliation.RuntimeHoldsLivePeersIff | internal/api/agents.go:293-320 | Throughout a run the runtime holds no disabled or revoked peer exactly when no state change of the run left one behind |
| ControlPlaneRuns.DisabledPeerStillServed | internal/api/agents.go:293-320 | A run from the empty store to a disabled agent whose peer is still served, through an action text with white space around it |
| ControlPlaneService.Service.PatchAgentState | internal/api/agents.go:284-320 | The request changes the state its trimmed action names, and removes the runtime peer exactly when the action came without white space |
| Reconciliation.ReconcileSyncs | internal/reconcile/service.go:204-253 | A successful reconciliation puts a peer in sync |
| RollupCache.CacheIsTransparent | internal/analytics/service.go:179-214 | After any mix of appended events and earlier requests, every request answers the trend of the current log |
| RollupCache.SecondRequestHits | internal/analytics/service.go:179-214 | Asked again before another event, a request finds what the first one left, answers the same and rebuilds nothing |
| RollupCache.ReplacedExactly | internal/persistence/analyticsrepo/analyticsrepo.go:292-322 | After a replacement the range holds the given points and nothing else, and everything outside it is as it was |
| RollupCache.FreshSeriesIsExact | internal/analytics/service.go:302-336 | When no cell is ahead of the log, a series accepted on length, bucket presence and total equals the fresh aggregation bucket by bucket |
| RollupCache.RunKeepsNeverAhead | internal/persistence/analyticsrepo/analyticsrepo.go:292-322 | Over every run no stored cell exceeds the number of events in its bucket |
| RollupCache.EqualTotals | internal/analytics/service.go:302-321 | Two series, one nowhere above the other, with equal totals are equal |
| RollupCache.BucketsPartition | internal/analytics/service.go:256-270 | The buckets partition the range: their counts add up to the count of the whole range |
| RollupCache.ResolvedRangesAreAligned | internal/analytics/service.go:216-233 | Every range accepted consists of whole buckets and reaches past now |
| RollupCache.ResolvedRangeCovers | internal/analytics/service.go:216-233 | Which keys are accepted, and that they stand for 24 hours, 7 or 30 days up to the bucket of now |
| RollupCache.ResolvedAuditRangesAreAligned | internal/analytics/service.go:235-254 | The same for audit ranges with a bucket override |
| RollupCache.AuditRangeCovers | internal/analytics/service.go:235-254 | Which pairs of range and bucket are accepted, and that whole days are counted from the day in which the range starts to today |
| RollupCache.EventCountsIff | internal/analytics/service.go:276-284 | An event adds to a count exactly when it lies in the range and, for the security metric, its action begins with a listed prefix |
| RollupCache.SelectedCount | internal/persistence/analyticsrepo/analyticsrepo.go:75-104 | Counting the loaded events by bucket floor is counting the log between the bucket's bounds |
| RollupCache.AggregateTrend | internal/analytics/service.go:286-300 | The pass through the bucket index counts each event in its bucket |
| RollupCache.RollupSeriesFresh | internal/analytics/service.go:302-321 | The loops decide exactly length, presence of every bucket and total |
| RollupCache.MapRollupSeries | internal/analytics/service.go:323-336 | The stored value of each bucket, zero without one, in range order |
| RollupCache.BuildRangeSpec | internal/analytics/service.go:256-270 | The points are the consecutive bucket starts |
| RollupCache.RowsInOrder | internal/persistence/analyticsrepo/analyticsrepo.go:258-290 | The selected rows by ascending bucket start |
| RollupCache.AnalyticsService.LoadOrBuildAuditTrend | internal/analytics/service.go:179-214 | The whole request: state and answer are the specified ones, and exact when no cell is ahead |
| RollupCache.DoKeepsNeverAhead | internal/persistence/analyticsrepo/analyticsrepo.go:292-322 | Neither an appended event nor a request ever puts a stored cell ahead of the number of events in its bucket |
| RollupCache.AnalyticsService.CountAuditEvents | internal/persistence/analyticsrepo/analyticsrepo.go:241-256 | Counts the log in the range |
| RollupCache.AnalyticsService.LoadSelectedEvents | internal/persistence/analyticsrepo/analyticsrepo.go:75-104 | The events since the start that the metric selects |
| RollupCache.AnalyticsService.LoadRollupSeries | internal/persistence/analyticsrepo/analyticsrepo.go:258-290 | The rows of the range in order |
| RollupCache.AnalyticsService.ReplaceRollupSeries | internal/persistence/analyticsrepo/analyticsrepo.go:292-322 | Deletes the range and inserts the points, leaving the other rows |
| RollupCache.AnalyticsService.Rebuild | internal/analytics/service.go:195-206 | Loading and aggregating gives the trend of the log |
| ClusterLease.AtMostOneLeads | internal/cluster/service.go:85-112 | In every interleaving of write, read-back and cache update on a shared clock, with failing ticks and restarts, at most one instance has the flag up with an unexpired cached lease, and the row names it |
| ClusterLease.OverlapIsStale | internal/cluster/service.go:114-121 | Two flags up together mean that one of the cached leases has expired |
| ClusterLease.BareFlagsOverlap | internal/cluster/service.go:114-121 | The flag alone is not exclusive: a run in which two instances have it |
| ClusterLease.TickOverlapsIff | internal/cluster/service.go:85-121 | While one instance has its flag up and holds the row, an undisturbed tick of another raises a second flag exactly when the lease has run out at that time |
| ClusterLease.FailedTicksKeepFlag | internal/cluster/service.go:85-112 | Only the end of a completed tick or a restart moves an instance's cached lease: over any run without them it stays |
| ClusterLease.WriteKeepsBacked | internal/persistence/clusterrepo/clusterrepo.go:37-69 | A conditional write neither takes an unexpired lease from another instance nor shortens one, truncation to seconds included |
| ClusterLease.RunKeepsInv | internal/cluster/service.go:85-112 | The invariant over runs: each cached or read lease is backed by the row until it expires |
| ClusterLease.LeaseRepo.TryAcquireLease | internal/persistence/clusterrepo/clusterrepo.go:37-69 | Acquired exactly when the row names the caller; a refusal leaves an unexpired row as it was |
| ClusterLease.Service.Tick | internal/cluster/service.go:85-112 | An undisturbed tick caches what the row holds, or leaves the cache when the heartbeat fails |
| AuditLog.ExportNDJSON | internal/audit/export.go:26-84 | On an unchanged table the page loop terminates having written exactly the rows of the one sorted query, and counts them |
| AuditLog.ExportIsComplete | internal/audit/export.go:39-82 | The export is every matching event, each once, by descending time and id |
| AuditLog.ListedFields | internal/persistence/auditrepo/auditrepo.go:115-126 | A listed event has the filter's fields, a filter on an event's own fields lists it, and an empty one lists everything |
| AuditLog.PageIsSlice | internal/persistence/auditrepo/auditrepo.go:99-190 | The keyset query at the cursor of the k-th row returns the listing from there on |
| AuditLog.BeyondIsSuffix | internal/persistence/auditrepo/auditrepo.go:127-145 | The keyset condition selects exactly the rows after the cursor's |
| AuditLog.QueryCorrect | internal/persistence/auditrepo/auditrepo.go:99-190 | A filtered sorted query returns each row that satisfies its condition once, newest first |
| AuditLog.ListPage | internal/persistence/auditrepo/auditrepo.go:99-190 | A page is the newest rows beyond the cursor up to the limit; there is a next cursor exactly when more are left, and what lies beyond it is exactly what the page left out |
| AuditLog.LikeIsPrefix | internal/persistence/auditrepo/auditrepo.go:104-114 | A prefix filter free of wildcards selects exactly the actions beginning with it, ignoring ASCII case under SQLite |
| AuditLog.ListedByAction | internal/persistence/auditrepo/auditrepo.go:104-114 | A trailing star or dot lists exactly the actions below the prefix, and any other filter exactly the action it names |
| AuditLog.NextPage | internal/audit/service.go:115-164 | One step of the loop returns the page after the first k rows |
| HashChain.LastHashDeterminesLog | internal/audit/service.go:58-104 | Under an injective digest two valid chains with the same last hash are the same log |
| HashChain.ChainIffInOrder | internal/persistence/auditrepo/auditrepo.go:76-91 | A log built by Record is a valid chain exactly when its events but the last were recorded in the order of their times and ids |
| HashChain.OrderedLogIsChain | internal/persistence/auditrepo/auditrepo.go:76-91 | Events recorded with times that never go back, and by id at equal times, form a chain in the order of recording |
| HashChain.ClockGoingBackBreaksChain | internal/persistence/auditrepo/auditrepo.go:76-91 | One event recorded after a later one, and followed by another, breaks it |
| HashChain.SplitIsUnambiguous | internal/audit/service.go:166-196 | The hashed text splits into previous hash and payload in one way only |
| HashChain.HashDeterminesEvent | internal/audit/service.go:166-196 | An event hash determines the event and the previous hash |
| HashChain.AuditService.Record | internal/audit/service.go:58-104 | Appends the event with the latest row's hash and its own |
| HashChain.AuditService.FindLatestHash | internal/persistence/auditrepo/auditrepo.go:76-91 | The hash of a row than which no row with a hash is newer by time and id; empty exactly when no row has one |
| RateLimiter.LimitersAgree | internal/api/rate_limit_db.go:28-49 | On every trace with non-decreasing times, with cleanups anywhere, both limiters take the specified decisions |
| RateLimiter.WindowBound | internal/api/sessions.go:75-95 | At most maxN attempts of a key are admitted in every window |
| RateLimiter.RefusalIsForced | internal/api/sessions.go:75-95 | A refusal means that maxN admitted attempts lie in the window before it |
| RateLimiter.MemoryDecides | internal/api/sessions.go:75-95 | Dropping old entries never changes a decision of the in-memory form |
| RateLimiter.DbDecides | internal/persistence/ratelimitrepo/ratelimitrepo.go:23-54 | Cleanup never changes a decision of the database form, as the retention is at least the window |
| RateLimiter.MemoryRateLimiter.Allow | internal/api/sessions.go:75-95 | The filtering loop and the rewrite of the key's attempts |
| RateLimiter.DbRateLimiter.Allow | internal/api/rate_limit_db.go:28-49 | Count, then record when below the limit |
| RateLimiter.DbRateLimiter.Count | internal/persistence/ratelimitrepo/ratelimitrepo.go:23-32 | Counts the key's entries after the window start |
| RateLimiter.DbRateLimiter.CleanUp | internal/persistence/ratelimitrepo/ratelimitrepo.go:46-54 | Deletes exactly the entries older than five minutes |
| RateLimiter.CleanupDeletesIff | internal/persistence/ratelimitrepo/ratelimitrepo.go:46-54 | An entry is deleted exactly when it is more than five minutes old |
| LogDelivery.NoEventIsLost | internal/logging/service.go:219-238 | Under every interleaving each sink's matched events are those to be offered, queued, in delivery, delivered, failed or dropped, and the queue keeps to its capacity |
| LogDelivery.ServedInOrder | internal/logging/service.go:591-597 | Events are served in the order in which they were sent, those not yet served being the queue |
| LogDelivery.OutcomesAreCounted | internal/logging/service.go:799-851 | The delivered and failed counters are the deliveries that succeeded and those that failed |
| LogDelivery.RouteTakesIff | internal/logging/service.go:569-589 | A route takes the events of its categories at its severity and above, and none below |
| LogDelivery.UnknownLevelTakenIff | internal/logging/service.go:569-589 | An event or route of an unknown severity: taken exactly by the routes whose own severity is unknown |
| LogDelivery.DepthNeverUnderReports | internal/logging/service.go:777-786 | With no emitter between send and count, the reported depth is the queue plus one not yet discounted plus the updates ever clamped |
| LogDelivery.OvertakenCountStays | internal/logging/service.go:777-786 | A run after which an idle, empty queue reports depth one |
| LogDelivery.StepKeepsAccounts | internal/logging/service.go:591-612 | Every step of an emitter or the worker keeps both balances |
| LogDelivery.QueueIsBounded | internal/logging/service.go:219-238 | The queue never exceeds its capacity |
| LogDelivery.MatchingSinks | internal/logging/service.go:569-589 | Each enabled sink that some enabled route selects, once |
| LogDelivery.DeliverWithRetry | internal/logging/service.go:599-612 | Delivered exactly when one of the first retries+1 attempts succeeds, stopping there |
| LogDelivery.SettleKeepsAccounts | internal/logging/service.go:777-797 | Counting a send or a drop, clamped or not, keeps both balances |
| LogDelivery.WorkerKeepsAccounts | internal/logging/service.go:591-612 | Taking, discounting and delivering an event, with either outcome, keeps both balances |
| Redaction.RedactionHidesExactly | internal/logging/service.go:730-765 | Two values redact to the same exactly when they agree outside sensitive keys |
| Redaction.OpenPathsAreKept | internal/logging/service.go:730-765 | Along paths without sensitive keys the keys, list lengths and leaves are unchanged |
| Redaction.SensitiveKeysAreHidden | internal/logging/service.go:730-765 | Every value under a sensitive key at any depth is replaced, and nothing below it remains |
| Redaction.RedactionIsIdempotent | internal/logging/service.go:730-765 | Redacting twice is redacting once |
| Redaction.ShouldRedactKey | internal/logging/service.go:767-775 | The loop finds out whether the lower-cased trimmed key contains a listed field |
| Redaction.SensitiveIff | internal/logging/service.go:767-775 | A key is sensitive exactly when a listed field stands somewhere in it, in any case |
| Redaction.FiveWordsDecide | internal/logging/service.go:767-775 | Five of the eleven listed fields decide sensitivity |
| AddressAllocator.AllocatePeerAddress | internal/enrollment/service.go:642-691 | As intended: the least host address no live peer holds and that is not the IPv4 broadcast, none exactly when there is none, and one for sure when fewer peers than hosts exist |
| AddressAllocator.AllocatePeerAddressAsWritten | internal/enrollment/service.go:642-691 | As written: the least host address no live peer holds, the broadcast address included |
| AddressAllocator.SearchesDifferIff | internal/enrollment/service.go:670-690 | The two answers differ exactly when all hosts but the broadcast are held and it is not: then it is handed out |
| AddressAllocator.LastAddress | internal/enrollment/service.go:693-705 | The bit loop sets exactly the host bits counted from the byte it starts at |
| AddressAllocator.LastAddressAsWritten | internal/enrollment/service.go:693-705 | The last address for IPv6, the network address itself for IPv4 |
| AddressAllocator.LastAddressFixed | internal/enrollment/service.go:693-705 | Starting from byte 12 for IPv4, base + 2^hostBits - 1 |
| AddressAllocator.LastAddressIntended | internal/enrollment/service.go:693-705 | Filling the host bits adds 2^hostBits - 1 |
| AddressAllocator.FirstFree | internal/enrollment/service.go:676-690 | The candidate loop terminates with the least free address |
| AddressAllocator.UsedAddresses | internal/enrollment/service.go:652-668 | The used set holds the addresses of live peers with a readable one |
| AddressAllocator.LiveAddressesMembers | internal/enrollment/service.go:652-668 | Membership in that set, and that it is no larger than the number of peers |
| AddressAllocator.FullMeansManyUsed | internal/enrollment/service.go:676-690 | If nothing is free, at least as many addresses are held as there are hosts |
| ShellQuoting.ShellJoin | internal/updater/service.go:504-510 | The joined line read as POSIX shell words gives back the arguments |
| ShellQuoting.JoinReadsBack | internal/updater/service.go:497-510 | For every argument list, word splitting and quote removal give it back |
| ShellQuoting.EscapeReadsBack | internal/updater/service.go:497-502 | Inside single quotes the escaped text reads as the text |
| ShellQuoting.ShellJoinInjective | internal/updater/service.go:504-510 | Different argument lists give different lines |
| Fingerprint.FingerprintIdentifies | pkg/wgconfig/fingerprint.go:10-31 | Two clean configurations have equal fingerprints exactly when they are equal up to the order of the three lists |
| Fingerprint.BlanksDoNotCount | pkg/wgconfig/fingerprint.go:11-31 | White space around the three fields does not change the fingerprint |
| Fingerprint.PreimageLines | pkg/wgconfig/fingerprint.go:22-31 | The hashed text is six lines in the program's order |
| Fingerprint.ReconfigureIffDifferent | internal/enrollment/service.go:730-746 | An active peer of an agent not disabled, reporting applied, is told to reconfigure exactly when the desired configuration is usable and differs from the applied one beyond order |
| Fingerprint.RevokedAccessIsNotReported | internal/enrollment/service.go:730-746 | Losing the last allowed address is a difference the agent is not told of |
| Fingerprint.JoinInjective | pkg/wgconfig/fingerprint.go:10-31 | Joining non-empty parts free of the separator loses nothing |
| Sessions.StoredTimeLags | internal/auth/service.go:223-231 | The stored last-seen time is at most the last use and less than five minutes before it |
| Sessions.BusySessionStaysValid | internal/auth/service.go:171-204 | A session whose gaps are at most the idle lifetime less five minutes is accepted at every request until it expires |
| Sessions.RecentUseIsAccepted | internal/persistence/sessionrepo/sessionrepo.go:73-91 | The same for one request after any history, exact under truncation to seconds |
| Sessions.StoredAfterIff | internal/persistence/sessionrepo/sessionrepo.go:73-91 | A stored second lies after the truncated cutoff exactly when it lies after the cutoff itself |
| Sessions.SilenceIsDeath | internal/persistence/sessionrepo/sessionrepo.go:73-91 | Silence for the idle lifetime kills the session |
| Sessions.DeadForEver | internal/auth/service.go:171-231 | A revoked, expired or silent session is refused from then on |
| Sessions.RevokedIsRefused | internal/persistence/sessionrepo/sessionrepo.go:94-120 | After a revocation no request is accepted, whatever came before and whatever lies between |
| Sessions.OnlyRevocationRevokes | internal/persistence/sessionrepo/sessionrepo.go:94-120 | Requests alone never revoke a session |
| Sessions.WritesAreSparse | internal/auth/service.go:223-231 | Over any run the stored last-seen time stays or moves on by five minutes or more |
| Sessions.TurnedAwayLeaveNoTrace | internal/api/sessions.go:319-358 | Requests turned away by a later check change nothing |
| Sessions.SessionService.Authenticate | internal/api/sessions.go:319-358 | Accepts exactly the valid sessions and updates the row as the step says |
| Sessions.SessionService.RevokeSession | internal/persistence/sessionrepo/sessionrepo.go:94-104 | Marks the named row revoked, and changes no other field and no other row |
| Sessions.SessionService.RevokeAllForUser | internal/persistence/sessionrepo/sessionrepo.go:107-120 | Marks exactly the user's rows revoked, and changes no other field |
| Totp.GeneratedCodeIsAccepted | internal/auth/totp.go:49-96 | A code generated at a time is six digits, survives normalization, and is accepted within thirty seconds of it |
| Totp.AcceptedCodeIsRecent | internal/auth/totp.go:49-67 | An accepted code is the code of some time less than sixty seconds away |
| Totp.CodeValue | internal/auth/totp.go:83-96 | The six digits write the truncated MAC modulo one million |
| Totp.Truncate | internal/auth/totp.go:83-96 | Dynamic truncation stays in bounds and below 2^31 |
| Totp.TruncationReads | internal/auth/totp.go:83-96 | The truncation is the big-endian number of the four bytes at the offset of the last half-byte, without its top bit |
| Totp.TruncationExample | internal/auth/totp.go:83-96 | The example of section 5.4 of RFC 4226 |
| Totp.MessageReadsBack | internal/auth/totp.go:83-88 | The message is the counter in eight bytes, most significant first |
| Totp.ConstantTimeEqual | internal/auth/totp.go:111-120 | The XOR/OR loop is equality |
| Totp.NormalizeOtpCode | internal/auth/totp.go:98-109 | The six digits left after removing blanks, or nothing |
| Totp.BlanksMakeNoDifference | internal/auth/totp.go:98-109 | A blank typed anywhere in a code makes no difference |
| Totp.Validate | internal/auth/totp.go:49-67 | Accepts exactly the codes of the step and its two neighbours |
| Totp.MatchesNearby | internal/auth/totp.go:58-66 | The loop over the three steps |
## Left out

- HTTP handlers other than the effect of a state change request on the store, dual approval of revocations, cookies, CSRF checks, OIDC, SMTP, S3, event streams, metrics and the web interface: plumbing with shallow branching.
- SQL engines, drivers, migrations and text timestamps: rows are records, times are integers, a query returns what its condition says. Text comparison of times with trimmed fractions is not chronological and is not modelled.
- Errors of the database, the file system and metadata decoding: a failing service call is taken to change nothing. In the control-plane model an enrollment is one transaction, which the code does not open; `EnrollmentRace.dfy` models its statements one by one for what they mean for the token, not for the peer rows.
- Concurrent service calls: each control-plane call, each trend request and each limiter decision of the database form is atomic here, so a race between a count and the insert or rebuild after it is not modelled.
- Agents without a peer row: an enrollment creates one of each, and peers are keyed by the agent that owns them. Assignments are the set of active pairs, without ids or dates.
- `peerRepo.List` returns at most 200 rows; the allocator is taken to see all peers.
- Names, descriptions, platforms, versions, the format check of hostnames, enrollment scopes and token lifetimes; inventory listings and their cursors. Ids of policies are taken to hold no white space, as generated ones do.
- Creating, revoking and reissuing enrollment tokens: modelled as operations on the store only, since their code is one insert or update after a check.
- DNS settings in the desired configuration of the control-plane model; the fingerprint covers them.
- Persisting runtime synchronisation state and its drift labels, which nothing modelled reads.
- The agent's first enrollment, the self-update after a pass, an empty configuration path or private key path, the texts of errors and times of applications; the Windows agent, which copies the Linux one.
- Inspection of the running interface: what it finds is a parameter of the pass.
- Wrap-around of 64-bit durations in the backoff loop, which the default and any realistic maximum exclude.
- Cancellation and the timer in `RunLoop`: the delays are modelled, not the waiting.
- The other dashboard figures (funnel, coverage, failing agents, heat map, action distribution).
- The cursor's text form in the audit listing, a zero cursor time or blank id, and the number of bytes the export writes.
- Reloading sinks and routes while events are queued, dead letters, consecutive-failure fields, syslog formatting and the delivery itself, whose outcome is a parameter.
- Password hashing, login, secrets in base32, random ids and tokens: generated values are parameters, refused when already taken.
- Unicode: strings are sequences of characters, normal forms are ignored, and lower-casing covers ASCII.
- `internal/ipam`, whose used set stays empty because it reads back addresses in another format than it stores; the enrollment allocator is modelled instead.
- The updater's status flow, semantic versions, compose arguments and Docker calls: they would add easy members.
- The kernel adapter: the runtime is a map, as in the fake adapter.

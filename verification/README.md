# Verification model of go-mumble-server

This project models the protocol core of a Mumble voice server and proves properties of it.
It covers five parts:

- **Sessions.** The registry that drives each session through Syncing, Active, Closing and
  Closed (`Registry.dfy`), the per-session control queue with its initial and deferred lanes,
  flush barrier and final message (`ControlQueue.dfy`, activation around it in
  `ControlActivation.dfy`, what it accepts and delivers in `ControlDelivery.dfy`), and the user
  manager that reuses session numbers under fresh generations (`UserManager.dfy`). What the
  registry and the manager show after each operation is in `RegistryEffects.dfy` and
  `UserLookup.dfy`; `Sessions.dfy` holds what they share.
- **Access control.** The ACL walk and its declarative form (`AclEvaluate.dfy`), stored group
  membership (`AclGroup.dfy`), selectors and the two put together (`AclSelectors.dfy`), what
  single rows and defaults do to the answer (`AclRows.dfy`, `AclPassage.dfy`), the permission
  cache with its optimistic generation check (`AclCache.dfy`, `AclServing.dfy`), the answers it
  does not check (`AclEarly.dfy`) and temporary members (`TemporaryMembers.dfy`,
  `TemporaryEffects.dfy`).
- **Channels.** The two walks over the tree (`ChannelTree.dfy`, `ChannelOrder.dfy`), the
  cleanup of temporary channels (`ChannelCleanup.dfy`), the link graph (`ChannelLinks.dfy`),
  the manager object (`ChannelManager.dfy`) and the aggregate crypto mode
  (`ChannelCrypto.dfy`).
- **Codecs and crypto.** Wire primitives (`Wire.dfy`), the UserState message
  (`UserState.dfy`), the strict field reader (`FieldReader.dfy`), the voice varint and both
  audio formats (`AudioVarint.dfy`, `AudioCodec.dfy`, `AudioPackets.dfy`), the formats
  themselves (`WireFormat.dfy`, `MessageLayout.dfy`, `PingFormat.dfy`, `AudioReading.dfy`,
  `LegacyFormat.dfy`), OCB2 and its closed form (`Ocb2.dfy`, `Ocb2Form.dfy`), the legacy crypt
  state (`CryptState.dfy`), its replay protection (`CryptReplay.dfy`) and what it accepts
  (`CryptAccept.dfy`). `Bytes.dfy` and `Results.dfy` are shared.
- **Voice.** Mute and deafen flags with the delta echo (`VoiceState.dfy`), and routing
  (`Routing.dfy`).

`dafny verify dfyconfig.toml` checks everything.

Concurrent parts are step systems: one step per section that the source runs under a lock,
plus worker steps, and results are about every interleaving. Objects the source updates in
place are classes whose methods are proved against the same specification functions. A
pointer to a registry entry or a user record is its index in a sequence that only grows.

Assumptions: the database is a parameter (rows, assigned numbers, whether a write succeeds);
64-bit generations and `maxUsers * 4` as a 64-bit product do not overflow; callbacks of
`UpdateUser` keep name and session number and those of `UpdateIdentity` keep the number (both
are shown to be exactly what the indexes need); an unlimited server holds fewer than 2^32 - 2
sessions; a resolved user enters an ACL evaluation only through the cache key; the block
cipher is a pair of inverse functions; floats in codecs are 32-bit patterns, volumes in
merging are ordered numbers; permission masks are sets of bit numbers; access-token comparison
and the sub-channel selector are parameters of selector matching; the user record does not
change between the handler's snapshot and its update.

Where the code falls short of a property, the model follows the code, and a lemma gives the
exact condition, with a concrete case beside it where that helps: `BareActivationExact`,
`FinalRefusedExactly`, `StepExact` and `RunConsistentExact` of the registry,
`ReusedReferenceLosesLeave`, `AdmissionExact`, `UpdateUserExact`, `UpdateIdentityExact`,
`OutdatedExact`, `CreateAgreesExact`, `ReconstructsAhead`, `ReconstructsLate`,
`StreamDeliveredExactly`. Steps of the registry stray only if one reference is bound twice
while an old lock is still held. The user manager issues each reference once (`IssuedOnce`),
but that does not rule a second binding out: after an edge instance is removed, the reference
of a user who is still listed can be bound again, as `RegisterConn` in
internal/mumble/handlers.go does for a connection whose session is no longer in the registry.

A comment in `encryptLegacy` calls the nonce increment most significant byte first; the code
carries from byte 0 upwards, and the model follows the code.

## Model

| member | source | states |
|---|---|---|
| ControlQueue.WireAlwaysInOrder | internal/cluster/control.go:118-275 | In every interleaving from a fresh session, provided none with deferred messages is activated around its queue, the messages written are a prefix of the accepted initial messages followed by the accepted sends in acceptance order, or all that was queued and then, once, the message given to the accepted close; and if it is activated only by its commit, a deferred message is written only after the barrier was flushed, with every initial message already written |
| ControlQueue.BarrierAlwaysFirst | internal/cluster/control.go:241-275 | A session made Active by its commit had its barrier flushed and every initial message written before |
| ControlQueue.StepKeepsInv | internal/cluster/control.go:118-347 | Every locked section, worker step, failure and outside event keeps the lanes, capacity, final, wire and barrier invariants |
| ControlQueue.RunKeepsInv | internal/cluster/control.go:118-347 | The invariants hold after every run in which a session with deferred messages is activated only by its commit |
| ControlQueue.NothingAfterFinal | internal/cluster/control.go:190-230 | Once the final message is on the wire no continuation of the run writes anything |
| ControlQueue.SilentForever | internal/cluster/control.go:168-230 | After the final message, or once the worker is gone, the wire never changes again |
| ControlQueue.CommitNeverOverflows | internal/cluster/control.go:255-275 | When the splice of a commit happens on a queue that is not closed, the queue is empty, the worker idle and at most limit messages deferred, so all of them are accepted |
| ControlQueue.CloseWhileSyncingDropsSends | internal/cluster/control.go:328-347 | A close while syncing drops every deferred send: in no continuation is one of them queued |
| ControlQueue.ClosedForever | internal/cluster/control.go:118-166 | After a close nothing more is accepted, queued or reopened |
| ControlQueue.FinalRefusedExactly | internal/cluster/control.go:154-166 | In every such run the final command of an open session is refused exactly when all limit + 1 slots are taken, which is when the barrier stands among limit deliveries, and accepted exactly when a slot is free |
| ControlQueue.ReservedRun | internal/cluster/control.go:154-166 | Over every such run deliveries leave the reserved slot free and the barrier is in the pipeline at most once |
| ControlActivation.BareActivationExact | internal/cluster/registry.go:176-211 | After activating a syncing session around its queue, some continuation shows the peer something out of acceptance order if and only if a message is deferred, the session is still attached and its worker lives |
| ControlActivation.DeferredOvertaken | internal/cluster/registry.go:176-211 | The one half: with a deferred message, an attached session and a living worker, some continuation writes a later send before the deferred one |
| ControlActivation.BareActivationOvertakes | internal/cluster/registry.go:176-178 | A concrete run: no initial message, one deferred, and the later send is all the peer sees |
| ControlActivation.Drains | internal/cluster/control.go:190-230 | A living worker on a queue that is neither stopped nor closed can write out everything before it |
| ControlDelivery.InitialAcceptedExactly | internal/cluster/control.go:118-129 | In every orderly run, for a bound session: an initial message is accepted exactly while the session is syncing, open, has not begun its commit and fewer than limit commands wait; a full queue ends the session, any other refusal changes nothing, and each gets its own error |
| ControlDelivery.SendAcceptedExactly | internal/cluster/control.go:132-152 | A send is accepted exactly while the session is open and syncing with fewer than limit sends before it, or open and active with fewer than limit commands waiting |
| ControlDelivery.CommitBegunExactly | internal/cluster/control.go:236-251 | A commit begins exactly in an open syncing session that has not begun one, and its barrier always finds the reserved slot free |
| ControlDelivery.CloseAcceptedExactly | internal/cluster/control.go:328-344 | A close always closes an open session; the final command is queued behind everything if a slot is free, and otherwise the session ends |
| ControlDelivery.EndingsGiveUp | internal/cluster/control.go:168-230 | Timeouts, aborts and failed writes end the queue for good and write nothing |
| ControlDelivery.EverythingCanArrive | internal/cluster/control.go:190-285 | From every state of an orderly run with the session open, bound, and its worker alive, some continuation accepts nothing more and ends with exactly the initial messages and then the sends on the wire |
| ControlDelivery.FarewellCanArrive | internal/cluster/control.go:319-347 | Whenever a slot is free, a close can have its message written right behind everything queued before |
| ControlQueue.StepSpliced | internal/cluster/control.go:255-276 | The successful end of a commit keeps the invariants: deferred messages move behind everything already written |
| ControlQueue.ControlSession.constructor | internal/cluster/control.go:69-97 | A new session has an empty queue with the given limit |
| ControlQueue.ControlSession.EnqueueLocked | internal/cluster/control.go:154-166 | Accepts or fails by capacity, with the reserved slot, as the specification section does |
| ControlQueue.ControlSession.StopLocked | internal/cluster/control.go:168-175 | The queue is closed, stopped and its deferred lane emptied |
| ControlQueue.ControlSession.FailLocked | internal/cluster/control.go:179-188 | Failing stops the session once |
| ControlQueue.ControlSession.SendInitialLocked | internal/cluster/control.go:118-129 | The section of SendInitial, refusals included |
| ControlQueue.ControlSession.SendLocked | internal/cluster/control.go:132-152 | The section of Send: deferred while syncing, queued while active, overflow fails the session |
| ControlQueue.ControlSession.BeginCommitLocked | internal/cluster/control.go:241-248 | The barrier section of a commit |
| ControlQueue.ControlSession.FinishCommitLocked | internal/cluster/control.go:255-276 | The splice loop over the deferred messages equals the splice of the specification |
| ControlQueue.ControlSession.CloseLocked | internal/cluster/control.go:333-341 | The section that closes the queue and enqueues the final command |
| Registry.StepExact | internal/cluster/registry.go:43-323 | A step keeps all bindings consistent if and only if it does not stray, that is, does not act through its lookup on another binding of the reference in a state that minds: activating it to announce, or closing or unbinding it while it is being announced; a step that does not stray only moves bindings forward |
| Registry.RunConsistentExact | internal/cluster/registry.go:43-323 | All bindings stay consistent throughout a run, references bound repeatedly or not, if and only if no step of it strays |
| Registry.FreshRunsDoNotStray | internal/cluster/registry.go:93-110 | As long as no reference is bound twice, no step strays |
| Registry.CommitExact | internal/cluster/registry.go:181-211 | The exact condition for the commit section |
| Registry.CloseExact | internal/cluster/registry.go:217-249 | The exact condition for the close section |
| Registry.UnbindExact | internal/cluster/registry.go:251-270 | The exact condition for the unbind section |
| Registry.OwnKeeps | internal/cluster/registry.go:137-197 | Taking a lock, finishing the join, marking it and the first half of CloseAndUnbind touch only the locked binding and keep it consistent |
| Registry.LifeMovesForward | internal/cluster/registry.go:181-270 | For each binding, between any two states of a run without straying steps, the life only moves forward (so Closing or Closed never becomes Active again) and an announcement is never taken back |
| Registry.ReportedExactlyOnce | internal/cluster/registry.go:217-249 | Over all racing closes at most one snapshot says announced; one has as soon as an announced binding was closed; announced implies that the join callback returned, and once closed the two are the same |
| Registry.NeverAnnouncedAfterClose | internal/cluster/registry.go:181-249 | Whether a binding counts as announced is settled by its first close and never changes later |
| Registry.ReusedReferenceLosesLeave | internal/cluster/registry.go:217-230 | A concrete run that binds a reference twice: a close holding the old entry lock reaches the new binding between activation and announcement, and the announced session is closed without any snapshot saying so |
| Registry.SessionRegistry.constructor | internal/cluster/registry.go:39-41 | A new registry is empty |
| Registry.SessionRegistry.AddEdge | internal/cluster/registry.go:45-56 | Registers an edge incarnation, or refuses an empty one and a different generation |
| Registry.SessionRegistry.BindSession | internal/cluster/registry.go:93-110 | Binds, accepts an identical rebind, or refuses; succeeds exactly when afterwards the number points at this reference on this edge |
| Registry.SessionRegistry.CommitActive | internal/cluster/registry.go:181-211 | The commit section; succeeds exactly for a live syncing binding of the reference |
| Registry.SessionRegistry.BeginClose | internal/cluster/registry.go:232-249 | The close section; its answer is true exactly when this close is the one that reports the announcement |
| Registry.SessionRegistry.Detach | internal/cluster/registry.go:260-270 | The unbind section |
| Registry.SessionRegistry.DropEdge | internal/cluster/registry.go:272-287 | Removes the edge and returns exactly the references that left the index |
| Registry.WithoutEdge | internal/cluster/registry.go:272-287 | Keeps exactly the sessions of other edges and returns the references of the rest |
| Registry.DropOnEdge | internal/cluster/registry.go:280-285 | The deletion loop, in any map order |
| RegistryEffects.BindShows | internal/cluster/registry.go:93-110 | A valid reference whose number is free is then found bound to its registered edge, syncing and not announced; anything else is refused without a trace |
| RegistryEffects.CommitShows | internal/cluster/registry.go:181-211 | The binding of the reference becomes active exactly if it was syncing; nothing else is seen to change |
| RegistryEffects.CloseShows | internal/cluster/registry.go:213-249 | A syncing or active binding is then seen as closing; nothing else changes |
| RegistryEffects.CloseUnbindShows | internal/cluster/registry.go:304-323 | The same for the very binding locked by a close with unbinding |
| RegistryEffects.UnbindShows | internal/cluster/registry.go:251-270 | The reference is no longer found and its number is free |
| RegistryEffects.AnnounceShows | internal/cluster/registry.go:181-197 | The end of an announcement shows the binding announced; taking a lock, giving up and the callback show nothing |
| RegistryEffects.RegisterShows | internal/cluster/registry.go:45-58 | An edge is registered with one generation at a time |
| RegistryEffects.RemoveEdgeShows | internal/cluster/registry.go:272-287 | Exactly the bindings to the removed edge instance disappear, whatever their state |
| RegistryEffects.ReachedOnEdge | internal/cluster/dispatcher.go:45-73 | Voice reaches exactly the sessions shown as active, on the edge shown |
| UserManager.RunKeepsInv | internal/user/manager.go:48-352 | Over every run: the name and session indexes describe the same users, used and free numbers partition 1 .. next-1, and the used ones are the live sessions |
| UserManager.IssuedOnce | internal/user/manager.go:60-66 | No pair of session number and generation is issued twice |
| UserManager.AddFailsExactly | internal/user/manager.go:48-69 | In a consistent state with the second bound above the limit, Add fails exactly for a taken name or a full server |
| UserManager.AdmissionExact | internal/user/manager.go:423-442 | For maxUsers > 0, Add fails only for a taken name or a full server in every run if and only if maxUsers is below the second bound, 4*maxUsers reduced to 32 bits |
| UserManager.LimitsBelow2To30 | internal/user/manager.go:437-440 | That condition holds for every limit below 2^30 and fails for 2^30 |
| UserManager.CrowdFills | internal/user/manager.go:423-442 | n users with different names take the numbers 1 .. n as long as the second bound is not reached |
| UserManager.AllocFromPartition | internal/user/manager.go:423-442 | Alloc returns an unused number and keeps the partition; the second bound does not fire |
| UserManager.FreeKeepsPartition | internal/user/manager.go:444-452 | Free keeps the partition and is idempotent for unused numbers |
| UserManager.StaleReferenceHarmless | internal/user/manager.go:78-104 | Once an issued reference no longer names a live session, RemoveIfGeneration and UpdateIdentityRef with it leave the state unchanged in every continuation |
| UserManager.GoneForever | internal/user/manager.go:48-104 | A removed record is never indexed again |
| UserManager.UpdateUserExact | internal/user/manager.go:269-295 | UpdateUser keeps the indexes in agreement if and only if its callback keeps name and number |
| UserManager.UpdateIdentityExact | internal/user/manager.go:314-352 | UpdateIdentity keeps them in agreement if and only if it is rejected for a collision or its callback keeps the number |
| UserManager.RevisionTellsAuthority | internal/user/manager.go:383-389 | Two snapshots of one session with equal authorization revision have equal authority |
| UserLookup.AddStores | internal/user/manager.go:48-70 | After a successful Add the user is found under its name and a number nobody had, with all it brought, the next generation and revision 1; nobody else is affected |
| UserLookup.RefusedAddShowsNothing | internal/user/manager.go:48-70 | A refused Add changes nothing that can be looked up |
| UserLookup.RemoveForgets | internal/user/manager.go:72-105 | Number and name are free again and nobody else is affected |
| UserLookup.UpdateStores | internal/user/manager.go:269-297 | The callback's name, authority and profile are stored for that user alone; the generation stays and the revision grows by one exactly if the authority changed |
| UserLookup.IdentityStores | internal/user/manager.go:299-352 | The same with a rename, unless another user has the name; then the user is found under the new name and nobody under the old |
| UserLookup.ByReference | internal/user/manager.go:72-105 | Operations by reference act for the user of that generation and do nothing for an older one |
| UserLookup.SameUsers | internal/user/manager.go:162-195 | Looking up by number and by name are two views of the same users |
| UserLookup.FreedIsReused | internal/user/manager.go:423-450 | The number freed last is the next one used |
| UserManager.RemoveKeepsInv | internal/user/manager.go:82-104 | Removing a user keeps indexes and pool consistent |
| UserManager.StepKeepsInv | internal/user/manager.go:48-352 | Every operation keeps the invariant |
| UserManager.SessionPool.constructor | internal/user/manager.go:414-421 | A new pool starts at number 1 |
| UserManager.SessionPool.Take | internal/user/manager.go:423-442 | Alloc in place, with 32-bit wrap-around of the counter and the bound |
| UserManager.SessionPool.Return | internal/user/manager.go:444-452 | Free in place |
| UserManager.Manager.constructor | internal/user/manager.go:34-42 | A new manager is empty, its pool twice the user limit |
| UserManager.Manager.AddUser | internal/user/manager.go:48-69 | Add in place; the stored record is reachable through both indexes |
| UserManager.Manager.RemoveUser | internal/user/manager.go:82-104 | remove in place, conditional on the generation or not |
| UserManager.Manager.Update | internal/user/manager.go:269-295 | UpdateUser in place |
| UserManager.Manager.UpdateIdentityOf | internal/user/manager.go:314-352 | updateIdentity in place, re-indexing a rename and rejecting a collision |
| AclEvaluate.EvaluatesDeclaratively | internal/acl/evaluator.go:161-237 | The answer without the loops: when it is an error, when it is nothing because some path prefix leaves Traverse and Write refused, and otherwise each permission by the last vote on it, then what Write implies |
| AclEvaluate.LastVoteWins | internal/acl/evaluator.go:205-228 | The last row with a say decides, the default decides without one |
| AclEvaluate.ScanFinds | internal/acl/evaluator.go:176-231 | The walk blocks, fails or collects exactly what the votes along the path say |
| AclEvaluate.WriteAddsNoVoice | internal/acl/evaluator.go:19-21 | Write never adds Speak or Whisper |
| AclEvaluate.NoRootBitsBelowRoot | internal/acl/evaluator.go:221-236 | A target other than the root never gets a root-only permission |
| AclEvaluate.VisitTallies | internal/acl/evaluator.go:198-228 | One matching row changes a permission, Traverse and Write as its votes say, a denial beating a grant |
| AclEvaluate.ChannelTallies | internal/acl/evaluator.go:178-228 | One channel adds the votes of its matching rows; a non-inheriting one first restores the default |
| AclEvaluate.Evaluate | internal/acl/evaluator.go:161-237 | The nested loops compute the specified permissions, errors included |
| AclEvaluate.Widen | internal/acl/evaluator.go:232-236 | What Write implies, with root-only permissions at the root alone |
| AclSelectors.WhoGetsWhat | internal/acl/evaluator.go:161-237 | End to end, on a readable path that nothing blocks: a permission is granted as the last vote among the counting rows says, and the rows that count are exactly those meant for the subject |
| AclSelectors.MeantExactly | internal/acl/group.go:39-115 | For every selector: a row counts exactly for those it is meant for, by account, token, certificate, reserved name, external group, role or stored group, inverted or not, and fails exactly where a group or role it needs cannot be read |
| AclRows.SettlesForThoseMeant | internal/acl/evaluator.go:161-237 | End to end: on an open path the last row that mentions a permission settles it for those it is meant for, and for everybody else the evaluation is as if the row were not there |
| AclRows.EverybodyAndNobody | internal/acl/group.go:81-83 | A last row for all settles its permissions for every subject; a row for none can be taken away anywhere without any effect |
| AclRows.Removable | internal/acl/evaluator.go:190-197 | A row that does not count changes nothing, errors and blocking included |
| AclRows.LastMentionDecides | internal/acl/evaluator.go:185-230 | The last row that mentions a permission decides it for those it counts for |
| AclRows.InsideOrOutside | internal/acl/group.go:88-91 | For one context exactly one of in and out counts for a subject, and in exactly for a connected subject in that channel |
| AclRows.WhatIsShown | internal/acl/group.go:77-87 | auth counts for registered subjects, strong, certificates and tokens for connected ones that show them |
| AclRows.OneAccount | internal/acl/group.go:39-47 | An account row counts for its account alone, never for the anonymous one |
| AclRows.InvertingSwaps | internal/acl/group.go:67-115 | Inverting a decidable selector swaps for whom it counts, exactly if it has a name |
| AclRows.GivenGroups | internal/acl/group.go:94-103 | External groups count by name for connected subjects, and admin for API users as their role says |
| AclPassage.OpenPath | internal/acl/evaluator.go:185-228 | A path is open if no row about passing denies Traverse, or for an API administrator if no row about the target denies Write |
| AclPassage.DeniedPassingBlocks | internal/acl/evaluator.go:185-228 | A channel whose last word to the subject is to deny passing leaves nothing at all behind it, unless a row or role gives Write |
| AclPassage.DefaultHolds | internal/acl/evaluator.go:161-184 | Where no row mentions a permission, or none since a channel that does not inherit, the default permissions hold, with Write for an API administrator |
| AclSelectors.StoredGroupRows | internal/acl/group.go:67-116 | A row for a stored group counts if and only if the nearest visible definition, seen from its context (target, or own channel for a here selector), accepts the subject, or the opposite inverted; it fails exactly for an unreadable group |
| AclSelectors.CountsExactly | internal/acl/evaluator.go:190-197 | The rows that vote are exactly those whose selector matches |
| AclSelectors.ParseSelector | internal/acl/group.go:19-38 | A selector text is split into its leading modifiers, in any order, and the name |
| AclEvaluate.VisitAll | internal/acl/evaluator.go:190-228 | The row loop, stopping at the first undecidable selector |
| AclEvaluate.VisitOne | internal/acl/evaluator.go:198-228 | The updates of granted, traverse and write for one row |
| AclGroup.NearestDefinitionWins | internal/acl/group.go:160-202 | Membership is decided by the nearest visible definition that mentions the subject, remove beating add and temporary; and the call fails exactly for a bad path or an unreadable reached channel |
| AclGroup.CollectFollowsRule | internal/acl/group.go:160-201 | From every channel of the chain on, the stack and its overriding agree with that rule |
| AclGroup.StoredGroup | internal/acl/group.go:160-202 | The method satisfies the rule directly |
| AclGroup.BuildStack | internal/acl/group.go:165-190 | The first loop collects exactly the visible definitions |
| AclGroup.OverrideAll | internal/acl/group.go:191-200 | The second loop, from the far end, lets nearer definitions override |
| AclCache.CachedAnswersAreFresh | internal/acl/evaluator.go:109-158 | Every cached answer was computed by its key's evaluation from reads all made since the latest invalidation |
| AclCache.CacheAgreesWithEvaluation | internal/acl/evaluator.go:109-158 | While nothing changed since the latest invalidation, a cached answer is the one a fresh evaluation of the current world gives |
| AclCache.NoLaterAnswerIsStale | internal/acl/evaluator.go:130-156 | Once the invalidation of a change has run, every answer given later through the cache or the commit check rests on nothing read before the change, the lookup of the caller included |
| AclEarly.OutdatedExact | internal/acl/evaluator.go:115-146 | After the invalidation of change c, a call can still give an early answer (superuser, unknown caller, failed evaluation) resting on a lookup made before c if and only if it made that lookup in its present pass and is already leaving, or is reading, or about to read uncached, an evaluation that can fail |
| AclEarly.LaterCallsAnswerFresh | internal/acl/evaluator.go:109-146 | In every run, an early answer of a call that had not made its lookup when change c was invalidated rests on a lookup and reads no older than c, and follows from them |
| AclEarly.FencedForever | internal/acl/evaluator.go:109-158 | A call that is not in that position never gets there |
| AclEarly.UnfencedDelivers | internal/acl/evaluator.go:115-146 | A call that is in that position has a continuation that gives the outdated answer |
| AclEarly.RevokedSuperUserAnswered | internal/acl/evaluator.go:116-124 | A concrete run: the superuser answer is given although the caller is no longer one in the current world and the change was invalidated |
| AclCache.EvaluatesOnce | internal/acl/evaluator.go:144 | A fresh evaluation of one world has at most one answer |
| AclCache.ReplayInOneWorld | internal/acl/evaluator.go:144 | Reads that all saw one world lead where evaluating in that world leads |
| AclCache.StepKeepsInv | internal/acl/evaluator.go:73-158 | Every change, invalidation and step of a call keeps the fences between generation and reads |
| AclCache.RunKeepsInv | internal/acl/evaluator.go:73-158 | The invariant holds in every state of every run |
| AclCache.PermissionCache.constructor | internal/acl/evaluator.go:50-51 | A new object holds the start of the step system |
| AclCache.PermissionCache.Invalidate | internal/acl/evaluator.go:73-77 | The object follows the invalidation step |
| AclCache.PermissionCache.Find | internal/acl/evaluator.go:130-142 | The object follows the lookup step: an invalid generation is a restart, a hit is the answer that step gives, computed from reads since the latest invalidation, and otherwise the evaluation begins |
| AclCache.PermissionCache.Commit | internal/acl/evaluator.go:148-157 | The object follows the finish step: the answer is given, and stored for cached calls, or the call restarts; what is stored was computed from reads since the latest invalidation |
| AclServing.UndisturbedCallAnswers | internal/acl/evaluator.go:109-159 | A call that nothing disturbs ends with the answer of the evaluation in the current world, and a cached one stores it |
| AclServing.ServedFromCache | internal/acl/evaluator.go:130-142 | Once stored, an answer serves every later cached call for its key at once, without a read, until the next invalidation |
| AclServing.OthersAnsweredEarly | internal/acl/evaluator.go:116-129 | An unknown caller gets nothing and a superuser the full answer, whatever is cached |
| TemporaryMembers.NoEntryAfterNotice | internal/acl/group.go:231-285 | From the moment a removal notice has been handled, in every later state, no group holds a temporary entry for that connection |
| TemporaryMembers.StepKeepsInv | internal/acl/group.go:231-285 | Every entry, and every replacement still under the current generation, names only connections that are live or whose notice is pending |
| TemporaryMembers.TemporaryGroups.constructor | internal/acl/evaluator.go:50-51 | A new object holds the start of the step system |
| TemporaryMembers.TemporaryGroups.Install | internal/acl/group.go:259-267 | Succeeds exactly when the commit step is possible and has its effect; what it installs are connections live or with their removal notice still to come |
| TemporaryMembers.TemporaryGroups.ClearSession | internal/acl/group.go:271-285 | The loops remove exactly the matching sessions and drop groups left bare, as the notice step does |
| TemporaryEffects.CommitInstalls | internal/acl/group.go:231-268 | In every run a replacement that commits installs for its group alone the users given and connections for exactly the subjects given, each connected or with its notice still to come |
| TemporaryEffects.NoticeClearsExactly | internal/acl/group.go:271-285 | A removal notice takes exactly that connection out of every group and drops the groups then empty |
| TemporaryEffects.BeginTakesOver | internal/acl/group.go:231-240 | A replacement works on the registered users and the subjects it was called with |
| TemporaryMembers.DropSessions | internal/acl/group.go:275-279 | The inner loop, in any order |
| ChannelTree.TreeWalk | internal/channel/manager.go:194-210 | From the root the walk down ends, lists each channel at most once and each after its parent; in a complete tree it lists exactly the channels whose ancestor chain ends at the root |
| ChannelTree.AgreeExact | internal/channel/manager.go:194-246 | GetTree and AncestorChain agree if and only if every channel below the root is listed by its parent |
| ChannelTree.EndsAtRootExact | internal/channel/manager.go:224-246 | The ancestor chain ends at the root exactly for channels some number of parents below it, cycles and orphans included |
| ChannelTree.AncestorsExactly | internal/channel/manager.go:224-246 | The ancestor chain is the one sequence that starts at the channel, goes from parent to parent without repeating any, and stops exactly at the root, at a missing parent or at one already listed |
| ChannelOrder.SiblingsInOrder | internal/channel/manager.go:194-210 | The list is depth first: everything below a child comes before everything below a later sibling |
| ChannelOrder.CreatedShows | internal/channel/manager.go:261-302 | A new channel hangs under its parent, as temporary as asked, among its siblings; every other channel is as before |
| ChannelOrder.RemovedShows | internal/channel/manager.go:377-404 | A removed channel is gone and its parent lists the other children in their order; every other channel is as before |
| ChannelTree.CreateAgreesExact | internal/channel/manager.go:261-302 | Creating a channel with a fresh number keeps the walks in agreement if and only if no orphan already names that number as parent, or the new channel is itself cut off from the root |
| ChannelTree.OrphanAdopted | internal/channel/manager.go:261-302 | A concrete tree and number for which they stop agreeing |
| ChannelTree.RemoveAgrees | internal/channel/manager.go:377-404 | Removing a childless channel keeps them in agreement |
| ChannelTree.WalkDistinct | internal/channel/manager.go:194-210 | The walk from any rooted channel lists no channel twice |
| ChannelTree.WalkChildrenParentsFirst | internal/channel/manager.go:200-208 | Every listed channel comes after its parent |
| ChannelTree.ListedWhenComplete | internal/channel/manager.go:194-210 | Every channel below the root is listed |
| ChannelManager.Manager.constructor | internal/channel/manager.go:71-100 | Loading any rows, with orphans and cycles among them, gives consistent children and agreeing walks |
| ChannelManager.Manager.AncestorIDs | internal/channel/manager.go:224-246 | The loop returns the ancestor chain: from the channel parent by parent, each once, up to the root or as far as it goes |
| ChannelManager.Manager.List | internal/channel/manager.go:194-210 | GetTree: each channel once, after its parent, exactly those whose chain ends at the root |
| ChannelManager.Manager.WalkInto | internal/channel/manager.go:198-207 | The recursive walk ends and appends the specified list |
| ChannelManager.Manager.Create | internal/channel/manager.go:261-302 | Create in place, with its refusals and the exact condition for agreement |
| ChannelManager.Manager.Remove | internal/channel/manager.go:377-404 | Remove in place, with its refusals; agreement is kept |
| ChannelManager.Manager.Delete | internal/channel/manager.go:395-402 | Taking a channel out of the tree and out of its parent's children |
| ChannelManager.Manager.CleanEmptyTemporary | internal/channel/manager.go:597-628 | The cleanup ends, whatever channel is picked next, with the one cleaned tree; agreement is kept |
| ChannelManager.Manager.ConnectedChannels | internal/channel/manager.go:428-462 | The sorted component of a channel, empty for a missing one |
| ChannelManager.Manager.ReplaceLinks | internal/channel/manager.go:467-566 | UpdateLinks on the tree: only link lists change, and none on failure |
| ChannelCleanup.DoomedExact | internal/channel/manager.go:597-628 | Below the root of a tree whose walks agree, a channel goes if and only if its entire subtree is temporary, unoccupied and deletable |
| ChannelCleanup.FinishedIsCleaned | internal/channel/manager.go:602-627 | When nothing is removable any more, exactly the doomed channels are gone, on any tree |
| ChannelCleanup.CleanedUnique | internal/channel/manager.go:597-628 | The final tree does not depend on the order of removals |
| ChannelCleanup.RemovalStaysUnderway | internal/channel/manager.go:605-625 | Each removal removes a channel that was doomed from the start and leaves the rest as it was |
| ChannelLinks.ConnectedIDs | internal/channel/manager.go:428-462 | The search ends and returns, strictly ascending, exactly the undirected component over live links; nothing for a missing channel |
| ChannelLinks.ComponentsPartition | internal/channel/manager.go:428-462 | The component of any member is the same component |
| ChannelLinks.SameListForTheComponent | internal/channel/manager.go:428-462 | The list returned is the same for every channel of a component |
| ChannelLinks.Adjacency | internal/channel/manager.go:434-443 | The adjacency lists hold exactly the live non-self edges, both ways, for one-sided and dangling links too |
| ChannelLinks.Visit | internal/channel/manager.go:447-455 | One step of the search keeps its invariant |
| ChannelLinks.Sorted | internal/channel/manager.go:568-575 | The sorted list of a set |
| ChannelLinks.UpdateLinks | internal/channel/manager.go:467-566 | Success exactly for acceptable requests that are stored or already stable; then the live neighbours are the desired set on both sides, other live edges unchanged, symmetry kept; failure changes nothing |
| ChannelLinks.RewrittenLinksExactly | internal/channel/manager.go:525-541 | Rewriting the touched channels yields exactly the desired edges |
| ChannelLinks.StableLinksExactly | internal/channel/manager.go:498-523 | The early return leaves a graph that already has exactly the desired edges |
| ChannelLinks.LinkedExactlyKeepsSymmetry | internal/channel/manager.go:464-566 | A symmetric graph stays symmetric |
| ChannelLinks.FindInbound | internal/channel/manager.go:488-497 | The channels that still name this one |
| ChannelLinks.Rewrite | internal/channel/manager.go:525-541 | The new sorted link list of every touched channel |
| ChannelCrypto.MixedExact | internal/mumble/handlers.go:449-468 | With current table entries the answer is mixed if and only if two users in these channels use different non-empty modes |
| ChannelCrypto.SameAnswerForTheComponent | internal/mumble/handlers.go:451-468 | The answer is the same for every channel of a component, whatever the table says |
| ChannelCrypto.UpdateChannelCrypto | internal/mumble/handlers.go:419-447 | The entry of the channel becomes current and no other changes |
| ChannelCrypto.HasMixedCrypto | internal/mumble/handlers.go:451-468 | The loop with its early return computes the answer over the component of the channel, and no for a missing channel |
| VoiceState.EchoTruthful | internal/mumble/handlers.go:1912-1968 | Assigning exactly the present voice fields of the broadcast message to the old flags gives the new flags, cascades and move effects included; without a broadcast the flags did not change |
| VoiceState.EchoTruthfulOnWire | internal/mumble/handlers.go:1912-1968 | The same for the message as decoded by its receivers, where a set flag always counts as present |
| VoiceState.RequestHonoured | internal/mumble/voicestate.go:28-78 | What a message does, from the old flags and the message alone, for both pairs: deafening sets both flags, otherwise a present mute is honoured, unmuting clears deafen, undeafening leaves mute alone, and a flag neither present nor implied stays; recording, suppress and priority speaker become what is said, or what a move makes them |
| VoiceState.EchoExactly | internal/mumble/handlers.go:1938-1968 | A broadcast goes out exactly if there is something to tell, marks exactly the fields asked for or implied, and carries the rest of the message without plugin data |
| VoiceState.AlwaysSane | internal/mumble/voicestate.go:28-109 | In every reachable state deaf implies mute, for the server's flags and the user's own |
| VoiceState.CascadeTold | internal/mumble/voicestate.go:28-70 | A cascade keeps deaf-implies-mute and is told by the rewritten message |
| VoiceState.MoveTold | internal/mumble/handlers.go:1939-1950 | A channel move adds to the message exactly what it flipped |
| VoiceState.CoverKept | internal/mumble/handlers.go:1855-1858 | Apart from a recording flag that repeats the state, every flag the echo says is marked present |
| VoiceState.Cascade | internal/mumble/voicestate.go:29-44 | The shared order of evaluation, deafen first: the request is honoured and the message gains what it implies |
| VoiceState.ApplySelfVoiceState | internal/mumble/voicestate.go:28-49 | The self flags and the message, changed in place; the request is honoured |
| VoiceState.ApplyAdminVoiceState | internal/mumble/voicestate.go:54-78 | The administrative flags and the message, changed in place; the request is honoured |
| VoiceState.ApplyChannelEnterEffects | internal/mumble/voicestate.go:87-94 | Clears priority speaker, resyncs suppress, and reports real flips only |
| VoiceState.ApplySuppressFromSpeak | internal/mumble/voicestate.go:103-109 | Suppress becomes the opposite of the right to speak; reports a flip |
| VoiceState.ApplyAndEcho | internal/mumble/handlers.go:1912-1950 | The callback and the additions to the message together: truthful, and deaf-implies-mute is kept |
| Routing.WhoHears | internal/audio/router.go:87-119 | A session receives the frame if and only if it is not the sender, passes the filter and is a user or listener of a channel the sender may speak in; as a user if it is a user in any of them |
| Routing.HowLoud | internal/audio/router.go:87-119 | At the greatest of full volume, if the recipient is a user of one of the channels, and the volumes it set for those it listens to |
| Routing.MergedUnique | pkg/mumble/audio/cache.go:31-39 | Least context and greatest volume determine the result: it depends only on what is offered |
| Routing.OrderIrrelevant | internal/audio/router.go:103-119 | Listing channels, users or listeners in another order or repeatedly changes nothing |
| Routing.AddMerges | internal/audio/router.go:88-97 | Adding one offer keeps the result the merge of all offers so far |
| Routing.Collect | internal/audio/router.go:98-119 | The nested loops compute the merge of everything offered |
| Routing.CollectChannel | internal/audio/router.go:103-119 | One channel: its users, then its listeners with their volume |
| Routing.Canonical | internal/audio/router.go:120-131 | The recipient list holds exactly the resolvable recipients, each once |
| Routing.DispatchVoice | internal/cluster/dispatcher.go:45-73 | Each edge with a transport gets exactly the subsequence of recipients active on it; nothing is sent for an inactive sender |
| Routing.OnEdgeExact | internal/cluster/dispatcher.go:49-56 | No active recipient is lost, doubled or sent to another edge |
| Routing.OnEdgeInOrder | internal/cluster/dispatcher.go:45-73 | What comes first in the list comes first on its edge |
| Wire.VarintRoundTrip | pkg/mumble/protocol/wire/wire.go:31-73 | Reading a written varint gives back any 64-bit value and its length, with any bytes after it |
| Wire.TagRoundTrip | pkg/mumble/protocol/wire/wire.go:26-82 | Reading a written tag gives back field number and type |
| Wire.DelimitedRoundTrip | pkg/mumble/protocol/wire/wire.go:47-129 | Reading a written length-delimited field gives back its bytes |
| Wire.Fixed32RoundTrip | pkg/mumble/protocol/wire/wire.go:40-87 | Reading a written fixed32 gives back its bits |
| WireFormat.VarintFormat | pkg/mumble/protocol/wire/wire.go:31-38 | Every number is written in seven-bit digits, lowest first, each byte but the last marked, and no byte too many |
| WireFormat.ReadersExact | pkg/mumble/protocol/wire/wire.go:59-74 | For any bytes: a number of at most ten bytes is its digit sum, cut to 64 bits or refused beyond them; anything else is refused with its error |
| WireFormat.Fixed32Format | pkg/mumble/protocol/wire/wire.go:40-45 | Four bytes, lowest first |
| Wire.UvarintPrefix | pkg/mumble/audio/protobuf.go:10-30 | A varint is recognised by its own bytes alone |
| Wire.AppendVarint | pkg/mumble/protocol/wire/wire.go:31-37 | The loop appends the specified varint |
| Wire.ScanVarint | pkg/mumble/protocol/wire/wire.go:59-73 | The loop with shifts in 64 bits reads what the specification reads, errors included |
| Wire.SkipsExactly | pkg/mumble/protocol/wire/wire.go:90-117 | Skipping an unknown field consumes exactly its bytes, for every wire type, whatever follows |
| UserStateCodec.UserStateRoundTrip | pkg/mumble/protocol/messages/user.go:158-440 | Decoding an encoded message gives back every field and list, present being the marked fields plus those with a non-default value |
| MessageLayout.UserStateLayout | pkg/mumble/protocol/messages/user.go:158-237 | Read by a reader that knows no message, the encoding shows exactly the fields of the message, each under its own number and kind, the optional ones ascending and only if present or not empty, then every element of the repeated ones |
| MessageLayout.VolumeLayout | pkg/mumble/protocol/messages/user.go:222-235 | A volume adjustment is a message of channel and volume, the latter only if it is not zero |
| UserStateCodec.Marshal | pkg/mumble/protocol/messages/user.go:158-237 | The appended buffer is the specified encoding, and decodes back |
| UserStateCodec.Unmarshal | pkg/mumble/protocol/messages/user.go:239-440 | The loop decodes as specified; on encoded input from a fresh receiver it returns the sent message as received |
| UserStateCodec.ParseRecord | pkg/mumble/protocol/messages/user.go:239-440 | One encoded field is read back, whatever follows |
| UserStateCodec.DecodeRecords | pkg/mumble/protocol/messages/user.go:239-440 | A list of encoded fields is decoded field by field |
| UserStateCodec.AssignUpto | pkg/mumble/protocol/messages/user.go:158-237 | Assigning the optional fields in order restores them and their presence |
| UserStateCodec.VolumeRoundTrip | pkg/mumble/protocol/messages/user.go:442-471 | A nested volume adjustment is read back, negative zero as zero |
| FieldReader.ConsumeFieldExact | pkg/mumble/audio/protobuf.go:10-65 | The reader accepts exactly the inputs that start with a well-formed item within the nesting limit |
| FieldReader.ConsumeFieldSound | pkg/mumble/audio/protobuf.go:10-65 | What it accepts is a well-formed item spelled by exactly the bytes consumed, groups ending at their own end tag |
| FieldReader.ConsumeFieldComplete | pkg/mumble/audio/protobuf.go:10-65 | Every well-formed item within the limit is accepted with its meaning, whatever follows |
| FieldReader.ConsumeField | pkg/mumble/audio/protobuf.go:10-65 | Ends on every input; on success consumes between one byte and all of them |
| FieldReader.NestingBounded | pkg/mumble/audio/protobuf.go:10-16 | Items within a packet cannot nest beyond what their bytes allow |
| FieldReader.ReadField | pkg/mumble/audio/protobuf.go:10-65 | The recursive reader with its inner loop computes the specification |
| FieldReader.ReadGroup | pkg/mumble/audio/protobuf.go:39-58 | The group loop ends exactly behind the matching end tag |
| FieldReader.DecodePing | pkg/mumble/audio/ping.go:18-38 | The ping loop ends and equals the specified reading |
| PingFormat.PingExactly | pkg/mumble/audio/ping.go:4-42 | A packet is read as a ping if and only if size and type fit and the rest is spelled by well-formed fields, the defined ones varints, whose last timestamp and last request flag are those of the ping |
| AudioVarint.VoiceVarintRoundTrip | pkg/mumble/audio/varint.go:13-107 | Decoding an encoded signed value above the minimum gives it back, whatever follows |
| AudioVarint.NonNegativeRoundTrip | pkg/mumble/audio/varint.go:13-107 | The same for the non-negative forms |
| WireFormat.VoiceFormat | pkg/mumble/audio/varint.go:71-107 | A number that is not negative is written big-endian in the fewest of one to five or nine bytes with room for it, below the marker bits of that length |
| WireFormat.NegativeFormat | pkg/mumble/audio/varint.go:61-70 | The four numbers below zero are one byte, any other negative number a marker byte before its magnitude |
| WireFormat.VoiceReads | pkg/mumble/audio/varint.go:13-40 | Reading takes as many bytes as the first announces, or fails for want of them, and yields what they spell without the marker bits |
| AudioVarint.EncodeVarint | pkg/mumble/audio/varint.go:57-107 | The encoder writes the specified bytes at the position and nothing else |
| AudioVarint.EncodeNegated | pkg/mumble/audio/varint.go:57-70 | The marker byte and the magnitude of a negative value |
| AudioCodec.LegacyRoundTrip | pkg/mumble/audio/legacy.go:8-114 | Within the limit a legacy packet decodes to the same sender, number, Opus bytes, terminator and position |
| LegacyFormat.LegacyReadsExactly | pkg/mumble/audio/legacy.go:8-75 | For every packet: it is read as f if and only if it consists of header, sender if from the server, frame number, size with the end mark, audio, and a position or none, saying just what f says |
| LegacyFormat.LegacyLayout | pkg/mumble/audio/legacy.go:77-110 | A written packet has these parts with every number in its shortest form |
| AudioCodec.ProtobufRoundTrip | pkg/mumble/audio/protobuf.go:67-160 | Within the limit a protobuf packet decodes to the same audio facts, and to the same context and volume where these are sent |
| AudioCodec.ProtobufNeedsAudio | pkg/mumble/audio/protobuf.go:125-127 | A frame without audio is refused |
| MessageLayout.AudioLayout | pkg/mumble/audio/protobuf.go:132-160 | Read by a reader that knows no message, a written packet shows exactly the audio fields, each under its number and kind |
| AudioReading.ReadsExactly | pkg/mumble/audio/protobuf.go:67-130 | For every packet: it is read as d if and only if it consists of well-formed fields, the defined ones proper, with none or three coordinates and some audio, and d is what they say, the last of each kind counting |
| AudioCodec.LegacyNumberRoundTrip | pkg/mumble/audio/legacy.go:8-114 | Every 64-bit frame number survives the legacy spelling |
| AudioCodec.EncodeLegacyPacket | pkg/mumble/audio/legacy.go:77-114 | The appends build the specified legacy packet, refusals included |
| AudioCodec.DecodeLegacyPacket | pkg/mumble/audio/legacy.go:8-76 | The decoding closures compute the specification |
| AudioCodec.EncodeProtobufPacket | pkg/mumble/audio/protobuf.go:132-160 | The appends build the specified protobuf packet |
| AudioCodec.DecodeProtobufPacket | pkg/mumble/audio/protobuf.go:67-130 | The decoding loop computes the specification and ends |
| AudioPackets.ServerPacketRoundTrip | pkg/mumble/audio/frame.go:51-95 | What EncodeServerPacket accepts in either mode decodes to the same audio |
| AudioPackets.ClientPacketRoundTrip | pkg/mumble/audio/frame.go:51-76 | The server reads a client packet as what the client put in, with its target and no sender, and refuses exactly an empty frame, a target beyond the last or a packet beyond the limit |
| AudioPackets.ReencodingKeepsAudio | pkg/mumble/audio/frame.go:51-95 | A client frame of either format sent on in either format keeps its audio fields, and is refused only for size |
| AudioPackets.EncodingCache.constructor | pkg/mumble/audio/cache.go:14 | A new cache is empty |
| AudioPackets.EncodingCache.Encode | pkg/mumble/audio/cache.go:15-28 | For every sequence of calls over one frame the cached bytes are those of direct encoding |
| Ocb2.DecryptInvertsEncrypt | pkg/mumble/crypto/ocb2/ocb2.go:55-135 | For every length and every invertible block cipher, decryption gives back the plaintext and the same tag |
| Ocb2Form.SealedForm | pkg/mumble/crypto/ocb2/ocb2.go:55-92 | In closed form: each ciphertext block is its plaintext block masked with its own doubling of the start before and after the cipher, the last one padded by its length, and the tag is the cipher of the sum of all plaintext blocks masked with three times the last offset |
| Ocb2Form.OpenedForm | pkg/mumble/crypto/ocb2/ocb2.go:95-135 | Decryption in closed form; its tag is that of the plaintext it yields |
| Ocb2Form.SameTagExact | pkg/mumble/crypto/ocb2/ocb2.go:86-90 | Two messages of one length have the same full tag under one nonce if and only if their blocks add up to the same; within one block no two do |
| Ocb2Form.ForgeryExact | pkg/mumble/crypto/ocb2/ocb2.go:131-135 | An altered message passes the full tag if and only if the blocks it decrypts to add up to the original sum |
| Ocb2Form.OneBlockChangeRefused | pkg/mumble/crypto/ocb2/ocb2.go:131-135 | A change within one block of the ciphertext is always refused |
| Ocb2Form.EncryptInvertsDecrypt | pkg/mumble/crypto/ocb2/ocb2.go:55-135 | Every ciphertext is that of its plaintext and must carry its tag |
| Ocb2.DecryptInvertsEncryptPass | pkg/mumble/crypto/ocb2/ocb2.go:55-135 | Both passes run through the same offsets and checksums |
| Ocb2.DoubleBits | pkg/mumble/crypto/ocb2/ocb2.go:38-44 | Doubling is multiplication by x modulo x^128 + x^7 + x^2 + x + 1, bit by bit |
| Ocb2.Times2 | pkg/mumble/crypto/ocb2/ocb2.go:38-44 | The in-place loop doubles the block |
| Ocb2.Times3 | pkg/mumble/crypto/ocb2/ocb2.go:46-52 | The in-place tripling is the block xored with its double |
| Ocb2.Encrypt | pkg/mumble/crypto/ocb2/ocb2.go:55-92 | The buffer holds the specified ciphertext and nothing beyond it changes; the tag is the specified one |
| Ocb2.Decrypt | pkg/mumble/crypto/ocb2/ocb2.go:95-135 | The buffer holds the specified plaintext; accepted exactly when the tag matches |
| Ocb2.EncryptBlocks | pkg/mumble/crypto/ocb2/ocb2.go:64-76 | The block loop leaves the pass over the rest |
| Ocb2.DecryptBlocks | pkg/mumble/crypto/ocb2/ocb2.go:104-116 | The block loop of decryption leaves the pass over the rest |
| CryptState.AdvanceValue | pkg/mumble/crypto/cryptstate.go:224-229 | Incrementing is adding one to a little-endian 128-bit number modulo 2^128 |
| CryptState.Increment | pkg/mumble/crypto/cryptstate.go:224-229 | The carry loop is that increment |
| CryptState.ReconstructsAhead | pkg/mumble/crypto/cryptstate.go:246-271 | A sender d packets ahead, d below 256, is tracked if and only if d is at most 127, or 128 with the receiver in the lower half of its byte |
| CryptState.ReconstructsLate | pkg/mumble/crypto/cryptstate.go:246-271 | A packet 1 to 29 behind is taken for late, and its nonce is right if and only if no borrow from the higher bytes is needed |
| CryptState.GenuinePacketAccepted | pkg/mumble/crypto/cryptstate.go:236-307 | A genuine packet at most 127 ahead yields its plaintext and moves the nonce, or is refused only by the history byte |
| CryptState.RefusedOrLateKeepsNonce | pkg/mumble/crypto/cryptstate.go:236-307 | A refused or late packet leaves the receive nonce unchanged |
| CryptAccept.AcceptsExactly | pkg/mumble/crypto/cryptstate.go:236-307 | A packet is accepted if and only if it is exactly what the sender makes of the delivered text under the nonce reconstructed for it, and the history does not hold that nonce |
| CryptAccept.PacketCounts | pkg/mumble/crypto/cryptstate.go:252-306 | What each packet does to the counters and the nonce: lost and late are counted genuine or not, good and the nonce only move for an accepted one |
| CryptAccept.NothingUncounted | pkg/mumble/crypto/cryptstate.go:252-306 | Conservation: over any accepted packets the nonce has moved by exactly the good ones that were not late plus the lost ones |
| CryptState.StreamDeliveredExactly | pkg/mumble/crypto/cryptstate.go:217-307 | A lossless stream of any length is wholly delivered if and only if no history byte anticipates one of its nonces |
| CryptReplay.NoNonceAcceptedTwice | pkg/mumble/crypto/cryptstate.go:236-307 | Over any sequence of packets, genuine or not, in any order, no nonce is accepted twice, as long as the upper fifteen bytes of the counter do not run over |
| CryptReplay.SpentStays | pkg/mumble/crypto/cryptstate.go:287-305 | A spent nonce, one whose upper part has fallen behind or which its history byte remembers, is not accepted by any packet and stays spent |
| CryptReplay.SpentNeverAccepted | pkg/mumble/crypto/cryptstate.go:236-307 | A spent nonce is not accepted by any sequence of packets |
| CryptState.FreshForLong | pkg/mumble/crypto/cryptstate.go:287-305 | From 256 packets on the condition no longer depends on the length of the stream |
| CryptReplay.CandidateHigh | pkg/mumble/crypto/cryptstate.go:248-285 | A reconstructed nonce has the upper part of the receive nonce or the next one, never an earlier one |
| CryptState.NewKeyIsFresh | pkg/mumble/crypto/cryptstate.go:117-135 | With the zero history of a new key, whether a nonce is anticipated at all is decided by the first two bytes of the receive nonce |
| CryptState.LegacyCrypt.constructor | pkg/mumble/crypto/cryptstate.go:69-72 | No key, zero history |
| CryptState.LegacyCrypt.SetKey | pkg/mumble/crypto/cryptstate.go:117-135 | Both nonces replaced, history kept |
| CryptState.LegacyCrypt.EncryptLegacy | pkg/mumble/crypto/cryptstate.go:217-234 | The packet for the incremented nonce, or an error that changes nothing |
| CryptState.LegacyCrypt.DecryptLegacy | pkg/mumble/crypto/cryptstate.go:236-307 | The receiver becomes what the specification says, for every packet; the buffer holds the plaintext, is untouched by a refusal before decryption, holds the rejected text after a failed tag, and never changes beyond it |

## Left out

- AudioVarint.EncodeVarint: not stated for the minimum int64, whose negation overflows; the codecs encode only non-negative numbers.
- UserStateCodec.Unmarshal: the partly filled receiver left behind by a failed decode is not modelled.
- UserStateCodec.UserStateRoundTrip: presence bits beyond the nineteen defined ones are not preserved, as in the code; the optional fields are one loop over field numbers instead of one statement each.
- ChannelManager.Manager.constructor: does not model the creation of a missing root row and its renumbering to 0; the rows are those found afterwards.
- ChannelManager.Manager.Create: the order of siblings by position is an arbitrary rearrangement, because Update changes positions without sorting again.
- AclCache.NoLaterAnswerIsStale: speaks of answers given through the cache or the commit check; the early returns, which the code does not check again, have their exact condition in AclEarly.OutdatedExact.
- CryptReplay.NoNonceAcceptedTwice: stated for fewer packets than the upper fifteen bytes of the counter can still count; beyond that the counter itself comes round to the same nonces.
- Ocb2Form.OneBlockChangeRefused: about the full tag; the three bytes that travel can agree by chance.
- AudioCodec.EncodeProtobufPacket: the conditional appends are collected in a list of fields first and written by one loop.
- Secure mode (AES-GCM), its replay window and packet statistics: the bitmap gives no stable invariant.
- The case-insensitive comparison of access tokens and the argument parsing of sub-channel selectors: their outcome is a parameter.
- The permission checks of the UserState handler before the flags are applied, listening fields, rate limits, bans.
- Whisper targets, loopback and the packet drop for bad targets in the router: single branches without a loop.
- The retry loops of the evaluator and of temporary members as terminating code: they may retry for ever and appear as steps.
- TLS, sockets, UDP and TCP loops, heartbeats, deadlines: a timeout is a failure step that may happen at any time.
- SQL, migrations, JSON envelopes, REST handlers, configuration and the frontend.
- The other control messages: the same shape as UserState without presence bits.
- Aliasing of byte slices between callers: values are immutable in the model, which is what the copies in the code achieve.

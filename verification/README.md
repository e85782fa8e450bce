# Verified model of tsserve's core

tsserve discovers containers, ECS tasks and Lambda functions, pools them behind Tailscale Services
and proxies requests to them. This project models the parts of it where the difficulty lies and
proves what they promise:

- **The service manager** (`proxy/manager.go`, `proxy/pool.go`). A concurrent protocol over two
  mutexes, two indexes and per-record transition channels. `Index.dfy` has the guarded state and
  each critical section as a function, with the invariant every section keeps; `Manager.dfy` has
  the same sections as methods of a class, each proved equal to its function. `Protocol.dfy` runs
  any number of calls as threads that interleave at every lock, listen call, listener close and
  channel receive. The invariant (`ProtocolInvariant.dfy`) yields safety over whole runs
  (`ProtocolRuns.dfy`), termination of every schedule (`ProtocolTermination.dfy`), the registration
  contract and pool homogeneity (`ProtocolMembers.dfy`), which outcome each call gets
  (`ProtocolOutcomes.dfy`) and index agreement (`ProtocolAgreement.dfy`).
- **The request path** (`Pool.dfy`, `RequestWalk.dfy`): round-robin over a 64-bit counter, the retry
  walk over a snapshot, and which failures may be retried after.
- **The three watchers** (`EcsWatcher.dfy`, `EcsConvergence.dfy`, `EcsAnswers.dfy`,
  `LambdaWatcher.dfy`, `DockerWatcher.dfy`): diff loops over `active` and `failed`, proved against the bookkeeping in
  `Ledger.dfy` and driving the object in `Registrar.dfy`. `RegistrarBridge.dfy` shows that, seen
  through one watcher's keys, a whole concurrent run of the manager behaves as that object, for
  whatever a watcher registers; `WatcherBridge.dfy` composes the two sides for each watcher, so
  that what it believes active is what the manager serves. `Labels.dfy` has labels and capability
  lists, `Paging.dfy` paginated listings.
- **Two smaller machines**: the error fan-in of `main.go` (`FanIn.dfy`) and the certificate mirror
  (`CertSync.dfy`, `CertLoop.dfy`).

A run is a sequence of states and labels (`ProtocolRuns.IsRun`), an index into it names a state, and
the run-level lemmas hold for every run and every index. A record that the source reaches by
reference is an index into a table that only grows. A channel is the number of times it has been
closed, so that a second close would be visible; a listener is the pair of counts of its opens and
its teardowns.

## Hypotheses

Each is a premise the code itself relies on; where one is a precondition of a lemma it is named.

- Registrations in flight for one key name one service (`ProtocolAgreement.OneServicePerKey`).
  `advertise` does not look at `byKey` again when it publishes. Only index agreement, and the
  "exactly one member" half of the registrar contract, need it;
  `TwoServicesForOneKeyDisagree` is a run that breaks agreement without it, and `PublishAgreesIff`
  says exactly which publication does.
- A listener close succeeds and is idempotent, and `http.Serve` does not return before its listener
  is closed. One run of `closeFn` is therefore one step, and the later close by the serving
  goroutine is none.
- Containers carry the scheme http or https (`Protocol.Admissible`), which `Labels.Parse` guarantees.
- The Lambda API runs no function for a call it refuses as throttled, missing or denied
  (`RequestWalk.ApiHonest`).
- What AWS, Docker, S3 and the file system answer is arbitrary, call by call; paginated listings are
  finite.
- A watcher's calls follow one another, nothing else drives its keys, and the manager is not being
  closed (`RegistrarBridge.Performed`).
- A task keeps its task definition for as long as it lives (`EcsConvergence.OneDefinition`), as ECS
  has it. Survival under the same definition does not need it.

## Where the code differs from its comments or from the obvious reading

- `lambda/watcher.go:80-83` says caps are compared as a set, as the manager compares them. They are
  compared as sorted lists, so a repeated capability counts as a change: `RepeatedCapDiffers`. What
  does hold is one direction and an exact characterisation: `EqualRegistrationsSameCaps`.
- `certsync/certsync.go:53-54` says a leading slash of the prefix is trimmed; one is, not all of
  them. `NormaliseIdempotentIff` gives the exact condition.
- Round-robin is not fair across the wrap of the counter unless the pool size divides 2^64:
  `FairAcrossWrapIff`, with the failing window in `UnfairAcrossWrap`.
- The debounce loop returns without a sweep when its watch is closed: `ClosedWatchForgets`, and
  `AllSweptIff` shows that events are lost exactly when that happens while something is pending.

## Model

| member | source | states |
|---|---|---|
| `ServiceIndex.Transition` | proxy/manager.go:456-465 | there is a channel to wait on exactly when the record is not serving |
| `ServiceIndex.ConflictWith` | proxy/manager.go:469-484 | a scheme conflict exactly when the schemes differ, a caps conflict exactly when they agree and the caps differ as sets, none otherwise |
| `ServiceIndex.Without` | proxy/pool.go:78-83 | exactly the members with another key remain |
| `ServiceIndex.RegisterKeeps` | proxy/manager.go:257-312 | one pass of register keeps the index exact, every key served and both gauges exact |
| `ServiceIndex.ClaimKeeps` | proxy/manager.go:268-283 | claiming a free name keeps the invariant |
| `ServiceIndex.JoinKeeps` | proxy/manager.go:300-303 | joining a serving pool keeps the invariant, the pool-size series included |
| `ServiceIndex.ReleaseKeeps` | proxy/manager.go:444-451 | releasing a claim keeps the invariant, before and after shutdown |
| `ServiceIndex.PublishKeeps` | proxy/manager.go:373-388 | publishing, or releasing on shutdown, keeps the invariant |
| `ServiceIndex.DeregisterKeeps` | proxy/manager.go:511-546 | taking a member out, emptying the pool included, keeps the invariant |
| `ServiceIndex.FinishKeeps` | proxy/manager.go:552-563 | ending a withdrawal keeps the gauges exact, also when Close has emptied the index meanwhile |
| `ServiceIndex.ShutKeeps` | proxy/manager.go:607-623 | Close's region keeps the invariant with an empty index and zero gauges |
| `ManagerObject.Manager.constructor` | proxy/manager.go:158-172 | a new manager is empty and valid |
| `ManagerObject.Manager.RegisterPass` | proxy/manager.go:257-312 | the method leaves exactly the state and verdict of the section, and Valid |
| `ManagerObject.Manager.Abandon` | proxy/manager.go:428-432 | gives the claim up and wakes waiters, and Valid |
| `ManagerObject.Manager.PublishPass` | proxy/manager.go:373-388 | publishes or, on shutdown, releases, and Valid |
| `ManagerObject.Manager.LeavePool` | proxy/manager.go:528-545 | the whole effect on pool, series and withdrawing channel |
| `ManagerObject.Manager.DeregisterPass` | proxy/manager.go:511-546 | the state of the section and the record to tear down, and Valid |
| `ManagerObject.Manager.FinishPass` | proxy/manager.go:552-563 | leaves the index only if still the record there, and Valid |
| `ManagerObject.Manager.ServingRecords` | proxy/manager.go:610-619 | lists exactly the serving records, each once, in some order |
| `ManagerObject.Manager.ShutPass` | proxy/manager.go:607-623 | hands back exactly the serving records and empties both indexes and gauges |
| `ManagerObject.Manager.Conflict` | proxy/manager.go:469-484 | the branches compute ConflictWith, caps compared by the subset loops |
| `ManagerObject.CapsSubset` | proxy/manager.go:493-500 | true exactly when every capability of the first list is in the second |
| `ManagerObject.SameCapLists` | proxy/manager.go:489-491 | true exactly when the lists are the same set |
| `ProtocolInvariant.StepKeepsInv` | proxy/manager.go:257-630 | every step of every thread keeps ownership of records, channels and listeners |
| `ProtocolInvariant.EveryActPost` | proxy/manager.go:317-451 | each action changes only records its own thread holds, and leaves each with its owner |
| `ProtocolRuns.RunInv` | proxy/manager.go:257-630 | the invariant holds in every state of every run |
| `ProtocolRuns.ListenNeverOverlaps` | proxy/manager.go:326-328 | no listen call for a name is pending while a listener of that name is open |
| `ProtocolRuns.OneListenerPerName` | proxy/manager.go:109-121 | at most one open listener per name |
| `ProtocolRuns.TornDownOnce` | proxy/manager.go:373-388 | at most one open, one teardown and one owing thread per listener; no channel is closed twice |
| `ProtocolRuns.TearHasOneCause` | proxy/manager.go:545-630 | a teardown is the emptying Deregister's, Close's or advertise's shutdown branch's, of a listener still open |
| `ProtocolRuns.NothingLeftOpen` | proxy/manager.go:605-630 | when all calls have returned after Close every opened listener has been torn down exactly once |
| `ProtocolRuns.GaugesInEveryState` | proxy/manager.go:632-670 | active equals the ready records, never negative, 0 after Close; series exist for exactly those names and equal the pool size of serving ones |
| `ProtocolRuns.LocksNeverNest` | proxy/manager.go:83-90 | no thread holds both locks, and no lock holder waits on a channel |
| `ProtocolRuns.OneEditAtATime` | proxy/manager.go:415-424 | listeners change only under serveMu, and one thread at a time edits |
| `ProtocolRuns.WaiterHasOwner` | proxy/manager.go:290-294 | a blocked registration has exactly one thread that will wake it, and that thread does not wait on a channel |
| `ProtocolRuns.NoDeadlock` | proxy/manager.go:257-630 | until all calls have returned some step is enabled |
| `ProtocolTermination.RunLowers` | proxy/manager.go:257-630 | every action lowers a well-founded measure |
| `ProtocolTermination.EveryCallReturns` | proxy/manager.go:257-630 | every schedule without new calls reaches a state in which all calls have returned |
| `ProtocolMembers.RunMembers` | proxy/manager.go:257-312 | in every state each pool member was brought by a call that returned nil and agrees with its service |
| `ProtocolMembers.PoolsHomogeneous` | proxy/manager.go:216-221 | members of one service agree on scheme and caps, and are functions exactly when the scheme is lambda |
| `ProtocolMembers.DispatchHasTransport` | proxy/reverseproxy.go:73-77 | a member without an invoker is never in a pool without a shared transport |
| `ProtocolMembers.NilMeansServing` | proxy/manager.go:196-206 | at a nil return the key is in the pool of a serving service with an open listener, as this call's backend if the key was new |
| `ProtocolMembers.ErrorLeavesNoMember` | proxy/manager.go:196-206 | a call that returned an error has no member in any pool, ever after |
| `ProtocolMembers.ErrorLeavesNoTrace` | proxy/manager.go:428-451 | the error return changes no pool and no key, and its claimed record is out of the index with an empty pool |
| `ProtocolOutcomes.ReturnsIff` | proxy/manager.go:257-312 | in every run a registration returns nil, a conflict, a listen error or the shutdown error exactly when the condition for it holds of the call and the state it finds |
| `ProtocolOutcomes.CompatibleJoins` | proxy/manager.go:296-303 | a registration that agrees with the serving service puts its backend behind the pool's members and its key in the index, and changes no other record |
| `ProtocolOutcomes.OccupiedOrClaimed` | proxy/manager.go:268-294 | a free name is claimed with the call's scheme and caps; a name in transition is waited for on that transition's channel |
| `ProtocolOutcomes.HeldKeyUntouched` | proxy/manager.go:263-266 | registering a held key returns nil and changes nothing |
| `ProtocolOutcomes.ListenAnswered` | proxy/manager.go:326-337 | the listen answer decides: publish with an open listener, or give up for that reason |
| `ProtocolOutcomes.OutcomeHasCause` | proxy/manager.go:196-206 | every outcome was due when it was returned; a listen error was this call's answer, the shutdown error comes after Close |
| `ProtocolOutcomes.CallBegins` | proxy/manager.go:237-240 | a function without an invoker is refused at once, every other call begins at its first section |
| `ProtocolOutcomes.DeregistrationOutcome` | proxy/manager.go:511-546 | an unknown key is a no-op; a known one leaves its pool and nothing else does; the last one starts the withdrawal |
| `ProtocolAgreement.PublishAgreesIff` | proxy/manager.go:381-387 | publishing keeps the indexes in agreement exactly when the key is not indexed already |
| `ProtocolAgreement.StepKeepsAgreement` | proxy/manager.go:257-546 | under the hypothesis every step keeps agreement |
| `ProtocolAgreement.IndexesAgree` | proxy/manager.go:94-96 | byKey names a service exactly when it is serving with a member of that key; keys are distinct; a pool is non-empty exactly when serving |
| `ProtocolAgreement.TwoServicesForOneKeyDisagree` | proxy/manager.go:373-387 | a concrete run without the hypothesis in which the indexes disagree |
| `RegistrarBridge.OtherKeyStep` | proxy/manager.go:257-563 | no action for another key shows through this key |
| `RegistrarBridge.RegistrationContract` | proxy/manager.go:196-206 | from start to any later state, a key looks as before, except that after nil a free key has exactly this call's backend |
| `RegistrarBridge.DeregistrationContract` | proxy/manager.go:507-546 | a deregistration empties its key at its first section, for good |
| `RegistrarBridge.UntouchedBetweenCalls` | proxy/manager.go:257-563 | while nobody drives a key it stays as it is |
| `RegistrarBridge.RegisterSimulated` | main.go:300-311 | a whole registration on the manager, in any interleaving, is Register on a registrar of whatever the watcher registers; on a held key it returns nil |
| `RegistrarBridge.DeregisterSimulated` | main.go:334 | likewise a deregistration |
| `RegistrarBridge.IdleSimulated` | proxy/manager.go:257-563 | while nobody drives a watcher's keys the manager keeps representing its registrar |
| `RegistrarBridge.CallsSimulated` | main.go:300-334 | after any sequence of a watcher's calls the manager's pools hold, under its keys, exactly what its registrar holds |
| `RegistrarBridge.ActiveIsServed` | main.go:300-334 | between calls, `active` is what the manager's pools hold under the watcher's keys, as recorded |
| `WatcherBridge.ShownIsServed` | proxy/manager.go:200-206 | a key that shows is served: a serving service, an open listener, one member |
| `WatcherBridge.JoinHostPortInjective` | proxy/manager.go:208-210 | the address text of a backend says one host and one port |
| `WatcherBridge.EcsActiveIsServed` | ecs/watcher.go:280-288 | after any cycles a key is active exactly if the manager holds it, and is then served at the recorded address |
| `WatcherBridge.DockerActiveIsServed` | docker/watcher.go:244-256 | likewise after any events and sweeps |
| `WatcherBridge.LambdaActiveIsServed` | lambda/watcher.go:231-250 | likewise for functions, under the recorded service and with the recorded qualifier |
| `PoolRotation.BackendPool.Add` | proxy/pool.go:70-74 | appends one member and returns the size |
| `PoolRotation.BackendPool.Remove` | proxy/pool.go:78-82 | removes the key's members and returns the size |
| `PoolRotation.WithoutKeepsOrder` | proxy/pool.go:78-82 | removal keeps the order of the rest |
| `PoolRotation.BackendPool.Assign` | proxy/pool.go:93-94 | the index is in range for the snapshot, whatever the pool is by then |
| `PoolRotation.BackendPool.Rotation` | proxy/pool.go:88-95 | the snapshot is the pool, the position is taken once, an empty pool takes none |
| `PoolRotation.PositionsRunOn` | proxy/pool.go:88-95 | successive rotations start where the wrapping counter says |
| `PoolRotation.RoundRobinFair` | proxy/pool.go:84-95 | in a window that does not cross the wrap each member gets its share, rounded down or up |
| `PoolRotation.FairAcrossWrapIff` | proxy/pool.go:52-53 | every window is fair if and only if the pool size divides 2^64 |
| `PoolRotation.UnfairAcrossWrap` | proxy/pool.go:93-94 | the window that is not |
| `RequestWalk.ReadBody` | proxy/invoker.go:109-122 | too large exactly past the cap, and never more than the cap is kept |
| `RequestWalk.AttemptIff` | proxy/invoker.go:71-105 | by the events alone, both ways: a connect failure is a failed dial or handshake, an unreachable API or one of its three refusals; a status is the backend's own, or 413 past the cap; a function error is the function's |
| `RequestWalk.ConnectMeansNotRun` | proxy/invoker.go:64-105 | a connectError comes only from an attempt that did not run the request |
| `RequestWalk.Rotated` | proxy/reverseproxy.go:157-158 | the visiting order is a permutation of the snapshot |
| `RequestWalk.Chosen` | proxy/reverseproxy.go:157-158 | the modular index picks the next member of that order |
| `RequestWalk.Walk` | proxy/reverseproxy.go:156-191 | the loop refines the recursive walk: members tried, outcome and failures counted |
| `RequestWalk.RoundTrip` | proxy/reverseproxy.go:144-192 | the answer is a status exactly if it is that of the first member reached that replies, by the events; a cancelled context makes its attempt the last |
| `RequestWalk.EarlierAttemptsRetry` | proxy/reverseproxy.go:187-189 | every attempt but the last failed to connect, without a body, with a live context |
| `RequestWalk.LastAttemptStops` | proxy/reverseproxy.go:187-189 | the last attempt ends the order or forbids another |
| `RequestWalk.AllTried` | proxy/reverseproxy.go:156-190 | if none connects and nobody cancels, every member is tried |
| `RequestWalk.FirstSuccess` | proxy/reverseproxy.go:176-179 | the walk ends at a responding member exactly when all before it failed to connect |
| `RequestWalk.BodyMeansOneAttempt` | proxy/reverseproxy.go:150-154 | a request with a body is attempted once |
| `RequestWalk.AtMostOneRuns` | proxy/reverseproxy.go:201-206 | of two attempts only the later may have run the request |
| `RequestWalk.TriedDistinct` | proxy/reverseproxy.go:156-158 | no member is visited twice |
| `RequestWalk.HandleRequest` | proxy/reverseproxy.go:110-122 | the status of the first member reached that replies, else 502; each failed attempt counted once over transport and error handler, an empty pool once |
| `Labels.Parse` | labels/labels.go:46-87 | disabled exactly without opt-in, accepted exactly for valid labels, and then only http or https |
| `Labels.ParsedAsLabelled` | labels/labels.go:46-87 | what is accepted and what each field is, label by label, with the defaults of network and scheme |
| `Labels.ParseLabelled` | labels/labels.go:46-87 | labels written out from a definition parse to it |
| `Labels.DecimalItoa` | labels/labels.go:63-66 | the port read is the number written |
| `Labels.DecimalZero` | labels/labels.go:63-66 | leading zeros do not matter |
| `Labels.TrimSpaceStrips` | labels/labels.go:108-109 | trimming takes exactly the surrounding space |
| `Labels.ParseCapsLoop` | labels/labels.go:105-113 | the loop computes the trimmed, non-empty pieces |
| `Labels.ParseJoined` | labels/labels.go:105-113 | parsing a joined list of capability names gives it back |
| `Labels.CapsTextIff` | lambda/watcher.go:90-96 | sorted-and-joined texts are equal exactly for permutations |
| `Registrars.Registrar.Register` | ecs/watcher.go:23-26 | nil only with the key held, an error leaves everything |
| `Registrars.Registrar.Deregister` | ecs/watcher.go:23-26 | the key is no longer held |
| `Ledger.OfferAgrees` | ecs/watcher.go:263-288 | offering a key, moves and failures included, keeps active equal to what the registrar holds |
| `Ledger.OfferOutcome` | ecs/watcher.go:263-288 | an offer leaves an active-as-wanted key alone; otherwise it deregisters, registers as offered, and the verdict decides between active and held, or failing and neither |
| `Ledger.OfferSettles` | ecs/watcher.go:263-288 | afterwards the key is active as wanted, or failed and not active; no other key changes |
| `Ledger.SweepSettles` | ecs/watcher.go:310-322 | a seen key comes through a sweep as the pass left it |
| `Ledger.OfferQuietIff` | ecs/watcher.go:263-266 | no registrar call exactly when the key is active as wanted |
| `Ledger.SweepIs` | ecs/watcher.go:310-322 | in any map order a sweep leaves exactly the seen part of both maps |
| `Ledger.SweepAgrees` | ecs/watcher.go:310-322 | a sweep keeps agreement |
| `Ledger.OfferTraced` | ecs/watcher.go:263-288 | an offer changes the registrar by its calls and verdicts alone |
| `Ledger.SweepTraced` | ecs/watcher.go:310-316 | so does a sweep |
| `Paging.ListedIff` | ecs/watcher.go:326-346 | a listing succeeds exactly when a page without a token is reached before any call fails, and is then every page's items in order |
| `EcsWatcher.ListAllTaskArns` | ecs/watcher.go:326-346 | all pages in order, or an error |
| `EcsWatcher.Chunk` | ecs/watcher.go:354-367 | computes the chunks, none for a size that is not positive |
| `EcsWatcher.ChunksLossless` | ecs/watcher.go:354-367 | chunks concatenate to the input, are never empty, and all but the last are full |
| `EcsWatcher.KeyInjective` | ecs/watcher.go:348-352 | keys are equal exactly for equal task and container, for names without '#' |
| `EcsWatcher.Watcher.GetTaskDef` | ecs/cache.go:41-63 | a cached definition is returned and never replaced |
| `EcsWatcher.Watcher.ApplyBackend` | ecs/watcher.go:262-288 | one resolved container is offered, and agreement kept |
| `EcsWatcher.Watcher.ApplyTask` | ecs/watcher.go:227-290 | a task's containers are applied and seen in order |
| `EcsWatcher.Watcher.RemoveMissing` | ecs/watcher.go:310-322 | drops exactly the unseen keys, in some order |
| `EcsWatcher.Watcher.Cycle` | ecs/watcher.go:172-222 | a cycle succeeds exactly if account, listing and every batch did; it applies its observations, and sweeps only then; agreement throughout |
| `EcsConvergence.CycleConverges` | ecs/watcher.go:188-222 | active and failed are disjoint and seen; an offered key is active as last offered, or, exactly if the registrar refused that, failing; one not offered is as it was |
| `EcsAnswers.CycleLast` | ecs/watcher.go:233-283 | the last offer for a key is that of its last container that resolved: at the resolved host and port, with the container's service, scheme, network and caps |
| `EcsAnswers.CycleSettlesAtResolved` | ecs/watcher.go:262-288 | by the answers: a key is active where its last container resolved, or failing exactly if the registrar refused that registration |
| `EcsAnswers.CycleLeavesUnresolved` | ecs/watcher.go:243-259 | a seen key of which nothing resolved is as it was, an unseen one is gone |
| `EcsAnswers.CycleHasLast` | ecs/watcher.go:233-283 | if any container of a key resolved, one is the last |
| `EcsAnswers.HeldIsResolved` | ecs/watcher.go:272-288 | in every history what is held was registered for a container of a RUNNING task that resolved then, at that address, with its labels |
| `EcsConvergence.QuietIff` | ecs/watcher.go:262-266 | a pass makes no registrar call exactly when everything is in place |
| `EcsConvergence.RepeatedCycleQuietIff` | ecs/watcher.go:172-222 | repeating any successful cycle on the same answers makes no registrar call exactly when every container it resolves is active there, and then changes nothing |
| `EcsConvergence.SilentIffConsistent` | ecs/watcher.go:262-266 | without failing keys, and unless a definition came too late in the first cycle, that is exactly when the answers give each key one address |
| `EcsConvergence.SecondRepeatSilentIff` | ecs/watcher.go:262-266 | from the second repetition on, with no exception for late definitions |
| `EcsConvergence.CacheSettles` | ecs/cache.go:41-63 | the same answers bring no further definition, and none late |
| `EcsConvergence.SameAnswersSameObs` | ecs/cache.go:41-63 | on the same answers the next cycle sees the same containers, unless a definition it has came too late; one that never comes is no exception |
| `EcsConvergence.RunningIsSeen` | ecs/watcher.go:203-242 | a key whose task is RUNNING under its cached definition is seen whatever lookups and resolutions answer |
| `EcsConvergence.ActiveHasTask` | ecs/cache.go:41-63 | in every history an active key has a task that an earlier cycle described RUNNING under a definition that is cached and labels the container |
| `EcsConvergence.DroppedOnlyIfGone` | ecs/watcher.go:310-316 | in every history a cycle drops a key only if it did not describe that task RUNNING under that definition, hence not at all if tasks keep their definition |
| `EcsConvergence.RunningSurvives` | ecs/watcher.go:203-259 | an active key whose task is described RUNNING is as it was if nothing resolved, else active as last offered unless the registrar refused that |
| `EcsConvergence.EveryHistorySound` | ecs/watcher.go:172-322 | after any cycles: agreement with the registrar, by the calls made to it, and disjoint maps |
| `LambdaWatcher.ParseFunction` | lambda/watcher.go:313-332 | valid exactly for acceptable tags, and then service, qualifier and caps are those of the last tag of each key |
| `LambdaWatcher.ParsedFromTags` | lambda/watcher.go:313-332 | the same of the function the watcher is proved against, by the tags alone |
| `LambdaWatcher.EqualRegistrationsSameCaps` | lambda/watcher.go:84-96 | equal registrations mean same service, qualifier and permuted caps, hence caps the manager accepts |
| `LambdaWatcher.RepeatedCapDiffers` | lambda/watcher.go:80-83 | tagged with caps `a,a` and with `a`, a function has the same set and different registrations |
| `LambdaWatcher.ListTagged` | lambda/watcher.go:282-304 | all pages in order, or an error |
| `LambdaWatcher.Watcher.Apply` | lambda/watcher.go:231-250 | registers, moves or leaves a function alone |
| `LambdaWatcher.Watcher.RemoveMissing` | lambda/watcher.go:266-278 | drops exactly the unseen functions |
| `LambdaWatcher.Watcher.Cycle` | lambda/watcher.go:187-226 | a failed cycle changes neither `active`, `failed` nor the registrar; a successful one applies and sweeps; agreement |
| `LambdaWatcher.CycleConverges` | lambda/watcher.go:203-226 | valid functions are active as tagged, or failing exactly if the registrar refused that; invalid ones keep their registration; absent ones are gone; a recorded failure is a current one |
| `LambdaWatcher.CycleConvergesOnTags` | lambda/watcher.go:203-226 | the same on the tags: registered under the service, qualifier and caps of the last acceptable mapping |
| `LambdaWatcher.EveryHistoryAgrees` | lambda/watcher.go:187-278 | agreement after any sequence of cycles, each function held under its own ARN, by the calls made |
| `DockerWatcher.Watcher.Register` | docker/watcher.go:224-256 | resolves, moves, registers or notes the failure |
| `DockerWatcher.Watcher.HandleEvent` | docker/watcher.go:191-211 | the effect of an event, with agreement |
| `DockerWatcher.Watcher.RemoveMissing` | docker/watcher.go:176-189 | drops exactly the unlisted containers |
| `DockerWatcher.Watcher.Reconcile` | docker/watcher.go:143-170 | a sweep that cannot list does nothing; otherwise register and sweep, with agreement |
| `DockerWatcher.EventSettles` | docker/watcher.go:191-256 | a container gone is forgotten; one started is active at its address, or failing exactly if it did not resolve or was refused; nothing else changes |
| `DockerWatcher.ServingStays` | docker/watcher.go:160-165 | a serving container stays at its address through a sweep, whatever its listed labels say |
| `DockerWatcher.ReconcileConverges` | docker/watcher.go:143-170 | nothing unlisted remains, serving ones stay, every eligible one serves or is failing |
| `DockerWatcher.NewContainerOutcome` | docker/watcher.go:150-168 | a listed, validly labelled container that was not serving serves at its resolved address and labelled port with its own definition; it is failing exactly if it did not resolve or the registrar refused it |
| `DockerWatcher.EveryHistoryAgrees` | docker/watcher.go:143-256 | agreement after any sequence of events and sweeps, by the calls made |
| `FanIn.Coordinate` | main.go:479-490 | exactly one value is sent: the first genuine error, or nil exactly if there is none |
| `FanIn.FanSends` | main.go:470-491 | in any arrival order at most one value; nil only after all watchers returned without a genuine error |
| `FanIn.FanSettles` | main.go:470-491 | at rest an error was sent exactly if one arrived, nil exactly if all returned without one |
| `FanIn.NoWatchersNil` | main.go:479-490 | without watchers nil is sent at once |
| `FanIn.NilMeansAllFinished` | main.go:439-453 | nil only when every mode, down to each reader, finished cleanly, or the context was cancelled |
| `FanIn.SilentWithholdsNil` | main.go:455-468 | a silent mode withholds nil while the context lives |
| `FanIn.ErrorHasSource` | main.go:439-453 | the value sent is one mode's own |
| `FanIn.ErrorSentIff` | main.go:439-491 | at rest a genuine error was sent exactly if some mode or reader had one, silent ones notwithstanding |
| `FanIn.NilSentIff` | main.go:439-491 | at rest nil was sent exactly if every mode finished cleanly |
| `FanIn.CancelledSendsOne` | main.go:461-468 | after cancellation exactly one value is sent |
| `CertSync.Normalise` | certsync/certsync.go:80-83 | the prefix is empty or ends in a slash |
| `CertSync.NormaliseIdempotentIff` | certsync/certsync.go:80-83 | normalising again changes nothing exactly when the prefix did not start with two slashes |
| `CertSync.IsCertFileIff` | certsync/certsync.go:95-99 | a certificate's name is the account key's, or ends in .crt or .key |
| `CertSync.TempNotCert` | certsync/certsync.go:95-99 | a download's temporary file is never mirrored |
| `CertSync.Syncer.UploadFile` | certsync/certsync.go:274-292 | puts the file's bytes under its key; a missing file is no error |
| `CertSync.Syncer.SyncAll` | certsync/certsync.go:252-271 | every listed certificate is tried, and exactly the failures are reported |
| `CertSync.Syncer.DownloadObject` | certsync/certsync.go:147-171 | writes through the temporary file, which is left behind only on failure |
| `CertSync.Syncer.Hydrate` | certsync/certsync.go:108-144 | page by page, object by object; complete exactly when the listing was |
| `CertSync.PagesAreKeys` | certsync/certsync.go:112-141 | the cut into pages does not matter |
| `CertSync.SweepOnlyAdds` | certsync/certsync.go:252-292 | a sweep removes no object and changes none but its own certificates' |
| `CertSync.OutsidePrefixUntouched` | certsync/certsync.go:101-102 | nothing outside the prefix changes |
| `CertSync.SweepStores` | certsync/certsync.go:252-292 | an error-free sweep stores every certificate byte for byte |
| `CertSync.SweepErrorsAre` | certsync/certsync.go:252-285 | the errors of a sweep are exactly the certificates that could not be read or put |
| `CertSync.LastFetchedStays` | certsync/certsync.go:123-134 | one bad object does not block the rest: a certificate is as last fetched, whatever became of the others |
| `CertSync.UnfetchedKeeps` | certsync/certsync.go:147-171 | a certificate that is not fetched stays what it was |
| `CertSync.HydrateErrorsAre` | certsync/certsync.go:128-144 | the errors of a hydration are exactly the certificates not restored |
| `CertSync.HydrateRestores` | certsync/certsync.go:104-144 | hydrating an empty directory restores exactly the flat certificates under the prefix |
| `CertSync.RoundTrip` | certsync/certsync.go:104-292 | sweep, then hydrate: every certificate back byte for byte through any pages, and nothing else if the prefix was empty |
| `CertLoop.Run` | certsync/certsync.go:195-249 | the event loop computes the state and the sweeps of the picks |
| `CertLoop.AlwaysAttended` | certsync/certsync.go:203-249 | what is pending has a running or fired timer, or a cancelled context |
| `CertLoop.EventStaysPending` | certsync/certsync.go:221-247 | a certificate event stays pending until a sweep that starts after it |
| `CertLoop.AllSweptIff` | certsync/certsync.go:191-249 | at rest every certificate event taken has been followed by a sweep if and only if the watch was not closed while something was pending |
| `CertLoop.EndsIff` | certsync/certsync.go:211-249 | the loop ends exactly by taking the end of the context or by a closed channel, and goes on after watcher errors and irrelevant events |
| `CertLoop.ClosedWatchForgets` | certsync/certsync.go:222-224 | the run in which it does |
| `CertLoop.TickSweepIsOwed` | certsync/certsync.go:237-247 | a timer sweep follows a certificate event with no sweep since |

## Left out

- tsnet, the HTTP server, TLS, dialling and the replay inside Go's own `http.Transport`: reduced to open, close and attempt outcomes.
- JSON, base64, MIME and URL translation of Lambda events and results (`proxy/invoker.go`): only whether it succeeds.
- Error-text classification (`classifyProxyError`, `isMagicDNSError`) and node headers: a listen error is an ordinary or a fatal one, by the world's choice.
- `Manager.Snapshot`: a sorted copy of the serving records, an easy reading of the index.
- Address lookup (`ecs/resolve.go`, `hostIPCache`), account resolution and the reader registry: an answer per container, or none.
- Which tasks an ECS description returns: a batch may answer with any tasks, not only those asked for.
- `startModes`' early return when a mode fails to start, and `parseDiscoveryModes`: straight-line branches.
- Metrics other than the two manager gauges, `local/*`, the status page and logging.
- Real time: poll intervals, dial budgets, settling; the timer of the debounce loop only runs or has fired.
- Object identity of pools: a record's pool is a value in the record table, so copy-on-write is the assignment of a new sequence, and `BackendPool` models the shared position by itself.
- `PoolRotation.BackendPool.Rotation`: one call at a time; an interleaving between loading the snapshot and taking the position is covered by `Assign`, which takes any snapshot.
- `EcsConvergence.SilentIffConsistent`: leaves out a first cycle in which a definition fails and then arrives, since the repetition then sees containers for the first time; `RepeatedCycleQuietIff` covers that cycle by its own condition, and `SecondRepeatSilentIff` the repetitions after it.
- Handing a fatal error on to the process (`forwardFatal`): the watcher sees an error like any other.

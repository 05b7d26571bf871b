# A verified model of the kubegateway rate limiter and routing core

kubegateway is a reverse proxy in front of Kubernetes API servers. Its gateways share global rate
limits through limit servers: a limit server divides the quota of every flow control of an upstream
cluster among the gateways, or hands out tokens and in-flight slots one batch at a time. The project
models that distributed limiter, the meters that feed it, the registry of server names, the routing
rules and the wire formats, and proves what they keep over whole runs.

`dafny verify dfyconfig.toml` checks everything.

## Layout

| file | part of the system |
|---|---|
| Allocation, Targets | the quota controller, and the target level and branch of a reading in whole numbers |
| Aggregation, Levels | the recorded totals, and the recorded level as a percentage of the use |
| QuotaServer, QuotaSafety | the division of a quota among clients, and its safety and progress over runs |
| QuotaRaces, QuotaWitnesses, Gateways | the same with reports interleaved, where it fails, and with the gateways that send them |
| AcquireServer, InflightRace | acquire requests at the limit server, and concurrent in-flight reports |
| TokenProtocol, TokenStock, StockRace, CounterManager, MaxInflight, AnswerRace | the gateway's side of global token buckets and in-flight limits |
| Ring, Meter | rates and in-flight maxima in rings of time buckets |
| Registry | server names and the controller that keeps them in step with the clusters |
| ShardStores, Heartbeat | which shards a server holds, and whether a gateway considers a shard ready |
| Rules, RuleMeaning | dispatch rules, matching, defaults and normalisation at admission, and what rules match over their strings |
| Varint, AcquireCodec, AcquireDecoder, UnknownFields, HeaderEscape | the protobuf form of acquire messages and percent-escaped header keys |
| Numbers, MapSums, Wrappers | machine arithmetic, sums over maps, result types |

Objects that the source updates in place are classes (`LimitServer`, `LimitStore`,
`TokenBucketWrapper`, `MaxInflightWrapper`, `GlobalCounterManager`, `Meter`,
`UpstreamClusterController`, `RateLimiter`, `ClientSets`, `UpstreamCluster`). Their methods are proved
against functions or relations on values, and the theorems are about runs of those. Concurrent parts are
state machines whose steps are single atomic operations or lock regions. An object that several
goroutines reach through a pointer is an entry of a map from references to values, so that an old
pointer stays visible as such.

## What turned out not to hold

Each of these comes with the exact condition under which the code does what is expected, most with a concrete witness.

- A report fetches a pointer to the upstream's entry before it takes the lock (ratelimter.go:145-154). The
  local store keeps that very object, and then every interleaving is safe (`InPlaceRacesAreSafe`). The
  Kubernetes store without a sync period saves a copy (cache_store.go:60-75, 176-200), and a pointer that
  is two reports old hands out 3 of a total of 2 (`OldReferenceOverAllocates`). Runs are safe while the
  objects in use record what is stored (`RacesAreSafe`), and no weaker condition will do (`BeginIsSafeIff`).
  A pointer stays up to date exactly while nothing is written or the last write went through it
  (`UpToDateIff`).
- A stored status of another kind than the configured one makes the recomputation of the totals dereference
  nil (ratelimter.go:733, 735), after the client's quota was stored. `CalculateUpstreamStatus` gives the
  exact condition. From then on every newcomer gets a unit that is never recorded (`CrashedJoinsAddUp`,
  `CrashesOverAllocate`).
- A report that lists a flow control several times is given quota for each entry, and two entries get 2 of a
  total of 1 (`TwoEntriesOverAllocate`). `RepeatedItemsFitIff` is exact.
- A lost reply leaves a gateway claiming what it no longer holds, and 3 of a total of 2 are handed out
  (`LostReplyOverAllocates`). `ReportsFitIff` is exact; over runs the overshoot is at most what a gateway was not
  told of (`OvershootIsUntold`), and without lost replies reports are honest (`GatewaysAreHonest`).
- Cutting a total can give a client a negative quota (`CutTotalGivesNegativeQuota`, `NextIsNonNegativeIff`,
  `NegativeQuotaRecovers`). The first accepted report after a cut brings the sum within the total again
  (`QuotaSafetyWithCuts`); deleting a client keeps the sum within what is recorded unless its quota is too
  negative (`CleanUpKeepsBoundIff`).
- The branch that reduces an under-used quota raises it for a client that uses more than it has
  (`ReduceRaisesIff`, `ReducedToTwice`).
- The target level is said to be higher for a client that uses less (allocation.go:72-74). It is the other way round
  (`MoreUseHigherTarget`): less use never gives a higher target, and `LessUseAsHighIff` says exactly when as high a one.
- The target level of a client does not always grow with the upstream level: rounding lowers it by one at six
  points (`HigherLevelLowerTarget`, `TargetFallsIff`, `TargetGrows`).
- A list of exclusions is documented to match all but the excluded values (docs/en/design.md:278-292,
  upstreamcluster_types.go:262). An exclusion matches every other value, and one matching entry is enough, so a list
  with two different exclusions matches everything, the documented example included (`TwoExclusionsMatchPods`).
  The promise holds if and only if a single value is excluded (`PromiseHoldsIff`). An excluded subresource of every
  resource rejects none but that of a resource named star, and an excluded user pattern rejects nobody
  (`SubresourceExclusionIff`, `UserExclusionsIff`).
- A resize subtracts what an earlier load found to be too much, so a stock can stay negative at rest
  (`LateDiscardLeavesDebt`, `SolventIff`).
- An answer first gives its tokens in flight back and later adds the grant to the stock, and a request loads
  first the stock and later the tokens in flight. A request asks for too much when an answer is half-way
  (`HalfWayAskOverfills`), falls between its loads (`AnswerBetweenLoadsOverfills`), or when a failed take is not
  undone yet (`FailedTakeOverasks`). `StockIsBoundedIff` is exact, and `UndisturbedStockIsBounded` shows that
  there is no other way.
- Two answers about requests in flight can both be found to be new before either takes the lock, and the older
  one can win (`OlderAnswerWins`, `TimeMovesForwardIff`).
- An answer that is delivered twice takes its request off the tokens in flight twice
  (`RepeatedAnswerIsHarmlessIff`).
- A resize stores the rate as the burst, so that recovery from an outage does not bring the configured
  burst back (`RecoveryRestoresLimiterIff`).
- An in-flight report that lowers a count can be refused; if others use the room meanwhile, the maximum is
  exceeded at rest (`RefusedDecreaseExceedsMax`, `FitsIff`).
- A gateway that is forgotten between the lookup and the swap of its last report leaves the global count
  wrong for good (`OvertakenReportLosesCount`, `CountIsConservedIff`).
- Two rate ticks at the same instant divide by zero, and the test for an undefined rate (meter.go:150) is
  never true: the average is lost for good (`CalculateAvgRate` gives the exact condition).
- The decoder lets a closing tag of any number end an unknown group (`MismatchedGroupIsSkipped`,
  `SkippedBesidesStrict`).
- After a silence of a full ring, in-flight buckets can show values of an earlier round
  (`StaleMaximumSurvives`, `SilenceIsHarmlessIff`).
- When endpoints cannot be set after the server names were stored, the registered names stay behind and
  later syncs see nothing to do (`HalfWayFailureIsHarmlessIff`, `RetryDoesNotRepair`, `DeletionStrands`).

## Model

| member | source | states |
|---|---|---|
| `QuotaSafety.QuotaSafety` | pkg/ratelimiter/limiter/ratelimter.go:132-230 | In every state of every run of honest reports, clean-ups and schema updates, the quotas the clients hold of a flow control add up to no more than its configured total |
| `QuotaSafety.StoredSumIs` | pkg/ratelimiter/limiter/ratelimter.go:699-722 | The sum in that theorem, in plain integers: over all clients and all their items for the flow control, the number in flight or, for an item without one, the rate |
| `QuotaSafety.ReportOvershoot` | pkg/ratelimiter/limiter/ratelimter.go:145-227 | Whatever a client claims to hold, also a negative quota, however often it lists the flow control and however old the state it was computed from, the stored sum grows by at most the false part of the claims plus, for each listing, what remained in that state |
| `QuotaSafety.QuotaSafetyWithCuts` | pkg/ratelimiter/limiter/ratelimter.go:132-230 | Over runs with arbitrary cuts of the total, the clients never hold more than is recorded, and from the first accepted honest report after a cut until the next cut they hold no more than the total |
| `QuotaSafety.StepWithCuts` | pkg/ratelimiter/limiter/ratelimter.go:132-230 | Each step of such a run keeps the stored sum within the recorded one, and an accepted honest report brings it within the total at once |
| `QuotaSafety.ReportSettles` | pkg/ratelimiter/limiter/ratelimter.go:186-227 | An honest report brings the stored and the recorded sum within the total, also when the total was cut before and also for a negative quota |
| `QuotaSafety.RepeatedItemsFitIff` | pkg/ratelimiter/limiter/ratelimter.go:186-216 | A report that lists a flow control several times with the same claim holds its next quota once per entry, and keeps the total exactly when all entries together fit what the other clients leave |
| `QuotaSafety.ManyListingsExceed` | pkg/ratelimiter/limiter/ratelimter.go:186-216 | A newcomer exceeds the total with 21 entries while there are at most ten clients, and with more entries than clients otherwise |
| `QuotaWitnesses.TwoEntriesOverAllocate` | pkg/ratelimiter/limiter/ratelimter.go:132-230 | A run of the server: a client whose first report lists the flow control twice holds 2 of a total of 1 |
| `QuotaSafety.ReportKeepsInv` | pkg/ratelimiter/limiter/ratelimter.go:145-227 | An honest report keeps: stored sum at most recorded sum at most total, and no negative quota |
| `QuotaSafety.CleanUpKeepsInv` | pkg/ratelimiter/limiter/ratelimter.go:629-642 | Deleting a client's condition keeps the same invariant although the recorded totals are not recomputed |
| `QuotaSafety.CleanUpKeepsBoundIff` | pkg/ratelimiter/limiter/ratelimter.go:629-642 | Deleting a client keeps the stored sum within the recorded one exactly when its quota is not more negative than what is recorded in excess |
| `QuotaSafety.EmptyReportGivesUp` | pkg/ratelimiter/limiter/ratelimter.go:186-227 | A report that does not list the flow control gives up what the client held of it |
| `QuotaSafety.SyncKeepsInv` | pkg/ratelimiter/limiter/ratelimter.go:751-798 | A schema update that keeps the type and does not cut the total below what is recorded keeps the invariant; SyncKeepsBound covers the others |
| `QuotaSafety.SyncKeepsBound` | pkg/ratelimiter/limiter/ratelimter.go:751-798 | Any schema update that keeps the type keeps the stored sum within the recorded one, and the total is respected exactly when the new total is no less than what is recorded |
| `QuotaSafety.SyncKeepsRecorded` | pkg/ratelimiter/limiter/ratelimter.go:751-798 | A schema update carries the recorded total of every flow control it still lists over, whatever the order and repetitions of the schemas |
| `QuotaSafety.FirstSyncEstablishesInv` | pkg/ratelimiter/limiter/ratelimter.go:368-413 | The first schema of a new upstream starts a run in which the invariant holds |
| `QuotaSafety.ReportStoresNext` | pkg/ratelimiter/limiter/ratelimter.go:186-227 | A report with one item for a flow control stores exactly the controller's next quota for it, whatever other items it has |
| `QuotaSafety.ReportRecordsSum` | pkg/ratelimiter/limiter/ratelimter.go:686-749 | After an accepted report the recorded total is the true sum over all clients, and the sum changed only by what this client gained |
| `QuotaSafety.SaturatedClientAbsorbs` | pkg/ratelimiter/limiter/allocation.go:49-51 | A client that stays saturated while nobody else reports gains at least one unit per update, takes over all that remains in as many updates as units remain, and then keeps it |
| `QuotaSafety.SaturatedReport` | pkg/ratelimiter/limiter/ratelimter.go:186-227 | One saturated report moves at least one remaining unit to the client, and exactly what it gains leaves the remainder |
| `QuotaSafety.OldStateIsSafeIff` | pkg/ratelimiter/limiter/ratelimter.go:181-218 | Honest reports computed from some state, old or new, all keep its total exactly when no more is stored now than that state records |
| `QuotaSafety.HonestReportsFitIff` | pkg/ratelimiter/limiter/ratelimter.go:181-218 | They all keep the sum within a given bound exactly when the bound covers what is stored and what seems to remain in that state |
| `QuotaSafety.GreedyReportTakesAll` | pkg/ratelimiter/limiter/allocation.go:122-132 | Any client with a positive claim has a report that earns it its claim and all that remains |
| `QuotaSafety.CrashedJoinsAddUp` | pkg/ratelimiter/limiter/ratelimter.go:218-227 | While recording crashes, every newcomer is given a unit of what was left at the last recording, however many they are |
| `QuotaRaces.InPlaceRacesAreSafe` | pkg/ratelimiter/store/local/local.go:22-33 | With a store that hands out and saves the same object, in every interleaving of fetching the entry, the locked parts of reports, clean-ups and schema updates, the quotas fit the total at every point, also while a report is half-way |
| `QuotaRaces.RacesAreSafe` | pkg/ratelimiter/limiter/ratelimter.go:145-227 | For either kind of store, in every interleaving in which reports are computed from objects that limit the flow control like the stored entry and record at least what is stored, the quotas fit the total at every point, also while a report is half-way |
| `QuotaRaces.BeginIsSafeIff` | pkg/ratelimiter/limiter/ratelimter.go:145-218 | And that condition is exact: all honest reports through a reference keep the total exactly when its object records at least what is stored |
| `QuotaRaces.FreshRacesAreSafe` | pkg/ratelimiter/limiter/ratelimter.go:145-227 | In particular every interleaving in which reports work through references that are up to date is safe |
| `QuotaRaces.UpToDateIff` | pkg/ratelimiter/store/k8s/cache_store.go:60-75 | A reference that was up to date is so later exactly when nothing was written in between or the last write went through it |
| `QuotaRaces.HandsOutWrittenIff` | pkg/ratelimiter/store/k8s/cache_store.go:60-75 | After a write the store hands out the object that was written exactly if it does not copy; a copying store hands out a new one |
| `QuotaRaces.UninterruptedIsUpdate` | pkg/ratelimiter/limiter/ratelimter.go:145-227 | A report that nothing interrupts, through an object that holds what the store holds, is one step of the sequential server |
| `QuotaRaces.StepIsSafe` | pkg/ratelimiter/limiter/ratelimter.go:145-227 | Each step keeps the sum within the total, and the invariant of the sequential server whenever the lock is free |
| `QuotaRaces.StepKeepsStamps` | pkg/ratelimiter/limiter/ratelimter.go:742-748 | Objects written by the last write hold what the store holds, for both kinds of store |
| `QuotaRaces.StepKeepsShared` | pkg/ratelimiter/store/local/local.go:51-60 | In a store that saves the object itself, every reference ever handed out is the one the store holds |
| `QuotaRaces.FinishIsSafe` | pkg/ratelimiter/limiter/ratelimter.go:223-227 | Recording the totals at the end of a report restores the invariant |
| `QuotaWitnesses.OldReferenceOverAllocates` | pkg/ratelimiter/store/k8s/cache_store.go:176-200 | A run of the server with a copying store: a fetches its reference, b joins through it, c joins through the copy that b left, then a joins, and 3 of a total of 2 are handed out |
| `QuotaWitnesses.CrashesOverAllocate` | pkg/ratelimiter/limiter/ratelimter.go:733-735 | After a status of another kind was stored, two newcomers get at least 2 of any total of which something remains on record |
| `QuotaWitnesses.ForeignReport` | pkg/ratelimiter/limiter/ratelimter.go:733-735 | A report without items and with a status of another kind is stored, and the server crashes before it records anything |
| `Gateways.OvershootIsUntold` | pkg/flowcontrols/remote/remote_allocation.go:121-150 | However many replies are lost, reports crash half-way and gateways are forgotten, the quotas exceed the total by no more than the decreases that a single gateway was not told of, and the increases that were not recorded, when it reported |
| `Gateways.ReportsFitIff` | pkg/flowcontrols/remote/remote_allocation.go:121-150 | Whatever else a gateway with some quota reports, the total is kept exactly when its claim exceeds what it holds by no more than what is recorded and not stored any more |
| `Gateways.OvershootIsAttained` | pkg/flowcontrols/remote/remote_allocation.go:121-150 | It has a report after which the sum is the total plus exactly the false part of its claim, less what is recorded and not stored any more |
| `QuotaWitnesses.LostReplyOverAllocates` | pkg/flowcontrols/remote/remote_allocation.go:121-150 | A run of the gateways: one is cut from 2 to 1 and the reply is lost, another takes the unit, the first claims 2 again, and 3 of a total of 2 are handed out |
| `Gateways.GatewaysAreHonest` | pkg/flowcontrols/remote/remote_allocation.go:176-258 | If every reply arrives and no live gateway is forgotten, every report says what the server stored last |
| `Gateways.ReportKeepsClaims` | pkg/flowcontrols/remote/remote_allocation.go:121-150 | One report, with its reply delivered or lost, or crashed half-way, keeps: no gateway claims more than it holds and was not told of |
| `Gateways.ReplyTells` | pkg/flowcontrols/remote/remote_allocation.go:216-240 | A reply that arrives leaves the gateway with exactly what the server counts as held by it and nothing untold; a lost one leaves its limit |
| `Gateways.ReplyIsHeld` | pkg/flowcontrols/remote/remote_allocation.go:216-240 | The limit a gateway reads from the reply is what the server counts as held by it |
| `QuotaServer.ComputeItems` | pkg/ratelimiter/limiter/ratelimter.go:185-216 | The loop over a report's items computes the specified items: unknown flow controls are dropped, the first change of type refuses the report |
| `Aggregation.LastItemCounts` | pkg/ratelimiter/limiter/ratelimter.go:183 | Where the upstream lists a flow control more than once, the last entry is the one that counts |
| `Aggregation.LastStatusCounts` | pkg/ratelimiter/limiter/ratelimter.go:181-182 | The same of recorded and reported statuses |
| `Aggregation.UnnamedIsUnknown` | pkg/ratelimiter/limiter/ratelimter.go:183-194 | A flow control is known exactly when the upstream lists it |
| `QuotaServer.RefusedIff` | pkg/ratelimiter/limiter/ratelimter.go:195-199 | A report is refused exactly when some configured item changed its type |
| `QuotaServer.LimitServer.UpdateLocked` | pkg/ratelimiter/limiter/ratelimter.go:181-229 | The part under the lock, through a reference fetched earlier, is refused exactly when an item changed its type and then changes nothing; it crashes exactly when some stored status is of another kind than configured, with the client's items stored and nothing recorded; otherwise it stores the items and the recomputed totals, through that reference |
| `QuotaServer.LimitServer.UpdateRateLimitConditionStatus` | pkg/ratelimiter/limiter/ratelimter.go:132-230 | A report that is not interrupted is refused exactly when the upstream is unknown or an item changed its type, and otherwise is stored as one step or crashes half-way |
| `QuotaServer.LimitServer.SaveState` | pkg/ratelimiter/store/k8s/cache_store.go:60-75 | Saving the upstream's entry makes the store hold the object itself, or a copy at a new reference |
| `QuotaServer.LimitServer.RecordStatuses` | pkg/ratelimiter/limiter/ratelimter.go:742-748 | The statuses are written through the given reference, and the store then holds that entry |
| `QuotaServer.LimitServer.DeleteCondition` | pkg/ratelimiter/limiter/ratelimter.go:629-642 | Removes a client's condition and never the upstream's own |
| `QuotaServer.LimitServer.UpdateUpstreamStateCondition` | pkg/ratelimiter/limiter/ratelimter.go:751-798 | Rewrites the upstream's items in schema order and keeps every recorded status |
| `QuotaServer.KeptStatus` | pkg/ratelimiter/limiter/ratelimter.go:776-789 | Filling in the missing part of a recorded status does not change the recorded quota |
| `QuotaServer.KeptStatusIs` | pkg/ratelimiter/limiter/ratelimter.go:776-789 | A kept status has the recorded parts and level, and is given a part exactly where the schema limits that kind and nothing was recorded |
| `Allocation.NextIsBounded` | pkg/ratelimiter/limiter/allocation.go:147-159 | For every reading with defined divisions, also with negative quotas, the next quota is at most current plus remaining, and at least 1 when that is possible |
| `Allocation.NextIsNonNegativeIff` | pkg/ratelimiter/limiter/allocation.go:147-159 | A quota is non-negative exactly when the global quota is over-allocated by no more than the client's own quota |
| `Allocation.CutTotalGivesNegativeQuota` | pkg/ratelimiter/limiter/allocation.go:147-159 | After the total is cut from 100 to 10, a client holding 50 is given -40 |
| `Allocation.NegativeQuotaRecovers` | pkg/ratelimiter/limiter/allocation.go:147-159 | A client with a negative quota is kept at what the total allows and is given at least 1 exactly when the total allows it |
| `Allocation.AllocatePercentAtLeast60` | pkg/ratelimiter/limiter/allocation.go:64-68 | The share to hand out is at least 60 percent, so the later division is defined, for every level whose product fits 32 bits |
| `Targets.BranchIff` | pkg/ratelimiter/limiter/allocation.go:54-145 | Which branch a reading takes, for each branch if and only if, in whole-number terms: the quota is 0, the level that counts is 0, or it is compared with the target and the number 5 from it on the side towards 50 |
| `Targets.TargetIsUnique` | pkg/ratelimiter/limiter/allocation.go:54-82 | The controller's target is the one number t that belongs to the reading: 70 percent less one per 100 units but at least 60, the point of the line from there to 100, the point of the line from 5 to 100, the root of the used percentage, and their ratio plus that root, capped at 100, each rounded down |
| `Targets.TargetIs` | pkg/ratelimiter/limiter/allocation.go:54-82 | The numbers the controller computes on the way belong to its reading, and nothing wraps around |
| `Targets.NumbersExist` | pkg/ratelimiter/limiter/allocation.go:44-87 | Every reading has such numbers, so the two rows above cover all of them |
| `Targets.LevelIsUnique` | pkg/ratelimiter/limiter/allocation.go:49-51 | The level that counts is the reported one, or for a level above 100 of a client within its quota the used percentage, rounded down |
| `Targets.PercentAtEnds` | pkg/ratelimiter/limiter/allocation.go:62-68 | The share to hand out is the minimum percentage at upstream level 0 and 100 at level 100 |
| `Targets.PercentGrows` | pkg/ratelimiter/limiter/allocation.go:62-68 | In between it does not fall as the level grows |
| `Targets.FullUpstreamTargets100` | pkg/ratelimiter/limiter/allocation.go:70-82 | At an upstream level of 100 or more every client's target is 100 |
| `Targets.TargetFallsIff` | pkg/ratelimiter/limiter/allocation.go:70-82 | One upstream level more lowers a target exactly at six pairs of minimum percentage and level, by one, unless the target is capped at 100 there |
| `Targets.TargetGrows` | pkg/ratelimiter/limiter/allocation.go:70-82 | Over any range of upstream levels without such a pair, targets do not fall |
| `Targets.HigherLevelLowerTarget` | pkg/ratelimiter/limiter/allocation.go:70-82 | With a total of 100, a client that uses nothing has a target of 87 at upstream level 80 and of 86 at 81 |
| `Targets.LessUseAsHighIff` | pkg/ratelimiter/limiter/allocation.go:72-78 | At the same upstream level and total a client that uses less never gets a higher target, and as high a one exactly when the rounded root of the used percentage is the same or the target is capped |
| `Targets.MoreUseHigherTarget` | pkg/ratelimiter/limiter/allocation.go:72-78 | With a total of 100 and an idle upstream, using nothing gives a target of 7 and using everything one of 17 |
| `Targets.CompensationAtMostTenIff` | pkg/ratelimiter/limiter/allocation.go:72-75 | The compensation is at most 10 exactly while a client uses less than 121 percent of the total |
| `Allocation.ThresholdsAreFiveApart` | pkg/ratelimiter/limiter/allocation.go:70-87 | The increasing threshold lies 5 above the reducing one and at most at 100, so every level of 100 or more is in the increase branch; where the thresholds lie is stated by the Targets rows |
| `Allocation.ReduceKeepsUsed` | pkg/ratelimiter/limiter/allocation.go:122-132 | The reducing branch never cuts below what the client uses unless the global quota forces it |
| `Allocation.ReducedByAFifth` | pkg/ratelimiter/limiter/allocation.go:122-132 | An under-used quota loses a fifth, rounded in the client's favour, or one unit of a small quota; it loses less only down to what is used or to the minimum |
| `Allocation.ReduceRaisesIff` | pkg/ratelimiter/limiter/allocation.go:122-132 | The reducing branch raises a quota exactly when the client uses more than it has and something remains |
| `Allocation.ReducedToTwice` | pkg/ratelimiter/limiter/allocation.go:122-132 | A client with a quota of 10 that uses 20 and reports a low level is given 20 by the reducing branch |
| `Allocation.IncreasedByThreeTenths` | pkg/ratelimiter/limiter/allocation.go:133-144 | High use gains 30 percent, overload 60 percent, rounded up, or all that remains |
| `Allocation.KeptInTheBand` | pkg/ratelimiter/limiter/allocation.go:89-145 | Between the thresholds a quota above the minimum stays as it is |
| `Allocation.JoinsWithATwentieth` | pkg/ratelimiter/limiter/allocation.go:92-98 | A newcomer among at most ten clients gets a twentieth of what remains, rounded up, and no less than the minimum |
| `Allocation.JoinsWithEqualShare` | pkg/ratelimiter/limiter/allocation.go:92-98 | A newcomer among more clients gets an equal share of what remains, rounded up, and no less than the minimum |
| `Allocation.JoinsTakeAShare` | pkg/ratelimiter/limiter/allocation.go:92-98 | Twenty newcomers among few clients, or as many as there are clients, would be given all that remains |
| `Allocation.IdleGivesBack` | pkg/ratelimiter/limiter/allocation.go:99-120 | While enough is handed out, an idle client gives back the largest of a fifth of its quota, a fiftieth of the total and one unit, no more, and no less unless the minimum is reached |
| `Allocation.IdleKeeps` | pkg/ratelimiter/limiter/allocation.go:99-120 | Between the two an idle client keeps what it has |
| `Allocation.IdleGrowsFreely` | pkg/ratelimiter/limiter/allocation.go:99-120 | While too little is handed out and no client is known, an idle client gains 30 percent of what remains, without a bound |
| `Allocation.IdleGrowsToItsShare` | pkg/ratelimiter/limiter/allocation.go:99-120 | While too little is handed out, an idle client gains 30 percent of what remains, rounded up, but not beyond its share of 70 percent of the total |
| `Allocation.SaturatedClientGains` | pkg/ratelimiter/limiter/allocation.go:133-159 | A client that uses all it has and reports full load gains a unit as long as one remains, and never loses |
| `Allocation.SaturatedLevel` | pkg/ratelimiter/limiter/allocation.go:49-51 | Recomputing a level above 100 does not hide saturation |
| `Allocation.BurstIsProportional` | pkg/ratelimiter/limiter/allocation.go:161-164 | The burst is the least integer that is no less than the quota's share of the configured burst |
| `Allocation.SetLimit` | pkg/ratelimiter/limiter/allocation.go:180-194 | Setting a limit sets the quota that reading it yields and leaves the other kind of limit alone |
| `Allocation.NextItem` | pkg/ratelimiter/limiter/allocation.go:23-36 | The new item keeps the name and the strategy of the reported one |
| `Allocation.NextItemIs` | pkg/ratelimiter/limiter/allocation.go:23-36 | An item limited by counting gets the whole total, an item of unknown kind stays, any other gets the next quota and keeps its limit of the other kind |
| `Allocation.NextItemBurst` | pkg/ratelimiter/limiter/allocation.go:161-175 | A token bucket's new burst is the least one that covers its share of the configured burst |
| `Aggregation.CalculateUpstreamStatus` | pkg/ratelimiter/limiter/ratelimter.go:686-749 | The server crashes exactly when some condition has a status of another kind than the configured one; otherwise the recorded statuses name every flow control that some client holds once, with the tally over all client conditions, in any listing order; RecordedLevelIs and ReportRecordsSum say what the tally is |
| `Levels.RecordedLevelIs` | pkg/ratelimiter/limiter/ratelimter.go:724-748 | A flow control that some client holds is recorded with a level of L exactly when all clients' use, added up over conditions and repeated statuses, is at least L percent of the configured total and less than L + 1 percent, for both kinds of limit |
| `Levels.StoreLevel` | pkg/ratelimiter/limiter/ratelimter.go:724-738 | The level over all conditions is that of the clients' use, in whatever additive way one status is turned into a level |
| `Levels.ConditionLevel` | pkg/ratelimiter/limiter/ratelimter.go:724-738 | The same over the statuses of one condition |
| `Levels.PartsAreShares` | pkg/ratelimiter/limiter/ratelimter.go:731-736 | What a status adds is its number in flight over the configured number, or its rate over the configured rate |
| `Aggregation.AggregateIsUnique` | pkg/ratelimiter/limiter/ratelimter.go:686-749 | What is recorded under a name is determined by the conditions, so the order of listing is irrelevant, and a name nobody holds is not recorded |
| `Aggregation.AggregatesExist` | pkg/ratelimiter/limiter/ratelimter.go:686-749 | Totals over any conditions can be recorded |
| `Aggregation.StoreTallyUpdate` | pkg/ratelimiter/limiter/ratelimter.go:686-749 | Storing a condition replaces its own share of the total and nothing else |
| `Aggregation.AddItems` | pkg/ratelimiter/limiter/ratelimter.go:699-722 | Adding a condition's items adds its tally to the running limits of every flow control |
| `Aggregation.AddLevels` | pkg/ratelimiter/limiter/ratelimter.go:724-738 | Adding a condition's statuses crashes exactly when one is of another kind than configured, and otherwise adds its level tally, which ConditionLevel turns into a share of the use; a total of 0 makes a level undefined |
| `Aggregation.ListStatuses` | pkg/ratelimiter/limiter/ratelimter.go:742-748 | Writing the running totals out lists every flow control once, with its totals |
| `AcquireServer.HalvingsGrantTheFirstFit` | pkg/ratelimiter/limiter/ratelimter.go:262-274 | A grant is a halving of the request that fits the bucket, and if it is not the whole request it is at least half of what the bucket holds |
| `AcquireServer.RefusedIff` | pkg/ratelimiter/limiter/ratelimter.go:262-274 | Four offers fail exactly when the request does not fit and either an eighth of it does not fit or the bucket is empty |
| `AcquireServer.AcquirePaysTheAnswer` | pkg/ratelimiter/limiter/ratelimter.go:262-274 | An accepted request takes exactly the granted tokens, at most the requested ones; a refusal takes none; TokenRequestIsAnswered says when and what |
| `AcquireServer.TokenRequestIsAnswered` | pkg/ratelimiter/limiter/ratelimter.go:248-274 | A token request is accepted exactly when it fits or an eighth of it fits a bucket that is not empty; the grant is the request itself if that fits, and otherwise a half, a quarter or an eighth of it that takes at least half the bucket; a negative request is an error, a refusal grants 0 |
| `AcquireServer.InflightReportIsAnswered` | pkg/ratelimiter/limiter/ratelimter.go:276-288 | A report of requests in flight is accepted exactly when it is new and the new sum stays below the maximum, or reports nothing and does not exceed it; it is an error exactly when it is old; without error the answer is what is recorded afterwards |
| `AcquireServer.ReportLeavesId` | pkg/ratelimiter/store/flowcontrol/maxinflight.go:67-115 | A gateway's last request id is the largest of the positive ones it sent, and no other gateway's record changes |
| `AcquireServer.NegativeReportForgets` | pkg/ratelimiter/store/flowcontrol/maxinflight.go:68-80 | A gateway that reports a negative count is forgotten and its requests leave the count |
| `AcquireServer.BatchAnswersTokens` | pkg/ratelimiter/limiter/ratelimter.go:247-318 | Over a batch every token request is answered in that way by what its bucket holds after paying the answers before it |
| `AcquireServer.BatchMissesUnknown` | pkg/ratelimiter/limiter/ratelimter.go:248-260 | A flow control that the store does not have is answered with an error, wherever it stands in the batch |
| `AcquireServer.BatchPaysTheAnswers` | pkg/ratelimiter/limiter/ratelimter.go:247-318 | Over a batch every request is answered in order and every bucket pays exactly what the answers grant, also when a flow control is named more than once |
| `AcquireServer.BatchKeepsLimits` | pkg/ratelimiter/limiter/ratelimter.go:276-288 | A batch keeps every in-flight limit of the store: counts add up and stay under their maximum |
| `AcquireServer.BatchFitsRequests` | pkg/ratelimiter/limiter/ratelimter.go:247-318 | The answers stand in the order of the requests, and none grants more than was asked for |
| `AcquireServer.LimitStore.TryHalvings` | pkg/ratelimiter/limiter/ratelimter.go:262-274 | The loop takes from the bucket exactly the first halving that fits |
| `AcquireServer.LimitStore.AcquireOne` | pkg/ratelimiter/limiter/ratelimter.go:248-302 | One request is answered by Acquire, about which TokenRequestIsAnswered and InflightReportIsAnswered are, or as unknown |
| `AcquireServer.LimitStore.DoAcquire` | pkg/ratelimiter/limiter/ratelimter.go:232-328 | A batch is answered by AcquireAll, request by request, each from what the ones before it left (BatchAnswersTokens, BatchMissesUnknown, BatchKeepsLimits) |
| `AcquireServer.SetStateKeepsSum` | pkg/ratelimiter/store/flowcontrol/maxinflight.go:67-115 | A report keeps: the global count is the sum of the gateways' counts |
| `AcquireServer.InflightSafety` | pkg/ratelimiter/store/flowcontrol/maxinflight.go:45-115 | In every run of atomic reports and resizes the recorded sum never exceeds the largest maximum so far |
| `AcquireServer.ReportIsRecordedIff` | pkg/ratelimiter/store/flowcontrol/maxinflight.go:94-114 | A report that is fresh or has no request id is recorded exactly when the new sum fits under the maximum |
| `AcquireServer.DecreaseIsRefusedAboveMax` | pkg/ratelimiter/store/flowcontrol/maxinflight.go:106-110 | After the maximum was cut to 5 a gateway that goes down from 10 to 8 is held at 10 |
| `InflightRace.CountIsConservedIff` | pkg/ratelimiter/store/flowcontrol/maxinflight.go:45-115 | In every interleaving of the atomic operations of reports, deletions and resizes, whenever no report is under way the global count is the sum over the gateways exactly when the drifts of the steps cancel out |
| `InflightRace.StepDrifts` | pkg/ratelimiter/store/flowcontrol/maxinflight.go:67-115 | Each atomic operation changes the distance between count and sum by nothing, except a swap or take-back on a record that was forgotten since its lookup, or forgetting a record that is not registered any more |
| `InflightRace.TimelyCountIsConserved` | pkg/ratelimiter/store/flowcontrol/maxinflight.go:67-115 | If no deletion falls between a lookup and its use, the count is conserved |
| `InflightRace.OvertakenReportLosesCount` | pkg/ratelimiter/store/flowcontrol/maxinflight.go:68-80 | A concrete interleaving: a gateway is forgotten between lookup and swap, and the count ends at -3 with nobody registered |
| `InflightRace.WholeIsSetState` | pkg/ratelimiter/store/flowcontrol/maxinflight.go:67-115 | The atomic operations of a report that nothing interrupts, with its taking back if it is refused, have together the effect it has without concurrency |
| `InflightRace.StepFitsIff` | pkg/ratelimiter/store/flowcontrol/maxinflight.go:45-115 | A step keeps what will stay in the count under the maximum exactly when it is not a report counted within the maximum although more will stay, nor the forgetting of a gateway whose record is below zero, nor a maximum below what will stay under it |
| `InflightRace.FitsIff` | pkg/ratelimiter/store/flowcontrol/maxinflight.go:45-115 | An interleaving of reports, deletions and resizes keeps that throughout exactly when no step overfills |
| `InflightRace.RestingResizeOverfillsIff` | pkg/ratelimiter/store/flowcontrol/maxinflight.go:45-52 | While no report is under way, a resize loses the maximum exactly when it cuts it below the count |
| `InflightRace.OverfillNeedsRefusedDecrease` | pkg/ratelimiter/store/flowcontrol/maxinflight.go:104-110 | A report counted within the maximum overfills only while some refused report still has to take a decrease back |
| `InflightRace.StaysUnderMax` | pkg/ratelimiter/store/flowcontrol/maxinflight.go:45-115 | If no deletion falls between a lookup and its use and no step overfills, in every interleaving the gateways' counts add up to no more than the maximum whenever no report is under way |
| `InflightRace.RefusedDecreaseExceedsMax` | pkg/ratelimiter/store/flowcontrol/maxinflight.go:61-115 | A concrete interleaving of three registered gateways with a refused decrease ends at rest with 13 in flight under a maximum of 10 |
| `TokenProtocol.TokenSafety` | pkg/flowcontrols/remote/global_flowcontrol.go:397-485 | In every interleaving of the atomic operations of all gateways and the server, with replies late, reordered or lost, requests admitted by taking a token never outnumber the tokens granted to their gateway, nor system-wide the tokens ever in the server's bucket |
| `TokenProtocol.StepKeepsInv` | pkg/flowcontrols/remote/global_flowcontrol.go:397-485 | Each atomic step keeps every gateway's account and the balance between the server, the gateways and the replies on the way |
| `TokenProtocol.LocalEffectKeepsInv` | pkg/flowcontrols/remote/global_flowcontrol.go:418-485 | Taking, undoing, loading for a resize and the later subtraction keep a gateway's account and grant nothing |
| `TokenProtocol.DeliverKeepsInv` | pkg/flowcontrols/remote/global_flowcontrol.go:397-411 | Delivering a reply moves its tokens from the way into the gateway's account |
| `TokenProtocol.GrantKeepsInv` | pkg/ratelimiter/limiter/ratelimter.go:262-275 | A grant moves tokens from the server's bucket onto the way |
| `TokenProtocol.AdmittedAtMostGranted` | pkg/flowcontrols/remote/global_flowcontrol.go:454-485 | Accounts that balance admit no more than was granted, per gateway and in total |
| `TokenProtocol.StartsAccounted` | pkg/flowcontrols/remote/global_flowcontrol.go:298-316 | A system without gateways and replies starts balanced |
| `TokenProtocol.LateDiscardLeavesDebt` | pkg/flowcontrols/remote/global_flowcontrol.go:424-431 | A concrete interleaving of a resize with two takes leaves a stock of -1 at rest |
| `TokenProtocol.TakeAdmitsIff` | pkg/flowcontrols/remote/global_flowcontrol.go:454-470 | A take admits a request exactly when there is a token, and with its undoing otherwise leaves the stock as it was |
| `TokenProtocol.ResizeDiscards` | pkg/flowcontrols/remote/global_flowcontrol.go:424-431 | A resize that nothing interrupts brings the stock down to the reserve, or leaves it, and books what it takes away |
| `TokenProtocol.SolventIff` | pkg/flowcontrols/remote/global_flowcontrol.go:418-485 | In every interleaving, all stocks stay non-negative up to failed takes still to be undone, throughout, exactly when no late subtraction takes more than will be there |
| `TokenProtocol.StepIsSolventIff` | pkg/flowcontrols/remote/global_flowcontrol.go:424-431 | A step keeps that exactly when it is not such a subtraction |
| `TokenProtocol.RestingStockIsNotNegative` | pkg/flowcontrols/remote/global_flowcontrol.go:418-485 | So without one, a stock with no failed take under way is not negative |
| `TokenStock.StockIsBounded` | pkg/flowcontrols/remote/global_flowcontrol.go:317-443 | In every run the tokens in flight are exactly those of the open requests, and stock plus tokens in flight never exceed the largest reserve so far |
| `TokenStock.StepKeepsInv` | pkg/flowcontrols/remote/global_flowcontrol.go:317-443 | Asking, an answer, a made-up timeout answer, a resize and a use each keep that account |
| `TokenStock.ExpectTokenFitsRoom` | pkg/flowcontrols/remote/global_flowcontrol.go:317-348 | The stock never asks for more than it has room for, and asks for something once a batch has room or 100 ms have passed |
| `TokenStock.ExpectTokenIs` | pkg/flowcontrols/remote/global_flowcontrol.go:317-348 | What is asked for: nothing exactly when there is no room, or less than a batch and the last answer is recent; otherwise all the room or a batch, the usual one or a tenth of a rate above the reserve |
| `TokenStock.StockIsLedger` | pkg/flowcontrols/remote/global_flowcontrol.go:317-485 | In every run the tokens in stock are those at the start plus those granted, less those used and those discarded by resizes |
| `TokenStock.StepIsBooked` | pkg/flowcontrols/remote/global_flowcontrol.go:317-485 | Each step changes the stock by what it grants, uses and discards, and a resize sets the reserve to a twentieth of the rate |
| `TokenStock.AnswerFillsStock` | pkg/flowcontrols/remote/global_flowcontrol.go:366-416 | An answer adds its grant exactly when it is accepted without error, takes its request off the tokens in flight, and an error leaves the last time |
| `TokenStock.OutageIff` | pkg/flowcontrols/remote/global_flowcontrol.go:378-404 | An outage begins exactly with an error other than a request too old and ends exactly with an acceptance; the limiter has the fallback rate from its beginning and the configured one from its end, and is not touched otherwise |
| `TokenStock.SizesAre` | pkg/flowcontrols/remote/global_flowcontrol.go:418-437 | The reserve is a twentieth of the rate and the batch a tenth of the reserve, rounded down, at least 1 |
| `TokenStock.NewWrapperIsAccounted` | pkg/flowcontrols/remote/global_flowcontrol.go:80-89 | A new wrapper starts with its accounts in order |
| `StockRace.StockIsBoundedIff` | pkg/flowcontrols/remote/global_flowcontrol.go:317-485 | One atomic operation at a time, in every interleaving of requests, answers, takes and resizes, the stock, what failed takes will put back, the tokens in flight and the grants not in stock yet stay within the largest reserve throughout exactly when no request books more than is missing from it |
| `StockRace.StepIsBoundedIff` | pkg/flowcontrols/remote/global_flowcontrol.go:317-485 | A step keeps that bound exactly when it does not book too much |
| `StockRace.StepKeepsInv` | pkg/flowcontrols/remote/global_flowcontrol.go:317-485 | Each atomic operation keeps the account of tokens in flight, and what a request asks for fits what it saw |
| `StockRace.UndisturbedStockIsBounded` | pkg/flowcontrols/remote/global_flowcontrol.go:317-416 | The bound holds in every interleaving in which requests load the stock while no failed take is under way and no answer half-way, and no grant settles between their two loads |
| `StockRace.Disturbances` | pkg/flowcontrols/remote/global_flowcontrol.go:317-416 | What a request sees covers all there is exactly when no failed take and no grant is under way at its first load, and loses exactly the grants that settle before its second load |
| `StockRace.AskIsExpectToken` | pkg/flowcontrols/remote/global_flowcontrol.go:317-352 | A request that nothing interrupts asks for what the stock without concurrency asks for |
| `StockRace.AnswerIsSetLimit` | pkg/flowcontrols/remote/global_flowcontrol.go:366-416 | An answer that nothing interrupts has the effect on the stock that it has without concurrency |
| `StockRace.TakeIsUse` | pkg/flowcontrols/remote/global_flowcontrol.go:454-470 | So has a take, together with its undoing when there was nothing to take |
| `StockRace.ResizeIsResize` | pkg/flowcontrols/remote/global_flowcontrol.go:418-443 | So has a resize, together with the later subtraction |
| `StockRace.HalfWayAskOverfills` | pkg/flowcontrols/remote/global_flowcontrol.go:372-410 | A run: a stock with a reserve of 1 asks again while the first answer is half-way and ends up with 2 |
| `StockRace.AnswerBetweenLoadsOverfills` | pkg/flowcontrols/remote/global_flowcontrol.go:318-330 | A run: the whole first answer falls between the two loads of the next request, no answer is half-way at either, and the stock ends up with 2 |
| `StockRace.FailedTakeOverasks` | pkg/flowcontrols/remote/global_flowcontrol.go:459-461 | A run: the stock is loaded while a failed take has to be undone, and 2 are in flight for a reserve of 1 |
| `TokenStock.RecoveryRestoresLimiterIff` | pkg/flowcontrols/remote/global_flowcontrol.go:418-443 | An outage and its end bring the configured limiter back exactly when burst equals rate |
| `TokenStock.TokenBucketWrapper.constructor` | pkg/flowcontrols/remote/global_flowcontrol.go:80-89 | A new wrapper is an empty one resized to its configuration |
| `TokenStock.TokenBucketWrapper.Expected` | pkg/flowcontrols/remote/global_flowcontrol.go:317-348 | The statements compute the specified request |
| `TokenStock.TokenBucketWrapper.ApplyReply` | pkg/flowcontrols/remote/global_flowcontrol.go:366-416 | The statements have the effect of SetLimit, which AnswerFillsStock, OutageIff and StockIsLedger are about, and report whether there is room left |
| `TokenStock.TokenBucketWrapper.ResizeTo` | pkg/flowcontrols/remote/global_flowcontrol.go:418-443 | The statements have the specified effect of a resize |
| `TokenStock.TokenBucketWrapper.TakeToken` | pkg/flowcontrols/remote/global_flowcontrol.go:454-485 | Takes a token exactly when there is one and otherwise leaves the stock as it was |
| `CounterManager.GlobalCounterManager.AcquireRequest` | pkg/flowcontrols/remote/remote_counter.go:251-303 | One batch asks every due flow control that wants something or was silent too long, and every due in-flight limit, once and for exactly its wish, books the tokens it asks for, touches no other, and keeps every account in order |
| `CounterManager.GlobalCounterManager.HandleReply` | pkg/flowcontrols/remote/remote_counter.go:203-248 | Any reply, whatever it names, repeats or leaves out, reaches the flow controls it names one answer after the other; a failed call reaches all of its requests |
| `CounterManager.FittingReplyKeepsOrder` | pkg/flowcontrols/remote/remote_counter.go:231-247 | A reply whose answers are to requests of the batch, none twice and none granting more than was asked for, in any order and with any left out, keeps all accounts in order, closes exactly the answered requests and leaves the others open |
| `CounterManager.AnsweredOnce` | pkg/flowcontrols/remote/remote_counter.go:231-247 | A flow control that is named once receives that answer, wherever it stands in the reply |
| `CounterManager.UnansweredStays` | pkg/flowcontrols/remote/remote_counter.go:231-247 | A flow control that no answer names stays as it is |
| `CounterManager.ServerAnswersFit` | pkg/ratelimiter/limiter/ratelimter.go:232-328 | The limit server's answers to a batch fit in that sense |
| `CounterManager.MadeUpFits` | pkg/flowcontrols/remote/remote_counter.go:219-226 | So do the answers made up for a failed call |
| `CounterManager.RepeatedAnswerIsHarmlessIff` | pkg/flowcontrols/remote/remote_counter.go:231-240 | An answer that is delivered twice leaves the account of tokens in flight right exactly when its request was for nothing |
| `CounterManager.AskingKeepsOrder` | pkg/flowcontrols/remote/remote_counter.go:280-300 | Asking keeps the account of tokens in flight and the bound on the stock |
| `CounterManager.AsksIff` | pkg/flowcontrols/remote/remote_counter.go:280-300 | A batch asks a token counter exactly when it was silent too long, or there is room for a batch, or for less and the last answer is not recent; it always asks an in-flight counter, for its wish over what is in flight now |
| `CounterManager.ErrorBeginsOutage` | pkg/flowcontrols/remote/global_flowcontrol.go:180-200 | An error that begins an outage leaves a limiter of exactly the larger of what was measured and the local limit, for both kinds of counter |
| `CounterManager.AcceptanceCounts` | pkg/flowcontrols/remote/global_flowcontrol.go:168-224 | An acceptance without error ends an outage, is added to the stock and closes its request, or becomes the in-flight limit if it is in time |
| `CounterManager.MakeUpAnswers` | pkg/flowcontrols/remote/remote_counter.go:219-226 | A failed call is turned into one error answer per request |
| `CounterManager.AskOne` | pkg/flowcontrols/remote/remote_counter.go:284-298 | A flow control is asked when it wants tokens or was silent too long, and what is asked is booked |
| `MaxInflight.NewestReplyWins` | pkg/flowcontrols/remote/global_flowcontrol.go:168-224 | Whatever the order of delivery, the wrapper ends with the error-free answer to its latest question, an accepted one clamped between reserve and maximum |
| `MaxInflight.DeliveryOrderIsIrrelevant` | pkg/flowcontrols/remote/global_flowcontrol.go:168-224 | Two delivery orders of the same answers end with the same answer |
| `MaxInflight.OneReply` | pkg/flowcontrols/remote/global_flowcontrol.go:168-224 | An answer is taken exactly when it is error-free and newer than the last one taken |
| `MaxInflight.FindNewest` | pkg/flowcontrols/remote/global_flowcontrol.go:168-224 | After any sequence of answers the remembered one is the newest of them, or the old one if none is newer |
| `AnswerRace.TimeMovesForwardIff` | pkg/flowcontrols/remote/global_flowcontrol.go:168-224 | With the comparison outside the lock, in every interleaving of answers the last acquire time never moves back exactly when no answer takes effect that is older than the last one |
| `AnswerRace.NewestTakenIsRemembered` | pkg/flowcontrols/remote/global_flowcontrol.go:168-224 | Then the wrapper ends with the answer to the latest request that took effect |
| `AnswerRace.OnlyOvertakenRegress` | pkg/flowcontrols/remote/global_flowcontrol.go:168-224 | An answer is older than the last one only if another took effect after it was compared |
| `AnswerRace.OlderAnswerWins` | pkg/flowcontrols/remote/global_flowcontrol.go:169-221 | A run: two answers are both found to be new, and the older one takes effect last and counts |
| `AnswerRace.UninterruptedIsSetLimit` | pkg/flowcontrols/remote/global_flowcontrol.go:168-224 | An answer that nothing interrupts has the effect it has without concurrency |
| `MaxInflight.MaxInflightWrapper.constructor` | pkg/flowcontrols/remote/global_flowcontrol.go:69-79 | A new wrapper is an unlimited one resized to its configuration |
| `MaxInflight.MaxInflightWrapper.ExpectToken` | pkg/flowcontrols/remote/global_flowcontrol.go:132-158 | The statements compute the specified wish |
| `MaxInflight.WantedIsBounded` | pkg/flowcontrols/remote/global_flowcontrol.go:132-158 | The wish never exceeds the maximum, grows by at most a fifth of it, and exceeds what is in flight exactly when requests wait, the limit is not reached and there is room |
| `MaxInflight.WantedIff` | pkg/flowcontrols/remote/global_flowcontrol.go:132-158 | The wish is the largest number within the maximum and within what is in flight plus, while requests wait and the limit is not reached, those that wait and the growth |
| `MaxInflight.GrowthIs` | pkg/flowcontrols/remote/global_flowcontrol.go:132-158 | The growth is 20 percent of the maximum, rounded down, at least 1 |
| `MaxInflight.ClampIsNearest` | pkg/flowcontrols/remote/global_flowcontrol.go:204-212 | An accepted limit becomes the nearest number between the reserve and the maximum |
| `MaxInflight.AnswerSizesLimiter` | pkg/flowcontrols/remote/global_flowcontrol.go:168-224 | An error-free answer sizes the limiter as acquired, the error that begins an outage sizes it by the fallback, and no other answer touches it |
| `MaxInflight.OutageIff` | pkg/flowcontrols/remote/global_flowcontrol.go:168-224 | An outage begins exactly with an error in time other than a request too old, and ends exactly with an acceptance in time; a refusal does not end it |
| `MaxInflight.NewestReplySizesLimiter` | pkg/flowcontrols/remote/global_flowcontrol.go:168-224 | Outside an outage the limiter ends with the size of the newest error-free answer, whatever the order of delivery |
| `MaxInflight.ResizeIs` | pkg/flowcontrols/remote/global_flowcontrol.go:226-241 | A resize sets the reserve to 2 percent of the maximum, at least 1, and the limiter to it unless there is an outage, and leaves the last answer |
| `MaxInflight.MaxInflightWrapper.ApplyReply` | pkg/flowcontrols/remote/global_flowcontrol.go:168-224 | The statements have the specified effect of an answer |
| `MaxInflight.MaxInflightWrapper.ResizeTo` | pkg/flowcontrols/remote/global_flowcontrol.go:226-241 | The statements have the specified effect of a resize |
| `Ring.RingRefinesLog` | pkg/flowcontrols/util/meter.go:201-247 | If successive samples are less than a ring apart, every bucket holds exactly the maximum of the samples of its own slot of the current window, and nothing older |
| `Ring.SampleRefines` | pkg/flowcontrols/util/meter.go:201-247 | One more such sample keeps that |
| `Ring.FirstSampleRefines` | pkg/flowcontrols/util/meter.go:201-247 | The first sample establishes it from an empty ring, whatever its slot |
| `Ring.SilenceIsHarmlessIff` | pkg/flowcontrols/util/meter.go:201-247 | After a silence of a full ring or more the ring still shows the log exactly when the slots the new sample does not touch hold nothing |
| `Ring.BucketAfterSilence` | pkg/flowcontrols/util/meter.go:209-228 | What becomes of every old bucket after a sample at any distance: cleared, kept, overwritten, or merged as a maximum |
| `Ring.StaleMaximumSurvives` | pkg/flowcontrols/util/meter.go:201-247 | A sample of 1 exactly one ring after a sample of 9 is shown as 9, for every ring length |
| `Meter.Meter.constructor` | pkg/flowcontrols/util/meter.go:44-66 | A new meter is empty and its averages are exact |
| `Meter.Meter.LatestRate` | pkg/flowcontrols/util/meter.go:164-179 | The rate times the elapsed time is what was counted since the last call, which is then forgotten; it is undefined exactly when no time has passed |
| `Meter.Meter.CalculateAvgRate` | pkg/flowcontrols/util/meter.go:145-162 | Replaces the oldest rate by the latest; the average kept along the way, while it is a number, is the mean of the ring, and it is lost for good exactly with the first two ticks at the same instant |
| `Meter.MeanMoves` | pkg/flowcontrols/util/meter.go:145-162 | Replacing one rate of the ring moves the mean to the new mean, and loses it exactly when the new rate is undefined |
| `Meter.Meter.ClearPassed` | pkg/flowcontrols/util/meter.go:215-225 | The loop clears exactly the buckets strictly between the last and the current one, also around the end of the ring |
| `Meter.Meter.MaxBucket` | pkg/flowcontrols/util/meter.go:232-238 | Finds the largest bucket |
| `Meter.Meter.MoveTo` | pkg/flowcontrols/util/meter.go:214-228 | Starting a new bucket changes the ring as specified and reports by how much the sum of the settled buckets changed |
| `Meter.Meter.Raise` | pkg/flowcontrols/util/meter.go:209-213 | A sample in the current bucket keeps the larger value and leaves the settled sum alone |
| `Meter.Meter.CalInflight` | pkg/flowcontrols/util/meter.go:201-247 | A sample changes the ring as specified, and the average kept along the way stays that of all buckets but the current one, whatever the time gap |
| `Meter.Meter.InflightWorker` | pkg/flowcontrols/util/meter.go:181-199 | A meter fed with any samples holds the replay of their log, and the slot maxima when they are steady |
| `Registry.RegistryStaysCoherent` | pkg/gateway/controllers/upstream_controller.go:98-158 | Over every run of creations, updates and deletions in which storing a configuration does not fail half-way, a name leads to a cluster object exactly when that registered object lists it |
| `Registry.SyncKeepsCoherence` | pkg/gateway/controllers/upstream_controller.go:98-158 | One event keeps the registry coherent |
| `Registry.SyncTakesEffect` | pkg/gateway/controllers/upstream_controller.go:222-261 | After a successful sync exactly the listed names lead to the cluster and nobody else's name moved |
| `Registry.BlockedIff` | pkg/gateway/controllers/upstream_controller.go:263-310 | An update is refused exactly when a name it wants leads to another cluster |
| `Registry.GivenUpNameBlocks` | pkg/gateway/controllers/upstream_controller.go:281-310 | In any registry, also one that is not coherent, a name that an update gives up and that leads to another cluster blocks the update |
| `Registry.FailedSyncKeepsNames` | pkg/gateway/controllers/upstream_controller.go:115-158 | A cluster that cannot be created or configured changes no name |
| `Registry.OthersNamesStay` | pkg/gateway/controllers/upstream_controller.go:245-252 | In any registry, registering names takes no name away that leads to another cluster |
| `Registry.StoredAt` | pkg/gateway/controllers/upstream_controller.go:222-261 | What every name leads to after a cluster's names were registered |
| `Registry.StoredIsCoherent` | pkg/gateway/controllers/upstream_controller.go:222-261 | Registering the names of a new or known cluster keeps the registry coherent |
| `Registry.DeletedExactly` | pkg/gateway/controllers/upstream_controller.go:312-324 | Deletion takes away exactly the names that lead to the cluster |
| `Registry.DeletedIsCoherent` | pkg/gateway/controllers/upstream_controller.go:312-324 | Deletion keeps the registry coherent and leaves no name leading to the cluster |
| `Registry.OneObjectPerCluster` | pkg/gateway/controllers/upstream_controller.go:98-158 | Two registered objects never belong to the same cluster |
| `Registry.HalfWayFailureIsHarmlessIff` | pkg/clusters/clusterinfo.go:316-324 | When endpoints cannot be set after the names were stored, the registry stays coherent exactly when the new names are the old ones |
| `Registry.RetryDoesNotRepair` | pkg/gateway/controllers/upstream_controller.go:145-155 | Syncing the same cluster again after such a failure leaves the registered names as they were, whatever the outcome |
| `Registry.DeletionStrands` | pkg/gateway/controllers/upstream_controller.go:312-324 | Deleting the cluster after such a failure leaves behind exactly the names it had given up |
| `Registry.LoadServerNames` | pkg/clusters/clusterinfo.go:236-246 | The loop lists the cluster's own name and the configured names in lower case, in order |
| `Registry.NamesIff` | pkg/clusters/clusterinfo.go:236-246 | A name of a cluster is its own or a configured one with every capital turned small, and nothing else is |
| `Registry.UpstreamClusterController.CheckServerNameConflict` | pkg/gateway/controllers/upstream_controller.go:281-310 | The loops find a conflict exactly when there is one |
| `Registry.UpstreamClusterController.AddOrUpdateForServerNames` | pkg/gateway/controllers/upstream_controller.go:222-261 | Registers the names as specified, or changes nothing when there is a conflict |
| `Registry.UpstreamClusterController.RemoveNames` | pkg/gateway/controllers/upstream_controller.go:245-252 | The loop removes exactly the given-up names that lead to the cluster |
| `Registry.UpstreamClusterController.AddNames` | pkg/gateway/controllers/upstream_controller.go:254-258 | The loop adds exactly the new names |
| `Registry.UpstreamClusterController.DeleteForServerNames` | pkg/gateway/controllers/upstream_controller.go:312-324 | Removes the names as specified |
| `Registry.UpstreamClusterController.SyncUpstreamCluster` | pkg/gateway/controllers/upstream_controller.go:98-158 | One event has the specified effect and is requeued exactly when there is a conflict or the configuration fails: once the check has passed, registering the names cannot fail |
| `ShardStores.StoresAreNeverLeaked` | pkg/ratelimiter/limiter/ratelimter.go:465-537 | In every interleaving of the lock regions, at any point a store is held or its stop is requested, never both, and once nothing is under way every store that is not held is stopped |
| `ShardStores.StepKeepsInv` | pkg/ratelimiter/limiter/ratelimter.go:465-537 | Each lock region keeps that |
| `ShardStores.OnlyOwnLoadEvicts` | pkg/ratelimiter/limiter/ratelimter.go:496-504 | A store leaves the map only by losing its shard or by its own failed load, never by the failed load of another store |
| `ShardStores.UninterruptedStart` | pkg/ratelimiter/limiter/ratelimter.go:465-507 | Starting to lead without interruption: the shard holds the new store exactly when it loads, and the store is stopped exactly when it does not |
| `ShardStores.UninterruptedStop` | pkg/ratelimiter/limiter/ratelimter.go:525-537 | Losing the leadership without interruption removes and stops the shard's store and no other |
| `ShardStores.RateLimiter.StartLeading` | pkg/ratelimiter/limiter/ratelimter.go:465-507 | A shard without a store gets one if it can be created and loaded; a store whose load fails is stopped and not kept |
| `ShardStores.RateLimiter.StopLeading` | pkg/ratelimiter/limiter/ratelimter.go:525-537 | The shard's store is removed and stopped |
| `ShardStores.RateLimiter.LeaderCheck` | pkg/ratelimiter/limiter/ratelimter.go:649-684 | Afterwards every held shard is led by this server, every led shard that could be loaded is held, kept stores are the old ones, and dropped stores are stopped |
| `ShardStores.RateLimiter.StartLed` | pkg/ratelimiter/limiter/ratelimter.go:649-663 | The first loop adds stores for led shards only and keeps all others |
| `ShardStores.RateLimiter.StopUnled` | pkg/ratelimiter/limiter/ratelimter.go:665-684 | The second part drops and stops exactly the shards that are not led |
| `Varint.SovIsLength` | pkg/apis/proxy/v1alpha1/generated.pb.go:3221-3223 | The size function gives exactly the number of bytes the varint writer uses |
| `Varint.SovGenerated` | pkg/apis/proxy/v1alpha1/generated.pb.go:3221-3223 | Returns that number |
| `Varint.EncodeVarint` | pkg/apis/proxy/v1alpha1/generated.pb.go:2630-2640 | Writes the base 128 code so that it ends at the offset, returns where it starts, and changes no other byte |
| `Varint.PutGroups` | pkg/apis/proxy/v1alpha1/generated.pb.go:2633-2638 | The loop writes the code group by group |
| `Varint.AtMostTenBytes` | pkg/apis/proxy/v1alpha1/generated.pb.go:2630-2640 | A 64-bit number takes at most ten bytes |
| `Varint.ReadVarint` | pkg/apis/proxy/v1alpha1/generated.pb.go:5566-5579 | The loop of shifts reads the number, cut to 64 or 32 bits, or fails with overflow after ten bytes or with an unexpected end |
| `Varint.GroupsWritten` | pkg/apis/proxy/v1alpha1/generated.pb.go:2630-2640 | Reading what was written yields the number and ends where it ends |
| `Varint.ReadWritten` | pkg/apis/proxy/v1alpha1/generated.pb.go:5621-5639 | Into a narrower field it yields the low bits |
| `AcquireCodec.RequestSize` | pkg/apis/proxy/v1alpha1/generated.pb.go:2891-2901 | The announced size of a request is the length of its wire form |
| `AcquireCodec.SpecSize` | pkg/apis/proxy/v1alpha1/generated.pb.go:2918-2934 | The announced size of an acquire message is the length of its wire form, for any number of requests |
| `AcquireCodec.RequestTags` | pkg/apis/proxy/v1alpha1/generated.proto:255-260 | On the wire flow control and tokens are fields 1 and 2 of a request |
| `AcquireCodec.SpecTags` | pkg/apis/proxy/v1alpha1/generated.proto:273-282 | On the wire instance, requests and request id are fields 1, 2 and 3 of a message |
| `AcquireCodec.PutNumber` | pkg/apis/proxy/v1alpha1/generated.pb.go:1763-1765 | A number field is written below the end and nothing else is touched |
| `AcquireCodec.PutBytes` | pkg/apis/proxy/v1alpha1/generated.pb.go:1766-1770 | A string field is written below the end and nothing else is touched |
| `AcquireCodec.MarshalRequest` | pkg/apis/proxy/v1alpha1/generated.pb.go:1758-1772 | Fills the buffer below the end with the request's wire form, touches nothing else and returns its length |
| `AcquireCodec.MarshalRequests` | pkg/apis/proxy/v1alpha1/generated.pb.go:1841-1854 | The loop over the requests, last to first, writes them in order |
| `AcquireCodec.MarshalSpec` | pkg/apis/proxy/v1alpha1/generated.pb.go:1833-1861 | Fills the end of the buffer with the message's wire form and returns its length |
| `AcquireCodec.Marshal` | pkg/apis/proxy/v1alpha1/generated.pb.go:1818-1826 | The message takes exactly the bytes its size announces |
| `AcquireCodec.SignedUnsigned32` | pkg/apis/proxy/v1alpha1/generated.pb.go:1763-1765 | A negative 32-bit value survives sign extension to 64 bits and truncation |
| `AcquireDecoder.SpecRoundTrip` | pkg/apis/proxy/v1alpha1/generated.pb.go:5814-5948 | Unmarshalling what was marshalled into an empty message returns the same acquire message, with any number of requests and any sign |
| `AcquireDecoder.RequestRoundTrip` | pkg/apis/proxy/v1alpha1/generated.pb.go:5560-5660 | The same for one request |
| `AcquireDecoder.MarshalThenUnmarshal` | pkg/apis/proxy/v1alpha1/generated.pb.go:1818-1861 | The two methods of the generated code undo each other |
| `AcquireDecoder.RequestsRead` | pkg/apis/proxy/v1alpha1/generated.pb.go:5875-5908 | Reading any number of elements of the repeated field appends all of them, in order, to what the message holds |
| `AcquireDecoder.Unmarshal` | pkg/apis/proxy/v1alpha1/generated.pb.go:5814-5948 | The loop over the fields decodes the message or reports the first error |
| `AcquireDecoder.UnmarshalRequest` | pkg/apis/proxy/v1alpha1/generated.pb.go:5560-5660 | The same for a request |
| `AcquireDecoder.SkipGenerated` | pkg/apis/proxy/v1alpha1/generated.pb.go:8256-8333 | The loop skips one field with all groups nested in it, as specified; SkipClosesGroups says where that ends |
| `AcquireDecoder.ReadBytes` | pkg/apis/proxy/v1alpha1/generated.pb.go:5594-5620 | A length-delimited stretch is read only if it lies within the data |
| `AcquireDecoder.ReadBytesIff` | pkg/apis/proxy/v1alpha1/generated.pb.go:5594-5620 | A stretch is read exactly when its length is not negative and its end lies within the data and does not wrap around, and the length is called invalid exactly when it is negative or the end wraps around |
| `AcquireDecoder.SpecField` | pkg/apis/proxy/v1alpha1/generated.pb.go:5814-5948 | Each round of the loop makes progress and stays within the data |
| `AcquireDecoder.SkipElement` | pkg/apis/proxy/v1alpha1/generated.pb.go:8256-8333 | Each skipped element makes progress and its end does not wrap around |
| `UnknownFields.LaterVersionIsRead` | pkg/apis/proxy/v1alpha1/generated.pb.go:5814-5948 | A whole field of a later version, of any wire type and with any groups nested in it, anywhere between two fields of a message, makes no difference to what is decoded |
| `UnknownFields.PartsMerge` | pkg/apis/proxy/v1alpha1/generated.pb.go:5814-5948 | Decoding two messages in a row is decoding the second into the result of the first |
| `UnknownFields.UnknownFieldIsIgnored` | pkg/apis/proxy/v1alpha1/generated.pb.go:5928-5941 | A field with a number the decoder does not know leaves the message as it is and is consumed to its end, whatever its wire type, and is refused exactly when it is cut short or a group in it is not closed |
| `UnknownFields.UnknownRequestFieldIsIgnored` | pkg/apis/proxy/v1alpha1/generated.pb.go:5640-5653 | The same inside a request |
| `UnknownFields.SkipFieldIsFieldEnd` | pkg/apis/proxy/v1alpha1/generated.pb.go:8256-8333 | The decoder skips exactly the fields whose content is complete and whose groups are closed, by tags of any number, to exactly their ends |
| `UnknownFields.SkippedBesidesStrict` | pkg/apis/proxy/v1alpha1/generated.pb.go:8256-8333 | It skips every field of the protobuf specification, and besides them exactly those with a field number out of range or a group that ends with another number than it began with |
| `UnknownFields.StrictFieldIff` | pkg/apis/proxy/v1alpha1/generated.pb.go:8256-8333 | A field is the specification's exactly when its groups are closed and its tags, at every depth, fit |
| `UnknownFields.MismatchedGroupIsSkipped` | pkg/apis/proxy/v1alpha1/generated.pb.go:8256-8333 | A group that begins as field 4 and ends as field 5 is skipped |
| `UnknownFields.SkipClosesGroups` | pkg/apis/proxy/v1alpha1/generated.pb.go:8256-8333 | Inside groups the loop stops where the outermost of them is closed, and fails exactly when it is not |
| `UnknownFields.FieldInRest` | pkg/apis/proxy/v1alpha1/generated.pb.go:8256-8333 | Where a field ends does not depend on what stands before it |
| `UnknownFields.FieldInPrefix` | pkg/apis/proxy/v1alpha1/generated.pb.go:8256-8333 | Nor, once it is complete, on what stands after it |
| `HeaderEscape.HeaderKeyEscape` | pkg/transport/dynamic_impersonate.go:228-241 | The loop computes the escape of every byte in order |
| `HeaderEscape.EscapedIsToken` | pkg/transport/dynamic_impersonate.go:138-241 | Every byte of an escaped key is a token character of section 3.2.6 of RFC 7230 |
| `HeaderEscape.EscapeRoundTrip` | pkg/transport/dynamic_impersonate.go:222-241 | The percent-decoder of section 2.1 of RFC 3986 gives the key back, for every byte string |
| `HeaderEscape.EscapeIsInjective` | pkg/transport/dynamic_impersonate.go:228-241 | Different keys get different header names |
| `HeaderEscape.UntouchedIff` | pkg/transport/dynamic_impersonate.go:222-241 | A key is left as it is exactly when all its bytes are token characters other than the percent sign |
| `HeaderEscape.PlainByteStays` | pkg/transport/dynamic_impersonate.go:222-241 | A byte is left as it is exactly when it is such a character, and takes three bytes otherwise |
| `HeaderEscape.TableIsTokenChars` | pkg/transport/dynamic_impersonate.go:138-220 | The table of legal bytes is exactly the set of token characters |
| `Rules.AdmissionPreservesDispatch` | pkg/clusters/matcher.go:23-30 | Every request is dispatched to the same policy before and after admission; DispatchedIff says to which |
| `Rules.NormalizationPreservesRouting` | plugin/admission/upstreamcluster/admission.go:156-194 | A normalised rule matches exactly the same requests, for every rule and request; RuleMatchesIff says which |
| `Rules.NormalizationIsIdempotent` | plugin/admission/upstreamcluster/admission.go:156-194 | Admitting a rule again changes nothing |
| `Rules.NormalizedIsEquivalent` | plugin/admission/upstreamcluster/admission.go:169-194 | Normalising a list keeps whether it matches all, the matchers that count, and whether it is empty, and is idempotent |
| `Rules.FilterMatchers` | pkg/apis/proxy/v1alpha1/evaluation_helpers.go:155-175 | The loop finds a star, or else the matchers that count: exclusions only if there is nothing else |
| `Rules.NormalizeList` | plugin/admission/upstreamcluster/admission.go:169-194 | The loop computes the normal form of a list |
| `Rules.UpstreamCluster.Admit` | plugin/admission/upstreamcluster/admission.go:61-78 | A policy without a strategy gets the default one, every rule of every policy is overwritten by its normal form, and nothing else changes |
| `Rules.UpstreamCluster.SetDefaults` | pkg/apis/proxy/v1alpha1/upstreamcluster_defaults.go:23-29 | A policy that names no strategy gets round robin, the others stay as they are |
| `Rules.AdmissionFillsStrategy` | pkg/apis/proxy/v1alpha1/upstreamcluster_defaults.go:23-29 | Admission leaves no policy without a strategy, keeps every strategy that is named, and keeps service accounts |
| `Rules.AdmissionIsIdempotent` | plugin/admission/upstreamcluster/admission.go:61-78 | Admitting a cluster again changes nothing |
| `Rules.UpstreamCluster.NormalizePolicy` | plugin/admission/upstreamcluster/admission.go:156-167 | Every list of every rule is normalised, service accounts stay |
| `Rules.FirstTrue` | pkg/clusters/matcher.go:23-30 | The first index that holds, or none |
| `Rules.PolicyMatchesSame` | pkg/clusters/matcher.go:32-39 | A policy matches the same requests before and after admission |
| `Rules.UserMatchesSame` | pkg/apis/proxy/v1alpha1/evaluation_helpers.go:69-92 | Normalising users changes nothing, with prefixes and service accounts |
| `Rules.ResourceMatchesSame` | pkg/apis/proxy/v1alpha1/evaluation_helpers.go:40-59 | Normalising resources changes nothing, with any-resource subresource entries |
| `Rules.URLMatchesSame` | pkg/apis/proxy/v1alpha1/evaluation_helpers.go:101-120 | Normalising URLs changes nothing, with prefix entries |
| `RuleMeaning.RuleMatchesIff` | pkg/clusters/matcher.go:41-60 | What a rule matches, over the strings of its lists and of the request: if and only if every field accepts its value |
| `RuleMeaning.DispatchedIff` | pkg/clusters/matcher.go:23-39 | A request goes to policy i exactly when i is the first one with a rule that accepts it in that sense |
| `RuleMeaning.UndispatchedIff` | pkg/clusters/matcher.go:23-39 | It goes to none exactly when no policy has such a rule |
| `RuleMeaning.AdmittedDispatchIff` | plugin/admission/upstreamcluster/admission.go:61-78 | After admission a request goes to the first policy whose rules, as they were written, accept it |
| `RuleMeaning.SimpleMatchesIff` | pkg/apis/proxy/v1alpha1/evaluation_helpers.go:122-175 | A list matches exactly when it holds a star or some entry that counts accepts a value; exclusions count only in a list of nothing but exclusions |
| `RuleMeaning.ValuesIff` | pkg/apis/proxy/v1alpha1/evaluation_helpers.go:122-175 | A list without a star and with some value matches exactly its values, and its exclusions are ignored |
| `RuleMeaning.ExclusionsIff` | pkg/apis/proxy/v1alpha1/evaluation_helpers.go:122-175 | A list of exclusions matches exactly when some value of the request differs from some exclusion |
| `RuleMeaning.PromiseHoldsIff` | pkg/apis/proxy/v1alpha1/evaluation_helpers.go:148-153 | A list of exclusions matches all values but the excluded ones, as documented, if and only if it names a single value |
| `RuleMeaning.PromiseFailsIff` | pkg/apis/proxy/v1alpha1/evaluation_helpers.go:148-153 | The promise fails on a value exactly when that value is excluded next to another one |
| `RuleMeaning.DifferentExclusionsMatchAll` | pkg/apis/proxy/v1alpha1/evaluation_helpers.go:122-146 | A list with two different exclusions matches every request |
| `RuleMeaning.TwoExclusionsMatchPods` | docs/en/design.md:280-292 | The documented rule for everything but pods and deployments matches pods |
| `RuleMeaning.ResourcesIff` | pkg/apis/proxy/v1alpha1/evaluation_helpers.go:40-59 | With some value, a resource list matches the resources it names and the subresources it names for every resource |
| `RuleMeaning.ResourceExclusionsIff` | pkg/apis/proxy/v1alpha1/evaluation_helpers.go:40-59 | A list of excluded resources rejects exactly the resource that every entry spells out, unless an entry is for another subresource of every resource |
| `RuleMeaning.SubresourceExclusionIff` | pkg/apis/proxy/v1alpha1/evaluation_helpers.go:40-59 | Excluding a subresource of every resource rejects it of no resource but one that is named star |
| `RuleMeaning.UsersIff` | pkg/apis/proxy/v1alpha1/evaluation_helpers.go:69-82 | With some value, a user list matches the users it names and those that begin as a pattern of it does before its stars |
| `RuleMeaning.UserExclusionsIff` | pkg/apis/proxy/v1alpha1/evaluation_helpers.go:69-82 | A list of excluded users rejects exactly a user that every entry spells out and whose name does not end in a star |
| `RuleMeaning.UserMatchesIff` | pkg/apis/proxy/v1alpha1/evaluation_helpers.go:69-92 | The user fields accept every user if both are empty, and otherwise the users of the list and of the accounts that have a namespace and a name |
| `RuleMeaning.URLMatchesIff` | pkg/apis/proxy/v1alpha1/evaluation_helpers.go:101-120 | A path list matches with a star, a value or a pattern of it; exclusions match nothing |
| `RuleMeaning.PrefixMatchIff` | pkg/apis/proxy/v1alpha1/evaluation_helpers.go:114-116 | A pattern covers exactly the values that begin with what stands before its trailing stars |
| `Heartbeat.ReadyIff` | pkg/ratelimiter/clientsets/clientsets.go:341-362 | After any run of reports a shard is ready exactly when it had a success and the failures since the last one are no older than the timeout |
| `Heartbeat.DropNeedsLongFailure` | pkg/ratelimiter/clientsets/clientsets.go:341-362 | A shard drops out only with a report that ends more than five seconds of nothing but failures |
| `Heartbeat.SuccessIsReadyAtOnce` | pkg/ratelimiter/clientsets/clientsets.go:353-356 | One success makes a shard ready |
| `Heartbeat.StatusAfterLastSuccess` | pkg/ratelimiter/clientsets/clientsets.go:341-362 | What is remembered after a last success: since when it fails and whether it still counts as ready |
| `Heartbeat.ClientSets.ReportHeartbeat` | pkg/ratelimiter/clientsets/clientsets.go:341-362 | A report has the specified effect on its shard and none on the others |

## Left out

- HTTP serving, TLS, certificates, transports, health checks, informers and client construction: input and output.
- The reverse proxy in pkg/util/reverseproxy and the work queue in pkg/syncqueue: they rest on libraries that are not part of this model.
- Timers, tickers, condition variables and `waitAcquire`: time and scheduling are parameters or free choices of the step machines.
- The local token bucket and in-flight limiter a request passes first, and the server's own token bucket refill: libraries, a bucket is the number of tokens it holds.
- Leadership and shard checks, labels and an error when a client's condition is saved: they reject a report and leave the store as it was.
- An error when the upstream's entry is saved after that (ratelimter.go:224): the client's condition is then stored and the entry's object changed, but the entry is not saved.
- Floating-point rounding: quotas, rates and averages are computed over the reals.
- 32-bit wrap-around of quotas, counts and tokens: modelled for the level arithmetic of the controller and for the wire format only.
- A controller reading whose division is by zero (a total of 0, or an allocate percent that wraps around to 0): the source then works with infinite or undefined floats, or panics; such readings are excluded by `Valid`. An idle client without known clients is covered.
- The number that an undefined or infinite request level turns into when it is recorded: Go leaves the conversion open, and the model allows any integer.
- The other protobuf messages, including the token bucket schema and the acquire result: they use the same field forms and would only add easy members.
- The partially filled message that a failing Unmarshal leaves behind: only the error is modelled.
- Validation at admission, endpoint picking and load balancing: nothing harder than what is proved.
- Replacing a wrapper by one of another type, and stopping a counter, while its requests are open.
- The clamp of an assigned quota to a gateway's own configured total (flowcontrol_wrapper.go:213-230): `Gateways` models what a gateway reports back, which is the unclamped limit.
- Removing an upstream's entry while reports on it are under way.
- Which of two in-flight reports of the same gateway is the older one: `InflightRace` leaves the request ids out and lets any report be dropped as too old, which covers every order.
- Calling Stop on the missing object when a cluster cannot be created: `Registry` models that failure as leaving the registry as it was.
- Stopping of deleted clusters: `Registry` models which names lead where, not the contexts that are cancelled.
- Requests that admission ignores (other resources, subresources, other objects): `Rules` starts after that test.
- Lower-casing outside ASCII.
- A ClusterInfo is modelled as an entry of a map from references to values, which keeps aliasing visible but is not updated in place.
- QuotaSafety.QuotaSafety: does not cover items limited by counting, which all get the whole total by design. Repeated items are covered by `RepeatedItemsFitIff` and `ReportOvershoot`, cuts of the total by `QuotaSafetyWithCuts`, interleavings by `QuotaRaces`, lost replies by `Gateways`.
- QuotaRaces.RacesAreSafe: goes one way over runs, since one report through an old pointer may be given little; `BeginIsSafeIff` is exact for all the reports that may be sent through a pointer.
- StockRace.UndisturbedStockIsBounded: goes one way, since a request that saw too little may be capped at a batch; `StockIsBoundedIff` is exact.
- AnswerRace.NewestTakenIsRemembered: resizes between answers are left out, since an accepted limit is clamped by the sizes of that moment.
- InflightRace.StaysUnderMax: goes one way, since drifts of several late steps may cancel out; `CountIsConservedIff` and `FitsIff` are exact.
- Heartbeat.ReadyIff: the two clock reads of one report are taken as one instant.
- TokenProtocol.TokenSafety: counts requests admitted by taking a token; requests admitted by the local limiter during an outage take none.
- Targets.TargetIsUnique: for upstream levels from 0 to 20 million and uses from 0 to the 32-bit maximum, where no product wraps around and the root is defined; the same holds of the other `Targets` rows that speak of a target.
- Levels.RecordedLevelIs: for a flow control that is configured with one kind of limit and a positive total; `StoreLevel` covers both kinds at once, and `AddLevels` a total of 0.
- Registry.LoadServerNames: states the list by the function `Names`; `NamesIff` says what is in it.

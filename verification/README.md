# Wing: a verified model of its control loop

Wing scales the replicas of a Kubernetes workload. One reconcile reads the scale, passes a cool-down
gate (unless panic mode lets it through), asks every target's scaler for replicas, lets the replicator
hold the largest of them up by the recent past, clamps the result by the bounds in force, writes the
scale and records what happened in the status. This project models that loop and proves what it keeps
over whole runs.

| file | models |
|---|---|
| `Replicator.dfy` | the compacted recommendation buffers and the full log they stand for |
| `Conditions.dfy` | the condition list and the panic-mode predicates |
| `Controller.dfy` | one reconcile: its specification, and the reconciler that changes the status in place |
| `ControllerRuns.dfy`, `PanicRuns.dfy`, `ScaleRuns.dfy`, `TransitionTimes.dfy` | runs of reconciles: panic mode, rate limit, downscale safety, transition times |
| `StepLaws.dfy` | what one reconcile does to each field of the status, in terms of what it reads |
| `ScaleActions.dfy` | how far apart the scale actions of a run are |
| `FailingInputs.dfy` | concrete reconciles at which a promise fails |
| `Utilization.dfy`, `PodResource.dfy`, `PodResourceProperties.dfy`, `PodResourceLaws.dfy` | the pod-resource scaler and its arithmetic |
| `Prometheus.dfy` | the Prometheus scaler |
| `Rounds.dfy`, `Outage.dfy`, `ClosedLoop.dfy` | scaler, replicator and clamp in a loop: through an outage, and under a constant metric |
| `TimeRanges.dfy`, `ReplicaPatches.dfy` | cron and date windows, patch selection and purge |
| `TargetStatus.dfy`, `Bounds.dfy`, `Common.dfy` | the target-status list, the clamp, time and arithmetic |

`dafny verify dfyconfig.toml` checks the whole project.

## How it is modelled

- Code that changes state is a class or a method with loops (`SimpleReplicator`, `Reconciler`,
  `SetCondition`, `PurgeTargetStatus`, `TidyAndCalculateDesiredReplicas`, ...). Each is proved equal to
  a specification function of its inputs or its old state; the properties are lemmas about those
  functions and about runs of them.
- Instants are nanoseconds. A reconcile reads the clock many times; every reading is its own field of
  `Controller.Clock`, and runs assume only that readings do not go back. A stored status keeps whole
  seconds, as `metav1.Time` does.
- A run of reconciles takes everything else from its inputs: specification, observed replicas (so also
  edits by others), scaler answers and failures, scale-write failures, patches, the dry-run annotation,
  and the calls that other autoscalers made to the shared replicator since the last reconcile.
  Storing the status may fail too: the status is then lost while the replicator's buffers are kept.
- Ratios, thresholds and metrics are reals, replicas and amounts unbounded integers.

## Where the code and its documentation differ

The model follows the code.

- The annotation `wing.xscaling.dev/dry-run` performs scaling only with the value `false`
  (`controllers/replicaautoscaler_reconcile.go:165`); the comment at
  `api/v1/replicaautoscaler_types.go:270-273` says the opposite.
- A trigger that finds panic mode on but past its window is announced as entering panic mode and opens
  no window (`PanicRuns.TriggerOpensWindowIff`, `FailingInputs.StaleTriggerOpensNoWindow`).
- Ready ends on after reconciles that failed inside (`TransitionTimes.ReadyMasksFailures`), and its
  transition time then moves although nothing changed (`TransitionTimes.ReadyTransitionsIff`,
  `FailingInputs.ReadyMovesWithoutChange`).
- ReplicaPatched is written off and on again at every decision under a patch, so its transition time
  moves without a change (`TransitionTimes.ReplicaPatchedTransitionsIff`,
  `FailingInputs.ReplicaPatchedMovesWithoutChange`).
- The cool-down lives in the status alone: if an action's status cannot be stored, the next action may
  follow at once (`ScaleActions.ActionsApart`, `FailingInputs.LostStatusLosesCoolDown`).
- A managed name that occurs twice doubles its target statuses at every purge
  (`TargetStatuses.RepeatedPurgeGrows`).
- The path without rebalancing multiplies by the ready pods, not by the current replicas, and can go
  against the measured usage (`PodResourceProperties.DirectPathCanShrinkUnderLoad`).
- Under `FailAsLastValue` the stored average is not rescaled to the replicas it led to, so an outage
  after a high reading drives the replicas to the upper bound (`Outage.OutageRunsAway`,
  `Outage.OutageRaisesIff`).

## Model

| member | source | states |
|---|---|---|
| Replicator.SimpleReplicator.StabilizeRecommendation | plugins/replicator_simple/replicator.go:52-80 | the loop returns the largest of the new recommendation and the unexpired entries, and records it in the last expired slot or at the end; no other key changes |
| Replicator.SimpleReplicator.GetDesiredReplicas | plugins/replicator_simple/replicator.go:86-117 | seeds a new key with the spec replicas, then answers and records as `Answer` and `Apply` say |
| Replicator.BufferRefinesLog | plugins/replicator_simple/replicator.go:52-80 | over every run, interleaved with any other autoscalers, each answer is the largest recommendation ever recorded for the key inside the window, although expired slots were overwritten |
| Replicator.RestartSafety | plugins/replicator_simple/replicator.go:86-117 | until a window after a key was first seen, no answer is below the replicas it had then |
| Replicator.CallRecords | plugins/replicator_simple/replicator.go:90-110 | a call adds its largest output to the log, none counting below zero, and an autoscaler's first call also the replicas of then |
| Replicator.KeyInjective | plugins/replicator_simple/replicator.go:48-50 | on names without a slash, keys are equal exactly for the same name and namespace |
| Replicator.Isolation | plugins/replicator_simple/replicator.go:86-117 | after any interleaving a key's buffer is the one its own calls alone produce |
| Replicator.BufferSizeBound | plugins/replicator_simple/replicator.go:60-78 | over every run of calls at least d apart a buffer has at most window / d + 2 entries |
| Conditions.SetCondition | api/v1/condition.go:46-67 | the in-place loop equals `Set`: every entry of the kind is written, its time only on a new status or reason; an absent kind is appended; an empty list is initialised |
| Conditions.GetCondition | api/v1/condition.go:69-79 | the search loop returns the first entry of the kind or the zero condition |
| Conditions.GetIsFirst | api/v1/condition.go:69-79 | for every list a reading is the first entry of the kind or the zero condition, and an empty list reads as Ready, unknown |
| Conditions.GetAfterSet | api/v1/condition.go:46-79 | for every list and every two kinds: a write is read back, its time moved exactly on a changed status or reason, and no other kind's reading changes |
| Conditions.PanicTriggerIff | utils/panicmode.go:10-30 | for counts that are not negative a trigger is exactly: both settings given, something wanted, and none running or at least the threshold times as many; above a threshold of one only a scale-up triggers |
| Controller.Reconciler.ScaleReplicas | controllers/replicaautoscaler_reconcile.go:150-188 | desired replicas always recorded; nothing written when equal; write, dry run and failed update leave the scale time and Ready as `ScaledTo` says |
| Controller.Reconciler.CollectOutputs | controllers/replicaautoscaler_reconcile.go:219-255 | the target loop keeps outputs per metric name, appends managed names, keeps scalers' status updates, and stops at the first failure |
| Controller.Reconciler.ApplyBounds | controllers/replicaautoscaler_reconcile.go:285-350 | bounds from the specification or the patch in force, upper bound first, and both condition writes |
| Controller.Reconciler.ReconcileAutoscaling | controllers/replicaautoscaler_reconcile.go:190-389 | the autoscaling flow from the gate to panic mode, every early return included, as `Autoscaled` |
| Controller.Reconciler.Reconcile | controllers/replicaautoscaler_reconcile.go:51-98 | the whole reconcile on the status in place equals `Reconciled`, in status, buffers, scale write and requeue |
| StepLaws.ScaleLaw | controllers/replicaautoscaler_reconcile.go:150-188 | the replicas a reconcile settles on are recorded; exactly where the scale has others they are written, unless in dry run, and the instant is the new scale time, unless the write fails; every other reconcile leaves write, scale time and desired replicas alone |
| TransitionTimes.BoundsLaw | controllers/replicaautoscaler_reconcile.go:285-350 | every decision is the replicator's answer put between the bounds of the patch in force, or without one of the specification; ReplicaPatched and ScaleLimited say exactly which patch and which bound; other reconciles leave both entries alone |
| ScaleRuns.WorkingPatchIff | controllers/replicaautoscaler_reconcile.go:391-398 | the patch in force is the first that its retention has not run out for and whose window is now, unless one before it is at fault |
| StepLaws.PanicLaw | controllers/replicaautoscaler_reconcile.go:355-387 | a decision that is carried out turns panic mode on if it asks for it, leaves it while its window lasts, and otherwise writes it off; a failed write and a reconcile without a decision leave the entry alone |
| StepLaws.RequeueLaw | controllers/replicaautoscaler_reconcile.go:51-389 | when the next reconcile is due, for every way a reconcile can end |
| StepLaws.TargetsLaw | controllers/replicaautoscaler_reconcile.go:219-258 | the target statuses after every reconcile: the scalers' writes up to the first failure, purged to the managed names if none failed |
| StepLaws.ManagedStatusSurvives | controllers/replicaautoscaler_reconcile.go:219-258 | after a decision a name is found exactly if some target manages it, as its last scaler wrote it or else as before |
| StepLaws.CallLaw | controllers/replicaautoscaler_reconcile.go:209-282 | a decision asks the replicator once, under its own key, with the scale's replicas and the last answer of each metric; other reconciles never ask |
| StepLaws.ExhaustedAndReadyLaw | controllers/replicaautoscaler_reconcile.go:57-98 | Exhausted says what the check found, and Ready that the target was not found, exactly when it was not |
| ScaleRuns.RateLimit | controllers/replicaautoscaler_reconcile.go:185-207 | over every autoscaling run without panic mode, any two recorded scale times are at least 30 s apart, the one at the start included |
| ScaleRuns.ScaleActionsInInterval | controllers/replicaautoscaler_reconcile.go:185-207 | any interval of length L holds at most L / 30 s + 1 of them |
| ScaleActions.ActionsApart | controllers/replicaautoscaler_reconcile.go:185-207 | over every autoscaling run, a scale action whose status was stored and any later one are at least 30 s apart on the clock of whole seconds that the status keeps, unless the later one is inside the window of one named panic mode |
| FailingInputs.LostStatusLosesCoolDown | controllers/replicaautoscaler_reconcile.go:185-207 | a concrete run in which the status of the first action is lost: two actions ten seconds apart |
| ScaleRuns.NextScaleTime | controllers/replicaautoscaler_reconcile.go:199-207 | with panic mode too: a new scale time is a cool-down after the recorded one unless the reconcile passed early |
| ScaleRuns.CloseScalesAreInPanic | controllers/replicaautoscaler_reconcile.go:185-207 | over every autoscaling run, a scale time recorded less than 30 s after an earlier one comes from a reconcile inside the window of one named panic mode, untouched since it was written |
| ScaleRuns.HistoryFromCalls | controllers/replicaautoscaler_reconcile.go:278-282 | the shared buffers after a run are those of exactly the replicator calls made during it, by this autoscaler and by others, lost statuses or not |
| ScaleRuns.DownscaleSafety | controllers/replicaautoscaler_reconcile.go:278-351 | over every run from a process start, other autoscalers' calls interleaved, the decided replicas are the clamp of the largest recommendation of the window, in the bounds when they do not cross and the lower one when they do, and no lower than the clamp of any of them; a write writes just that, and only outside dry run |
| ScaleRuns.WritesAreDecided | controllers/replicaautoscaler_reconcile.go:190-389 | the autoscaling flow writes nothing without such a decision |
| ScaleRuns.DecidesExactlyWhen | controllers/replicaautoscaler_reconcile.go:51-283 | a reconcile comes to a decision exactly when its target is found, nothing was scaled yet or not for 30 s or the stored panic entry is on and younger than its window, every target answers, and the replicator is the simple one |
| ScaleRuns.DecisionCoversTargets | controllers/replicaautoscaler_reconcile.go:219-255 | with distinct metric names the decision is no lower than any target's answer, up to the bounds |
| ScaleRuns.PurgeKeepsWorkingPatch | controllers/replicaautoscaler_controller.go:81-85 | the purge at the start of a reconcile does not change the patch in force later in it |
| PanicRuns.RunMakesTrace | controllers/replicaautoscaler_reconcile.go:356-387 | over every run the stored panic entry only moves by a trigger while off, or by being written off when not live |
| PanicRuns.BypassIsBounded | controllers/replicaautoscaler_reconcile.go:199-207 | over every run, from any stored panic entry, a reconcile passes the cool-down early only within the window of one earlier triggering write, or of the entry the run started with, which nothing in between extended |
| PanicRuns.WindowsAreSeparated | controllers/replicaautoscaler_reconcile.go:374-387 | between two windows lies a reconcile that found the first over and wrote panic mode off; if that reconcile had a window configured, the two writes are at least that window apart |
| PanicRuns.TriggerOpensWindowIff | controllers/replicaautoscaler_reconcile.go:357-373 | a reconcile reported as panic mode opens a full window exactly when the entry was off, or written in that same second |
| FailingInputs.StaleTriggerOpensNoWindow | api/v1/condition.go:51-61 | the concrete failing run: of two triggers, the second comes after the window of the first, is reported as panic mode, and leaves the entry of the first and so no window |
| TransitionTimes.ScaleLimitedTransitions | controllers/replicaautoscaler_reconcile.go:318-350 | ScaleLimited's time moves only on a net change in every reconcile |
| TransitionTimes.ReplicaPatchedTransitionsIff | controllers/replicaautoscaler_reconcile.go:295-316 | in every reconcile ReplicaPatched's time moves only on a net change, except exactly when the reconcile decides under a patch that the stored entry already announces, at another instant |
| FailingInputs.ReplicaPatchedMovesWithoutChange | controllers/replicaautoscaler_reconcile.go:295-316 | a concrete such reconcile, a minute after the entry was written |
| TransitionTimes.PanicTransitions | controllers/replicaautoscaler_reconcile.go:356-387 | PanicMode's time moves only on a net change in every reconcile |
| TransitionTimes.ExhaustedTransitions | controllers/replicaautoscaler_reconcile.go:400-450 | Exhausted's time moves only on a net change in every reconcile |
| TransitionTimes.ReadyMasksFailures | controllers/replicaautoscaler_reconcile.go:93-97 | past the target and the exhaustion check every reconcile ends with Ready on, whatever failed, and with this instant's time if something inside turned it off |
| TransitionTimes.ReadyTransitionsIff | controllers/replicaautoscaler_reconcile.go:51-277 | in every reconcile Ready's time moves only on a net change, except exactly when it was on without a reason as of another instant, and a missing scaler, an unregistered replicator or a failed static or autoscaled write turns it off inside |
| FailingInputs.ReadyMovesWithoutChange | controllers/replicaautoscaler_reconcile.go:229-237 | a concrete such reconcile: the only target has no scaler |
| Utilization.GetResourceUtilizationRatio | utils/metrics/utilization.go:26-52 | the loop over the map yields the sums over the pods with a request, in whatever order, and an error exactly when the requests sum to zero |
| PodResource.GroupPods | utils/scalerprovider/podresource/utils.go:36-80 | the loop yields the ready count and the three name sets of the classification |
| PodResource.GroupsPartition | utils/scalerprovider/podresource/utils.go:36-80 | for distinct names the groups are disjoint and their sizes add up to the pods |
| PodResourceLaws.GroupsLaw | utils/scalerprovider/podresource/utils.go:36-80 | which pods are in which group: deleting and failed ones ignored, pending ones unready, others without a metric missing; on CPU a measured pod is unready exactly if its condition or start is unknown, it is not ready within 10 s of its start or since before 3 s of it, or it was sampled within those 10 s less than a metric window after it last changed |
| PodResourceLaws.UncountedPodsDoNotMatter | utils/scalerprovider/podresource/scaler.go:114-116 | the metric value of an ignored or unready pod has no influence on the decision |
| PodResourceLaws.RequestIff | utils/scalerprovider/podresource/utils.go:88-104 | a pod has no request exactly if a selected container has none |
| PodResourceLaws.RequestOfOneMore | utils/scalerprovider/podresource/utils.go:88-104 | otherwise its request is the sum over its selected containers, one after another |
| PodResourceLaws.RequestsLaw | utils/scalerprovider/podresource/utils.go:88-104 | the requests are those of the pods by name, and none at all if a pod has none |
| PodResourceLaws.UsageLaw | utils/metrics/utilization.go:26-52 | utilisation is the usage of the pods with metric and request in percent of their requests, the average that usage by their number, both rounded down |
| PodResourceLaws.FailsExactlyWhen | utils/scalerprovider/podresource/scaler.go:117-129 | the three errors and exactly when each comes, for amounts and distinct names |
| PodResource.CalculatePodRequests | utils/scalerprovider/podresource/utils.go:88-104 | sums of the selected containers per pod, an error if any of them has no request |
| PodResource.TidyAndCalculateDesiredReplicas | utils/scalerprovider/podresource/scaler.go:111-184 | the imperative calculation, its fills and both measurements included, equals `Tidy` |
| PodResourceProperties.DirectionSafety | utils/scalerprovider/podresource/scaler.go:142-183 | on the rebalance path usage at or above the target never yields fewer replicas, at or below it never more |
| PodResourceProperties.RebalancedResult | utils/scalerprovider/podresource/scaler.go:163-183 | the rebalance path exactly, without ratios or ceilings: where it keeps the current replicas, and otherwise the least count that carries the counted pods at the target |
| PodResourceProperties.RebalancedTotals | utils/scalerprovider/podresource/scaler.go:142-164 | what the second measurement adds: on the way down the missing pods, fully used, on the way up the missing and the unready ones, idle |
| PodResourceProperties.DirectPathDirection | utils/scalerprovider/podresource/scaler.go:133-140 | the other path, exactly: the current replicas inside the tolerance, otherwise the least that carry the ready pods' usage at the target, so fewer (more) than now exactly when this usage fits into fewer (does not fit into) them |
| PodResourceProperties.DirectPathSafeWhenAllReady | utils/scalerprovider/podresource/scaler.go:133-140 | with as many ready pods as replicas that path is direction safe too |
| PodResourceProperties.DirectPathCanShrinkUnderLoad | utils/scalerprovider/podresource/scaler.go:133-140 | the concrete failing case: 60% against a target of 50% takes three replicas to two |
| PodResourceProperties.RebalancingDamps | utils/scalerprovider/podresource/scaler.go:142-167 | filling never raises the floored utilisation on the way up, and on the way down moves it toward 100% without passing it, from either side |
| PodResourceProperties.SecondMeasurementSucceeds | utils/scalerprovider/podresource/scaler.go:163-167 | once the first measurement succeeded the decision does not fail |
| PodResourceProperties.PodConservation | utils/scalerprovider/podresource/scaler.go:114-175 | the pods counted are the ready ones, all that are not ignored after a scale-up fill, the ready and missing ones after a scale-down fill |
| PodResourceProperties.NoOvershoot | utils/scalerprovider/podresource/scaler.go:131-183 | with equal requests, on the way up the result is at most the current replicas or any count that covers the measured usage at the target |
| Prometheus.CalculateDesiredReplicas | utils/scalerprovider/prometheus/scaler.go:132-214 | the imperative calculation with its failure modes and status update equals `Calculate` |
| Prometheus.NoReplicas | utils/scalerprovider/prometheus/scaler.go:132-137 | without replicas the answer is none, whatever the query says, and nothing is written or managed |
| Prometheus.SuccessWrites | utils/scalerprovider/prometheus/scaler.go:175-213 | a successful query writes the desired replicas it returns and its average, in thousandths cut off toward zero, under the target's name, which it manages; nothing running asks for nothing |
| Prometheus.FailureModes | utils/scalerprovider/prometheus/scaler.go:153-181 | a failed query writes nothing, and returns by mode an error, zero replicas, or what the stored average asks for: the current replicas in the band and the least that carry it outside |
| Prometheus.BandIff | utils/scalerprovider/prometheus/scaler.go:191-193 | the band is the open interval of averages within the tolerance of the threshold |
| Prometheus.StoredAverageReadsBack | utils/scalerprovider/prometheus/scaler.go:161-207 | what a successful query stores is what a failed one reads back, less than 1/1000 off |
| Prometheus.DesiredIsLeast | utils/scalerprovider/prometheus/scaler.go:185-198 | inside the band the current replicas, outside it the least replicas that carry the value at the threshold, whatever the current count |
| Prometheus.DesiredConverges | utils/scalerprovider/prometheus/scaler.go:185-198 | the output fed back under the same value is returned unchanged |
| Outage.OutageKeepsAverage | utils/scalerprovider/prometheus/scaler.go:153-209 | over every outage run, purges and replicator included, the stored average is intact while replicas run, the replicas stay in bounds, and nothing of the window clamps above them |
| Outage.OutageNeverFalls | utils/scalerprovider/prometheus/scaler.go:153-198 | with an average at or above the threshold the replicas never fall during an outage, whatever is in the window |
| Outage.OutageNeverRises | utils/scalerprovider/prometheus/scaler.go:153-198 | with an average not above the band, and nothing higher in the window at the start, they never rise |
| Outage.OutageRunsAway | utils/scalerprovider/prometheus/scaler.go:161-198 | an average above the band reaches the upper bound, at least one replica per failed query |
| Outage.OutageRaisesIff | utils/scalerprovider/prometheus/scaler.go:161-198 | below the upper bound with nothing higher in the window, an outage raises the replicas if and only if some run and the stored average is above the band |
| Outage.ZeroErrorsDrain | utils/scalerprovider/prometheus/scaler.go:174-177 | a client that errs with zero drains the replicas to the lower bound once the outage is a window old, whatever the stored average |
| ClosedLoop.SettledIsStable | utils/scalerprovider/prometheus/scaler.go:185-198 | scaler, replicator and clamp in a loop: at the clamped least count or inside the band, with nothing higher in the window, every later round leaves the replicas unchanged |
| ClosedLoop.SettlesWithinAWindow | utils/scalerprovider/prometheus/scaler.go:185-198 | from any replicas in bounds and any history, the first round more than a window after the start is settled so, and no later round changes the replicas |
| TimeRanges.CronMeansWindowsIff | utils/timerange/cron.go:71-78 | the scheduler means "inside some [start, next end)" at every instant exactly when starts and ends interleave |
| TimeRanges.PeriodicFires | utils/timerange/cron.go:71-78 | the closed forms of Next and Prev of a once-per-period expression are those of its instants |
| TimeRanges.PeriodicWindow | utils/timerange/cron.go:71-78 | for a once-per-period start and end, containment is a comparison of phases, past midnight too |
| TimeRanges.SwapComplements | utils/timerange/cron.go:71-78 | swapping start and end is the complement at every instant exactly when the phases differ |
| ReplicaPatches.GetReplicaPatch | core/scheduling/replicapatch.go:11-53 | the search loop is `Select`, which `LookupIff` characterises by the parsers alone |
| ReplicaPatches.LookupIff | core/scheduling/replicapatch.go:11-53 | a lookup is the first patch whose window holds the instant if every earlier one is well formed and its window does not; none if all are so; and the fault of the first ill-formed patch before any match. A date window holds from its start to its end, both included |
| ReplicaPatches.CronPatchHolds | utils/timerange/cron.go:71-78 | a cron patch with interleaving starts and ends holds exactly the instants of its windows |
| ReplicaPatches.DateStartIsDateWindow | core/scheduling/replicapatch.go:35-43 | a usable patch whose start is a date and a time joined by one space is always read as a date window |
| ReplicaPatches.CronStartIsCronWindow | core/scheduling/replicapatch.go:35-43 | one whose start is five cron fields joined by single spaces is always read as a cron window |
| ReplicaPatches.PurgeUnusedReplicaPatches | utils/replicapatche.go:27-67 | the loop leaves the unexpired patches in order, drops an emptied annotation, leaves anything else alone |
| ReplicaPatches.ExpiredIff | utils/replicapatche.go:36-50 | a patch expires exactly when it is two dates in order and more than its retention in seconds has passed since the later one |
| ReplicaPatches.PurgedAnnotation | utils/replicapatche.go:52-66 | with nothing expired, or nothing readable, the annotation stays as it is, and with everything expired it goes |
| ReplicaPatches.PurgePreservesSelection | utils/replicapatche.go:27-67 | a lookup at or after the purge that succeeds on the unpurged list returns the same on the purged one |
| ReplicaPatches.PurgeDropsLivePatchIff | utils/replicapatche.go:41-48 | a purge can drop a date patch that still matches exactly when its retention is negative |
| ReplicaPatches.PurgeTwice | utils/replicapatche.go:35-52 | purging at t1 and then at a later t2 is purging at t2 |
| TargetStatuses.SetTargetStatus | utils/status.go:7-15 | overwrites the first entry of the name in place or appends |
| TargetStatuses.LookupAfterSet | utils/status.go:7-24 | a set is read back, and no other name's lookup changes |
| TargetStatuses.SetOverwrites | utils/status.go:7-15 | a set changes the first entry of the name, where it stands, and nothing else |
| TargetStatuses.SetAppends | utils/status.go:7-15 | without one it appends |
| TargetStatuses.PurgeTargetStatus | utils/status.go:26-36 | the nested loops copy each entry once per occurrence of its name, in order |
| TargetStatuses.LookupAfterPurge | utils/status.go:17-36 | managed names are looked up as before, all others are gone |
| TargetStatuses.PurgeMultiplies | utils/status.go:26-36 | each name's entries are multiplied by its occurrences in the managed list |
| TargetStatuses.PurgeKeepsUniqueIff | utils/status.go:26-36 | unique names stay unique exactly when no listed name is managed twice |
| TargetStatuses.PurgeIsFilter | utils/status.go:26-36 | without repeated managed names a purge is the order-preserving filter |
| TargetStatuses.RunKeepsUnique | utils/status.go:7-36 | names stay unique over every run of sets and such purges |
| TargetStatuses.RepeatedPurgeGrows | utils/status.go:26-36 | k purges with a name managed m times multiply its entries by m to the k |

## Left out

- Kubernetes clients, informers, events, counters and status patching: a read, a scale write or a
  status write is an input that succeeds or fails.
- The query client: a query answers a value, or fails with a value (the real client's is -1,
  `utils/scalerprovider/prometheus/query_client.go:69-113`).
- Machine arithmetic: int32 and int64 overflow, NaN and infinities, and the rounding of float64
  (ratios are exact reals).
- Utilization.GetResourceUtilizationRatio: requires a target other than zero, because a zero target divides to an infinity or NaN in float64.
- PodResource.TidyAndCalculateDesiredReplicas: requires a target other than zero, for the same reason; the entry point that loads settings and returns the current replicas when no pod is listed is not modelled.
- ReplicaPatches.PurgeUnusedReplicaPatches: reads the clock once, where the code reads it once per patch; JSON decoding and encoding of the annotation is taken as faithful.
- Prometheus.CalculateDesiredReplicas: a stored status without an average value is the error `NilAverageValue`, where the code dereferences a nil pointer (`utils/scalerprovider/prometheus/scaler.go:164`).
- ClosedLoop.SettledIsStable: the loop has one target and fixed bounds, and every round passes the gate; the same holds for `ClosedLoop.SettlesWithinAWindow` and for the runs of `Outage`.
- The cron, time-zone and date parsers: functions of `ReplicaPatches.Parsers`, a cron expression being its
  Next and Prev. The rule that no date is a cron expression comes from `utils/timerange/cron.go:28-31`.
  Schedules that never fire again and daylight saving are not modelled.
- Scheduled target settings: their lookup is an input of the target loop; the JSON merge
  (RFC 7396, section 2) is not modelled, and a failure of either is `BadSettings`.
- Exhaustion detection: its outcome is an input; only the condition it writes is modelled.
- Condition messages and the observed generation: nothing reads them.
- Concurrency: calls of the replicator are atomic steps, and one worker at a time has an autoscaler,
  whose next reconcile reads the status last stored. The unlocked map is not modelled.
- Replicators other than the default: a name other than `simple` is not registered.
- The RabbitMQ scaler, plugin discovery, hashing of status names, configuration loading.

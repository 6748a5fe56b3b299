# dns-ha-agent: a verified model of the failover controller

dns-ha-agent runs beside a DNS server on each node of a FreeBSD CARP cluster.
Every few seconds it scores the local server, reads the node's CARP role and its
peers' heartbeats, and decides three things that write the same interface flag
and the same demotion counter: the policy (how healthy am I), the recovery hold
(have I been fully healthy for long enough to come back) and the preempt
step-down (is somebody better placed). Around that sits the alert machinery:
peer tracking, debounced state changes, an unexpected-VIP-loss guard, per-key
cooldowns and a small state file.

The project models that cycle and proves what it keeps over whole runs.

| file | models |
|---|---|
| `Basics.dfy`, `Config.dfy` | shared values; the configuration with its validation rules and late defaults |
| `Health.dfy` | the weighted score and the nested DNS query loop |
| `Kernel.dfy` | the interface flag and the additive `net.inet.carp.demotion` counter |
| `Policy.dfy`, `StepDown.dfy` | the policy and hold; the scan of the peer list with its grace timer |
| `Control.dfy` | one cycle as a function `Step` of the node and its input, and runs of cycles |
| `Cycle.dfy` | what one cycle decides and reports, in terms of its inputs and the configured values alone |
| `KernelRuns.dfy`, `GateRuns.dfy`, `GraceRuns.dfy` | run theorems: counter and commands, recovery gate and spacing, grace timer |
| `AlertRuns.dfy`, `StateFile.dfy` | debounce, the chain of announcements across restarts, the persisted state |
| `Witness.dfy` | inputs for the statements that something does happen |
| `VipLoss.dfy`, `HeldNode.dfy`, `CounterLoss.dfy` | refresh/prediction/guard; a held node against a MASTER; a counter lost on coming back |
| `Cluster.dfy`, `Service.dfy` | clusters of any size; exactly when one can be left without service |
| `Tracker.dfy`, `PeerRuns.dfy`, `Notify.dfy`, `Reporting.dfy` | peer alerts, cooldown, dispatcher, and everything a run dispatches |
| `Runner.dfy` | the agent as an object; `RunOnce` and `Stop` update fields, kernel, tracker, dispatcher and file in place |

How the parts fit: `Runner.Runner` is the imperative program. Its invariant
`Valid()` says the object, the kernel's command log, the tracker, the
dispatcher's call log and the state file are all where the ghost `run`, the
complete list of inputs so far, puts them; `RunOnce` extends that run by one
input. The loops of the original are loops here and are proved against
definitions with quantifiers over the peer list, so `Step` fixes no order and
contains no loop. The theorems then speak about every run, in terms of its
history of inputs.

## Assumptions

- Configuration is validated and fixed for a run; commands succeed; one
  timestamp serves a whole cycle; cycles and `Stop` are atomic.
- Theorems about the kernel take the interface to be up when the agent starts
  (`Booted`), as the agent itself does. `KernelRuns.FlagAgreesExactlyWhen` says
  what happens otherwise, for instance after a crash; the recovery gate, the
  spacing of step-downs, the grace timer and all alert theorems do not need it.
- No assumption is made on the clock: the bounds of 15s, 60s and the cooldown
  hold for the timestamps the agent reads, however they move.
- No assumption is made on the CARP role a downed node reads.
- Every health result in a run is one that the checks of its configuration
  return for some answers to the probes (`Control.Run.Started`). Where a
  statement depends on which scores a configuration can give, it says so with
  `CanScore`, which `Health.CanScoreIff` reduces to the weights.
- A peer list may be in any order and name a peer twice.
- Where a theorem needs peer scores to be at most 100 it says so
  (`Distinguishable`); it is enough instead that the degraded and unhealthy
  levels differ. `Health.ScoreMeaning` proves every agent's own score is in range.
- The exact statements about held nodes speak of plausible runs
  (`HeldNode.Plausible`): peer scores of at most 100, effective advskews that are
  not negative, and an own advskew that, when it can be read, is the configured
  one.
- Setting the interface flag to the value it already has moves no demotion. By
  `KernelRuns.CommandsAlternate` the agent never does that.

## Where code and documentation differ

The model follows the code; each difference is a proved statement.

- `recovery_confirm: 0` does not disable the wait (docs/config.md:90,
  docs/usage.md:490): it becomes 3, so the gate is always on in preempt mode
  (`Config.ValidatedLevels`, `GateRuns.GateIsExact`).
- The VIP-loss alert is narrower than documented (docs/usage.md:592-610): it
  fires only on an exact tie with the best healthy peer, because the node
  otherwise predicts MASTER first (`VipLoss.FiresExactlyOnATie`,
  `VipLoss.MeetsDocumentationIff`); `VipLoss.PromiseBreaksIff` says for which
  configurations it is missed in some run.
- Shutdown does not always leave demotion 0 (docs/architecture.md:164): a node
  stopped with its interface up keeps its last level (`KernelRuns.StopIsCleanIff`).
  `KernelRuns.StopAlwaysCleanIff` gives the configurations that are safe.
- Holding the demotion does not always keep peers from stepping down for a held
  node (docs/architecture.md:61). An advskew gap of at most the unhealthy minus
  the degraded level suffices (`HeldNode.HeldNeverOutranks`);
  `HeldNode.OvertakesExactlyWhen` is exact. The gap to stay within is the least
  counter of the held node minus the greatest demotion of the MASTER, if the
  held node can be HEALTHY at all. That counter is the unhealthy level, except
  that a node which can never step down below that level (advskew 0, healthy
  level 0, and either no score from 80 to 99 or a degraded level equal to the
  unhealthy one) keeps the kernel's 240 on top. That demotion is the degraded
  level if the MASTER can score from 80 to 99, and the healthy level otherwise.
- Consequently a whole cluster can end a round with no interface up:
  `Service.KeepsServingIff` says exactly when.
- A CRITICAL peer alert goes out on the first failed poll, before the two
  failures of docs/architecture.md:149 (`Tracker.AlertsExactlyWhen`).
- `KnownDown` also holds for a peer that never answered, from its first failed
  poll (`Tracker.KnownDownMeans`, `Tracker.KnownDownTooEarly`).
- The fallback for an omitted unhealthy level is never used by a validated
  configuration, and the fallback for an omitted degraded level can overtake the
  unhealthy one (`Config.ValidatedLevels`).

## Model

| member | source | states |
|---|---|---|
| `Health.RunChecks` | internal/health/score.go:35-161 | the accumulating, early-exit checks compute the declarative `Evaluate`: each check is worth its weight iff every target answered |
| `Health.CheckDns` | internal/health/score.go:109-141 | the nested loop with its two breaks equals one scan of all replies up to the first failure: success, slow flag and mean RTT |
| `Health.CheckProcesses` | internal/health/process.go:20-31 | passes iff all configured processes are alive |
| `Health.CheckAllTcp` | internal/health/score.go:71-78 | passes iff every bind address accepts |
| `Health.CheckAllUdp` | internal/health/score.go:83-94 | passes iff every bind address answers for the chosen domain |
| `Health.EveryTargetCounts` | internal/health/score.go:53-141 | each check passes iff every configured process, address, and domain at every address does, the defaults standing in for empty settings; UDP asks for the single domain or the first of the list |
| `Health.SlowExactly` | internal/health/score.go:118-129 | with every query answered, slow means that some answer took longer than a positive threshold |
| `Health.RttExactly` | internal/health/score.go:120-137 | the reported round trip is the whole part of the mean over the answers before the first failure, or that failure's time |
| `Health.ScoreExactly` | internal/health/score.go:35-158 | maximum, raw score and percentage from the weights and the outcomes of the checks, DNS at half when slow |
| `Health.RawWithinMax` | internal/health/score.go:62-151 | for all non-negative weights and outcomes the raw score stays in 0..max |
| `Health.ScoreMeaning` | internal/health/score.go:153-158 | score is in 0..100, is 100 iff everything enabled was earned in full, and meets the HEALTHY and UNHEALTHY thresholds exactly at 4/5 and 2/5 of max |
| `Health.ScalingIsExact` | internal/health/score.go:143-158 | multiplying all weights leaves the score unchanged for every factor iff not (a slow penalty rounds an odd DNS weight and `raw * 100 % max + 50 >= max`, so the lost half point costs a percent) |
| `Health.ScalingWeightsKeepsScore` | internal/health/score.go:153-158 | the part without rounding, for one factor |
| `Health.DoublingShows` | internal/health/score.go:144-146 | where rounding costs a percent, doubling the weights already changes the score |
| `Health.ScalingFailsOnRoundedPenalty` | internal/health/score.go:144-146 | such a configuration and answer exist: one DNS check of weight 1, answered slowly |
| `Health.SlowIsNeverFull` | internal/health/score.go:143-149 | a slow DNS answer never counts as a full score, so it never passes the gate |
| `Health.MeanOverThresholdIsSlow` | internal/health/score.go:109-141 | a reported round trip over the threshold comes with the slow flag iff the first query was answered, so that it is a mean and not the time of a failure |
| `Health.CanScoreIff` | internal/health/score.go:62-158 | the scores some answers can give are exactly those of the five outcomes (each check as a whole, DNS late or not): no other combination of answers gives another score |
| `Health.AllOrNothing` | internal/health/score.go:153-158 | with a check enabled, 100 and 0 are reached |
| `Config.ValidatedLevels` | internal/config/validate.go:95-109 | which orders of the levels survive the late defaults; the counts and levels are the configured ones, 3, 3 and 50 standing in for 0; weights are non-negative |
| `Config.WeightsExactly` | internal/agent/runner.go:261-291 | each check is worth its own configured weight, 25 when unset, nothing when off; its targets are as configured |
| `Kernel.Kernel.SetDemotion` | internal/carp/demotion.go:18-28 | reaches the absolute target through the additive counter, writing nothing when already there |
| `Kernel.Kernel.InterfaceDown` | internal/carp/iface.go:10-16 | the link goes down and 240 is added, once |
| `Kernel.Kernel.InterfaceUp` | internal/carp/iface.go:18-24 | the link comes up and 240 is taken back, once |
| `Kernel.CounterBalance` | internal/agent/runner.go:361-374 | for any command sequence the counter is what was written plus 240 while down |
| `Policy.EvaluatePolicy` | internal/agent/policy.go:31-88 | the search loop computes the order-free decision |
| `StepDown.Scan` | internal/agent/runner.go:445-499 | the loop with its continues, break and shared timer computes an order-free verdict and timer |
| `Cycle.DecisionExactly` | internal/agent/policy.go:31-138 | down iff the score is below 40 or the gate still holds; up, the healthy level from 80 on unless a preempt MASTER hears a better score, else the degraded level |
| `Cycle.YieldsExactlyWhen` | internal/agent/policy.go:60-80 | a HEALTHY node that is up takes the degraded level iff it is a preempt MASTER that hears a better score |
| `Cycle.StateExactly` | internal/agent/runner.go:294-334 | UNHEALTHY iff the interface is to be down, the hold included; otherwise 80 is the threshold |
| `Cycle.StepDownExactly` | internal/agent/runner.go:443-503 | step-down and grace timer from the inputs: preempt, MASTER read, score 80 or more, to be up, 60s since the last, and a better healthy peer, given 15s if its kernel preempts |
| `Cycle.MotionExactly` | internal/agent/runner.go:427-488 | comparisons use the kernel's counter before the step-down, or the wanted level if it cannot be read; the interface ends as decided |
| `Cycle.RoleExactly` | internal/agent/runner.go:505-539 | the reported role is the one read, or read again after a change of state or a step-down, or the predicted MASTER; when it is predicted; and what is remembered of it |
| `Cycle.SteppedDownTellsTheRole` | internal/agent/runner.go:505-513 | a node that stepped down reports, and remembers, the role it reads afterwards |
| `Cycle.LossExactly` | internal/agent/runner.go:717-745 | the loss alert iff the option is on and a HEALTHY preempt node that was MASTER reports BACKUP with no healthy peer strictly below it |
| `Cycle.FieldsExactly` | internal/agent/runner.go:318-503 | the level, flag, cooldown mark, timer and streak a cycle carries over |
| `Cycle.StopKeepsTheRest` | internal/agent/runner.go:237-256 | a stop changes no field but the flag, and nothing at all when the interface was up |
| `Control.SettledByCommands` | internal/agent/runner.go:375-425 | the commands of step 1, in their direction-dependent order, have exactly the settled kernel as effect |
| `KernelRuns.CounterFollowsDecision` | internal/agent/runner.go:375-425 | over every run: ending up, the counter is the cycle's desired demotion; ending down, 240 more or exactly the unhealthy level |
| `KernelRuns.AdvertisesExactly` | internal/agent/runner.go:375-425 | over every run: which configured level the counter of a node that is up equals, from that cycle's score, role and peers |
| `KernelRuns.DownSinceExists` | internal/agent/runner.go:375-494 | every downed node has been down since one cycle that took it down |
| `KernelRuns.DownCounterExactly` | internal/agent/runner.go:375-425 | over every run, which value a downed node's counter has: 240 above the level it went down with in that first cycle, or if that is the unhealthy level; otherwise the bare unhealthy level |
| `KernelRuns.LandsOnDesiredIff` | internal/agent/runner.go:395-414 | with the assumption on reports dropped for the last cycle only: coming up lands on the desired level iff the counter had not been rewritten while down to that same level |
| `CounterLoss.OffScaleReportIsLost` | internal/agent/runner.go:395-414 | an off-scale report does bring that case about, for every confirmation count: the node comes back 240 below the level it wants |
| `CounterLoss.CounterLostIff` | internal/agent/runner.go:395-414 | after plausible cycles a node can miss its level on coming back iff its degraded and unhealthy levels coincide, it can step down at its healthy level, and a check is enabled |
| `KernelRuns.ComingBackIsFull` | internal/agent/policy.go:117-138 | a preempt node that comes back scores 100 and takes the healthy level, short of an off-scale report |
| `KernelRuns.ComparedDemotionIsDesired` | internal/agent/runner.go:427-431 | the demotion read back for comparisons is the desired one whenever the interface is wanted up |
| `KernelRuns.CommandsAlternate` | internal/agent/runner.go:375-494 | over every run started with the interface up: interface commands strictly alternate and the kernel is exactly their effect |
| `KernelRuns.FlagAgreesExactlyWhen` | internal/agent/runner.go:90-99 | from any start: flag and kernel agree iff the interface was up at the start or the agent has since wanted it down; until then it stays down |
| `KernelRuns.CounterConserved` | internal/agent/runner.go:361-374 | over every run: counter = boot value + everything written + 240 iff down |
| `KernelRuns.StopRestores` | internal/agent/runner.go:239-250 | from every reachable state a stop leaves the interface up, with counter 0 if it had been down, keeping the alternation |
| `KernelRuns.StopIsCleanIff` | internal/agent/runner.go:237-250 | the documented clean state is reached iff the interface was down or the last level was 0 (before the first cycle: the counter already was 0) |
| `KernelRuns.StopAlwaysCleanIff` | internal/agent/runner.go:237-250 | among peers with scores of at most 100, some run ends in a stop that is not clean iff the checks can score 40 to 79, or the healthy level is not 0 and a check is enabled, or a preempt node with peers can score 80 to 99 |
| `KernelRuns.StopKeepsDegraded` | internal/agent/runner.go:237-250 | a node stopped after a cycle at 40 to 79 keeps its degraded level, which is never 0 |
| `GateRuns.StreakIsHistory` | internal/agent/policy.go:117-138 | the streak is the number of trailing cycles that began down with a full score |
| `GateRuns.GateIsExact` | internal/agent/policy.go:117-138 | over every preempt run: an interface-up is issued iff the last `recovery_confirm` cycles, this one included, all began down with a full score |
| `GateRuns.ReturnsHealthy` | internal/agent/policy.go:98-116 | a returning node scores 100 and counts as HEALTHY; it advertises the healthy level while the peer scores of that cycle are at most 100 |
| `GateRuns.ReturnsOnTheKth` | internal/agent/policy.go:117-138 | a freshly downed node that stays fully healthy is raised on the k-th cycle and not before |
| `GateRuns.DownExactlyWhen` | internal/agent/runner.go:375-425 | the agent's down flag is set after a cycle iff score below 40, or stepped down, or a preempt node that began with the flag set and has not passed the gate; the flag is the interface if the node started with it up; sticky nodes never step down |
| `GateRuns.CooldownMark` | internal/agent/runner.go:487-493 | after a step-down the cooldown mark is its instant or one more than 60s later |
| `GateRuns.StepDownsAreSpaced` | internal/agent/runner.go:455-457 | any two step-downs of a run are more than 60s apart, with an interface-up in between that passed the whole gate |
| `GraceRuns.TimerIsWaitStart` | internal/agent/runner.go:443-503 | the grace timer is the start of the unbroken wait that ends a run, and unset otherwise |
| `GraceRuns.WaitExists` | internal/agent/runner.go:495-503 | every run ends in exactly one such wait, possibly empty |
| `GraceRuns.StepsDownExactlyWhen` | internal/agent/runner.go:443-494 | over every run, from its history: step-down iff a preempt node with score 80 or more reads MASTER, is not behind the gate, has no step-down in the last 60s, and a healthy peer without kernel preempt is strictly below it, or one with it 15s or more into the wait |
| `GraceRuns.CooldownIsHistory` | internal/agent/runner.go:455-457 | the single cooldown mark is past iff every step-down of the run is more than 60s back, however the clock moves |
| `GraceRuns.ComparesWith` | internal/agent/runner.go:427-454 | what it compares with: the advskew it reads, or 0, plus the configured level for that cycle |
| `GraceRuns.WaitsAreShort` | internal/agent/runner.go:59-63 | no unbroken wait lasts 15s |
| `GraceRuns.PeerOrderIsIrrelevant` | internal/agent/runner.go:445-538 | permuting or repeating peers changes no decision, command, timer or report |
| `AlertRuns.CountIsStretch` | internal/agent/runner.go:341-352 | `confirmCount` is exactly the length of the current stretch of equal states |
| `AlertRuns.AnnouncedIsLastConfirmed` | internal/agent/runner.go:334-357 | `lastState` is the most recent state that held for `notify.confirm` cycles, a hold counting as UNHEALTHY, or the restored state |
| `AlertRuns.AnnouncesExactlyWhen` | internal/agent/runner.go:693-715 | a change is announced iff the state is confirmed and differs from the one announced before |
| `AlertRuns.RunChain` | internal/agent/runner.go:693-711 | the announcements of a run form a connected chain without self-loops |
| `AlertRuns.AnnouncementsChain` | internal/agent/runner.go:101-107 | the chain stays connected over any mix of cycles, stops and crashes, whatever the file held at first |
| `AlertRuns.RestoredExactly` | internal/agent/runner.go:101-107 | a start resumes from the first line that names a state, and from HEALTHY if there is none or no file |
| `AlertRuns.ForgetsWithoutFile` | internal/agent/runner.go:94-107 | without a state file the announcements of a whole life form a connected chain iff every restart happened while HEALTHY was announced |
| `StateFile.File.LoadState` | internal/agent/state_file.go:12-30 | the early-return line loop computes the first line that names a state |
| `StateFile.File.SaveState` | internal/agent/state_file.go:32-39 | replaces the whole file |
| `StateFile.RoundTrip` | internal/agent/state_file.go:12-39 | what was saved is what is loaded, for every state |
| `StateFile.ParseFindsFirst` | internal/agent/state_file.go:17-29 | loading fails iff no line names a state, and the first naming line wins |
| `StateFile.LineNamesIff` | internal/agent/state_file.go:17-28 | a line names a state iff it is the key and the name, give or take white space around the name |
| `StateFile.LinesSplit` | internal/agent/state_file.go:17 | the lines contain no newline and make up the text |
| `StateFile.SavedText` | internal/agent/state_file.go:8-35 | the saved text, to the letter |
| `VipLoss.FiresExactlyOnATie` | internal/agent/runner.go:505-539 | across refresh, prediction and guard the alert fires iff the least effective advskew among healthy peers equals the node's own |
| `VipLoss.MeetsDocumentationIff` | internal/agent/runner.go:717-745 | the documented promise is kept iff some healthy peer is at or below the node, or the prediction could not read advskew |
| `VipLoss.PromiseBreaksIff` | internal/agent/runner.go:515-538 | some run breaks the promise iff preempt mode and the option are on and a check is enabled |
| `VipLoss.LossGoesUnreported` | internal/agent/runner.go:515-538 | such a run: a node that passes all checks and hears nobody goes from MASTER to BACKUP |
| `VipLoss.SilentWithoutHealthyPeer` | internal/agent/runner.go:524-538 | never fires when no healthy peer is visible and the prediction could read advskew |
| `VipLoss.StepDownIsNeverALoss` | internal/agent/runner.go:443-538 | a cycle that steps down neither predicts MASTER nor raises the alert |
| `VipLoss.RemembersLastHealthyRole` | internal/agent/runner.go:746-748 | the remembered role is that of the last HEALTHY cycle |
| `VipLoss.NeverHealthyNeverMaster` | internal/agent/runner.go:746-748 | without a HEALTHY cycle no role is remembered |
| `HeldNode.HeldAdvertisesUnhealthy` | internal/agent/policy.go:108-137 | a held node's kernel counter is at least the unhealthy level, however it went down |
| `HeldNode.HeldNeverOutranks` | internal/agent/policy.go:108-113 | within the advskew gap a held node never passes a MASTER's step-down test, even at score 100 |
| `HeldNode.HeldFloor` | internal/agent/runner.go:375-425 | over every plausible run a held node's counter is at least the unhealthy level, and 240 more if the node can never step down at a level below it |
| `HeldNode.MasterCeiling` | internal/agent/policy.go:60-88 | over every plausible run a HEALTHY MASTER works with at most the degraded level if it can score 80 to 99, and the healthy level otherwise |
| `HeldNode.OvertakesExactlyWhen` | internal/agent/runner.go:446-454 | for all valid preempt configurations and advskews: a held node's report can pass a MASTER's step-down test iff the held node can be HEALTHY and its least effective advskew is below the MASTER's greatest |
| `HeldNode.HeldCanOutrank` | internal/agent/runner.go:446-454 | the runs in which it does, the MASTER stepping down |
| `Cluster.StepDownIsJustified` | internal/agent/runner.go:446-454 | in a truthful round every step-down has a healthy member with strictly lower effective advskew behind it |
| `Cluster.LeastNeverStepsDown` | internal/agent/runner.go:446-454 | the member with least effective advskew never steps down |
| `Cluster.ServingDemotion` | internal/agent/runner.go:375-431 | a serving member compares with at most the degraded level, one whose interface is to be down with at least the unhealthy level |
| `Cluster.SomeoneKeepsServing` | internal/agent/runner.go:443-494 | when the advskews lie within the unhealthy minus the degraded level, simultaneous step-downs never leave the cluster without a healthy member whose interface is up |
| `Service.KeepsServingIff` | internal/agent/runner.go:443-494 | for a shared valid preempt configuration and any set of advskews: every truthful round, of any size, keeps somebody serving iff for no two of the advskews a held node can be below the best serving one |
| `Service.BestIsBounded` | internal/agent/policy.go:60-88 | the serving member with the best score works with the healthy level unless a held node can outscore it |
| `Service.RoundCanEmpty` | internal/agent/runner.go:443-494 | otherwise a truthful, connected round of two members leaves no interface up |
| `Cluster.OnePredictedMaster` | internal/agent/runner.go:524-538 | at most one member predicts itself MASTER |
| `Cluster.PredictionIsHonoured` | internal/agent/runner.go:515-523 | if one member predicts itself MASTER, any other healthy MASTER whose last step-down is more than 60s back steps down in that round or is waiting for a kernel |
| `Cluster.HandOverEnds` | internal/agent/runner.go:446-454 | whoever steps down starts a chain of step-downs, each for a peer whose report passed the test, that ends within the cluster at a healthy member that stays and is strictly better than all before it |
| `Cluster.HandsToBetter` | internal/agent/runner.go:446-454 | in a truthful round the member stepped down for is healthy and has strictly lower effective advskew |
| `Cluster.HandOverVisitsOnce` | internal/agent/runner.go:446-454 | in a truthful round a chain of step-downs visits nobody twice and is no longer than the cluster |
| `Tracker.PeerTracker.Update` | internal/agent/peer_tracker.go:75-105 | one poll moves exactly the polled peer's record and reports its transition |
| `Tracker.PeerTracker.SetStatus` | internal/agent/peer_tracker.go:64-70 | sets or clears one peer's status only |
| `Tracker.PeerTracker.Status` | internal/agent/peer_tracker.go:59-61 | the recorded status, empty if none |
| `Tracker.PeerTracker.KnownDown` | internal/agent/peer_tracker.go:49-52 | seen and last recorded unreachable |
| `Tracker.PeerTracker.constructor` | internal/agent/peer_tracker.go:21-32 | nothing seen, threshold at least 1 |
| `Tracker.RecordIsHistory` | internal/agent/peer_tracker.go:75-105 | the record is a function of the full poll history; a status is recorded iff the peer is declared down and equals the latest classification |
| `Tracker.DownFiresExactlyWhen` | internal/agent/peer_tracker.go:86-104 | DOWN fires iff the poll is exactly the threshold-th failure after a success |
| `Tracker.UpFiresExactlyWhen` | internal/agent/peer_tracker.go:78-83 | UP fires iff a success ends a failure run that reached the threshold or goes back to the first poll |
| `Tracker.ChangesAlternate` | internal/agent/peer_tracker.go:72-74 | DOWN and UP strictly alternate |
| `Tracker.AlertsExactlyWhen` | internal/agent/runner.go:616-689 | which alert, if any, each poll dispatches, from the polls alone |
| `Tracker.OnlyCriticalJumpsTheThreshold` | internal/agent/runner.go:654-689 | a non-CRITICAL failure status goes out only for a peer declared down |
| `Tracker.KnownDownMeans` | internal/agent/peer_tracker.go:47-52 | what KnownDown means, and exactly when its documentation is right |
| `Tracker.KnownDownTooEarly` | internal/agent/peer_tracker.go:88-93 | for every threshold above 1, one failed first poll makes a peer known down without an outage |
| `Tracker.StatusTellsSeverity` | internal/peer/probe.go:132-143 | different classifications have different status strings |
| `Tracker.StatusTexts` | internal/peer/probe.go:132-143 | the wording of each status |
| `PeerRuns.AlertsFollowHistory` | internal/agent/runner.go:589-690 | over every run the statuses dispatched about a peer are exactly those its own polls call for |
| `Notify.Cooldown.Allow` | internal/notify/cooldown.go:21-37 | lets a key through iff its last send is long enough ago, moving no other key |
| `Notify.RateBound` | internal/notify/cooldown.go:21-37 | N sends of a key between a and b satisfy (N-1) * duration <= b - a |
| `Notify.AllowedExactlyWhen` | internal/notify/cooldown.go:25-36 | a call passes iff no earlier send of its key is closer than the cooldown |
| `Notify.KeysAreInjective` | internal/notify/event.go:54-56 | keys are injective over all notices, IPv6 addresses included, and disjoint across kinds |
| `Notify.StatusesAreClean` | internal/agent/runner.go:602-689 | every status a poll can dispatch is colon-free, as injectivity needs |
| `Notify.NoCrossSuppression` | internal/notify/event.go:25-56 | the keyed cooldown treats every notice as if it had its own |
| `Notify.DeliveredInOrder` | internal/notify/event.go:25-108 | what is delivered are, in order, exactly the calls with no send of the same notice closer than the cooldown |
| `Notify.DeliveredCounts` | internal/notify/event.go:25-108 | of every notice, of whatever kind, as many copies are delivered as it has sends |
| `Notify.DeliveryRate` | internal/notify/cooldown.go:21-37 | the rate bound on the copies delivered of any stretch of calls |
| `Notify.KeyTexts` | internal/notify/event.go:26-85 | the keys, to the letter |
| `Notify.EventDispatcher.Dispatch` | internal/notify/event.go:25-108 | the notifiers are handed the notice iff no earlier send of that same notice is closer than the cooldown, and nothing else |
| `Runner.Runner.constructor` | internal/agent/runner.go:90-149 | starts from the stored state, or HEALTHY, on a node in whatever state |
| `Runner.Runner.LiveFacts` | internal/agent/runner.go:27-48 | the run theorems hold of the live object: flag and kernel agree and its command log alternates if it started with the interface up, recorded statuses reflect history, the state file holds the last announced state |
| `Runner.Runner.DispatchFacts` | internal/agent/runner.go:589-745 | on the live object: the calls are those of the run, peer alerts with a threshold of 2 failures, and the outbox holds each notice as often as its own cooldown lets it through |
| `Reporting.DiskFollowsState` | internal/agent/runner.go:711-714 | over every run the file, read back, is the last announced state |
| `Reporting.CycleCallsExactly` | internal/agent/runner.go:589-745 | a cycle's dispatches, at its instant: peers first, then the change from the old to the new state, then the loss |
| `Reporting.CallsFollowReports` | internal/agent/runner.go:693-745 | over every run the changes and losses handed to the dispatcher are exactly those announced and reported, in order |
| `Reporting.NoFileNoWrite` | internal/agent/runner.go:711-714 | without a configured file nothing is written |
| `Runner.Runner.Conclude` | internal/agent/runner.go:294-357 | state, policy, hold and debounce bookkeeping |
| `Runner.Runner.Settle` | internal/agent/runner.go:375-425 | step 1 issues exactly the settling commands |
| `Runner.Runner.Drive` | internal/agent/runner.go:375-503 | steps 1 and 2 on the real kernel object |
| `Runner.Runner.ReportedRole` | internal/agent/runner.go:505-539 | steps 3 and 4: refreshed and predicted role |
| `Runner.Runner.HandlePeer` | internal/agent/runner.go:589-690 | one peer's poll, classification and dispatch |
| `Runner.Runner.AnnounceChange` | internal/agent/runner.go:693-715 | announces and saves a confirmed change |
| `Runner.Runner.GuardVip` | internal/agent/runner.go:717-748 | the split-brain guard and the remembered role |
| `Runner.Runner.RunOnce` | internal/agent/runner.go:258-749 | one cycle moves the object, kernel, logs, tracker and file to where the extended run puts them |
| `Runner.Runner.Stop` | internal/agent/runner.go:239-256 | restores the interface, clears demotion if it was down, saves the state |

## Left out

- Probes, `ifconfig`/`sysctl` execution and parsing, the heartbeat client and server, ICMP and TLS: their results are inputs.
- Failing commands, and the write-the-target fallback of `SetDemotion` when its read fails: the bookkeeping is updated regardless, so kernel agreement holds only when commands succeed.
- Reload in mid-run, YAML loading, unknown keys, environment expansion, and validation rules that do not concern the controller.
- Data races between `Stop` and a running cycle, mutexes and channels: both are atomic steps.
- The probe diagnosis table, `LastCarp`, alert texts, templates, email, Slack, Telegram, logging, metrics and dashboards: they do not feed a decision.
- The tracker is created with the agent rather than on the first cycle with peers enabled; nothing reads it before.
- The text of a policy decision (`Action`), which is only logged.
- A crash between the dispatch of a state change and the write of the state file: a cycle is atomic here.

# A verified model of the sing-box controller

The controller keeps one sing-box core running for a user: it compiles nodes,
pools and chains into one configuration, supervises the core's process, probes
the pool members to pick an outbound, moves traffic to another pool under load,
and keeps several small stores coherent while subscriptions change. This project
models that control plane in Dafny and proves what it is for.

Code that changes fields step by step is modelled by classes and loops whose
contracts equal a specification function; concurrent code is split at the points
where it takes and releases its lock, and the theorems quantify over every
interleaving of those segments. An input, network or operating-system outcome is
a parameter of the step that meets it, and so is the outcome of every file write.

| file | content |
|---|---|
| Common.dfy | options, results, folds with early errors |
| Supervisor.dfy, LogTail.dfy | the process protocol; the bounded log |
| PoolHealth.dfy, PoolChoice.dfy | counters, backoff and selection; what they are after a history |
| ProbeRound.dfy | one probe round |
| FreshTags.dfy, Cidr.dfy, TunDns.dfy, RuntimeConfig.dfy | the configuration compiler |
| OutboundGraph.dfy, ResolutionGraph.dfy, ConfigContents.dfy | what holds of every configuration it accepts, and what is in it |
| RuleText.dfy, RuleTextRoundTrip.dfy, RuleTextMeaning.dfy | the rule text printer and parser; round trips; what a text means |
| TrafficPolicy.dfy, TrafficPolicyRuns.dfy, TrafficPolicyEvents.dfy | the trigger, release and cooldown machine; when it switches and to what |
| LinkCache.dfy, LinkCacheRuns.dfy, LinkRates.dfy, LinkCacheTotals.dfy | the connection cache; its rates; the name it shares with the totals |
| Subscriptions.dfy, SubscriptionContents.dfy | subscriptions; what a refresh or an import leaves |
| PoolMembers.dfy, PoolIntegrity.dfy | pools and what becomes of their members |
| StoreRuns.dfy, StoreContents.dfy, StoreLink.dfy | every run of both stores, what they hold, and the link between them |
| RoutingRules.dfy, RoutingOrder.dfy, RoutingRuns.dfy, RoutingContents.dfy | manual and imported routing rules |
| CatalogTags.dfy, RuntimeCatalog.dfy, CatalogAccepted.dfy, CatalogContents.dfy | the catalog of targets, and exactly what is in it |
| CatalogCompiles.dfy, CatalogStarts.dfy | exactly when the compiler accepts it, with its channels |
| RuntimeControl.dfy, RuntimeControlRuns.dfy | applying targets, hot switches, watchers |

`dafny verify dfyconfig.toml` checks everything.

## Where the code and its description differ

- The comment at internal/singbox/config.go:662-664 says that a made-up DNS tag
  never collides. It collides iff the fake-IP responder is enabled and a server
  is already called like it (`TunDns.TagsDistinctExactly`, with such a profile in
  `MadeUpTagCanCollide`).
- `backoffFor` is off by one nanosecond for a maximum of 15s * 2^e + 1ns
  (`PoolHealth.BackoffIsCappedDoubling` states exactly when).
- `trafficpolicy.Update` gives up its lock while it restores the original pool. A
  second Update and a tick can get in between, and the first one then clears the
  original while the policy is switching again. `TrafficPolicyRuns.OverlapLosesTheOriginal`
  is such a run; a switch that succeeds is sure to know its original exactly if no
  Update was in its Apply when the tick left (`SwitchKnowsItsOriginalExactly`,
  `WindowIsExclusiveExactly`).
- `routing.Reorder` changes positions before it has checked the whole list, and an
  unknown or repeated id leaves the earlier changes in place;
  `RoutingOrder.RefusedOrderIsHarmlessExactly` states exactly when that shows.
  The next deletion closes positions up again; where it puts rules that share a
  position is left to an unstable sort (`PositionIsDeterminedExactly`).
- The connection cache keeps the totals under a name that a connection may also
  have; `LinkCacheTotals.NamesakeLosesTheTotals` loses their sample. Without such a
  connection in the payload that happens exactly if one is still cached
  (`WithoutNamesakeExactly`); with a new one, exactly if a thousand connections
  follow it (`NewNamesakeExactly`); never if the open links behind it leave room
  (`NamesakeFits`).
- `nodepool.Create` looks the members up before it takes the lock (manager.go:219-222),
  while `Update` does so under the lock. A refresh or deletion that ends in between
  leaves a stored member without a node until the next start
  (`StoreLink.CreateCanLeaveAMemberBehind`). So does a refresh or deletion whose pool
  write fails (`FailedWriteCanLeaveAMemberBehind`). `StepExactly` and `RunsExactly`
  state exactly when an event and a run are free of both, and `RepairRestoresTheLink`
  that the next start repairs all.

## Model

| member | source | states |
|---|---|---|
| Supervisor.AtMostOneChild | internal/supervisor/manager_linux.go:68-262 | in every interleaving of Start, Stop, exits, waits and restart timers at most one child is alive, and it is the recorded command of the current generation |
| Supervisor.DoneIsHeldExactlyWhileBusy | internal/supervisor/manager_linux.go:68-264 | the done channel is held exactly in starting, running and stopping, is open then, and is never closed twice |
| Supervisor.StaleGoroutinesAreInert | internal/supervisor/manager_linux.go:185-243 | a timer of an older generation, or from before a Stop, only goes away; no wait is ever stale |
| Supervisor.RestartBudget | internal/supervisor/manager_linux.go:185-243 | one Start makes at most maxRestarts + 1 launches per stable stretch; without one, a failure means exactly one launch or exactly maxRestarts + 1 |
| Supervisor.BusyManagerIsNeverStuck | internal/supervisor/manager_linux.go:68-262 | starting always has a live timer that launches, running and stopping always have the one wait, and a stopping manager whose child exited becomes stopped |
| Supervisor.StopIsFinal | internal/supervisor/manager_linux.go:117-155 | after Stop nothing is launched and the state stays stopping or stopped until the next Start |
| Supervisor.Manager.StartLocked | internal/supervisor/manager_linux.go:68-89 | the locked part of Start is the transition that the theorems above are about |
| Supervisor.Manager.StopLocked | internal/supervisor/manager_linux.go:117-138 | the locked part of Stop is that transition |
| Supervisor.Manager.WaitLocked | internal/supervisor/manager_linux.go:185-212 | the locked part of wait is that transition |
| Supervisor.Manager.FireLocked | internal/supervisor/manager_linux.go:226-243 | the locked part of a fired restart timer is that transition |
| Supervisor.Manager.ScheduleRestart | internal/supervisor/manager_linux.go:214-243 | a restart is scheduled with the delay of the moment, or the manager fails once the budget is used up |
| Supervisor.Manager.Finish | internal/supervisor/manager_linux.go:259-264 | the done channel is closed once and forgotten |
| Supervisor.Manager.RestartDelay | internal/supervisor/manager_linux.go:245-257 | the loop computes min(initial * 2^k, max), or the initial delay if that is already above the maximum |
| Supervisor.DelaySettles | internal/supervisor/manager_linux.go:245-257 | a delay that has reached the maximum keeps it for every later restart |
| Supervisor.RestartsBackOff | internal/supervisor/manager_linux.go:214-257 | on every run the one timer that can still launch waits min(initial * 2^k, max) for the k restarts before it; without a stable exit k is the number of launches so far less one |
| Supervisor.RestartsFollowTheEvents | internal/supervisor/manager_linux.go:185-243 | counted from the events: the k-th restart that a stretch asks for, since the last Start or stable exit, is granted iff k <= maxRestarts and then waits min(initial * 2^(k-1), max); otherwise the manager fails |
| Supervisor.StableExitStartsAfresh | internal/supervisor/manager_linux.go:207-224 | on every run, an exit after a stable run that nobody wanted is answered by a restart after the initial delay |
| Supervisor.StateFollowsTheEvents | internal/supervisor/manager_linux.go:68-243 | which state every event leads to after any run, and that a process of the current generation appears exactly where one is launched |
| LogTail.RingBuffer.Write | internal/supervisor/manager_linux.go:284-302 | the buffer becomes the last `capacity` bytes of what it held followed by the data, and the whole length is reported |
| LogTail.BufferHoldsTheEnd | internal/supervisor/manager_linux.go:284-302 | however the output is cut into writes, the buffer holds the end of all of it, as much as fits |
| PoolHealth.CountersMatchHistory | internal/poolhealth/manager.go:435-469 | the two counters and the status are a function of the whole probe history: trailing failures, trailing passes, and an unredeemed run of failures |
| PoolHealth.StatusMeansHistory | internal/poolhealth/manager.go:435-469 | quarantined iff the history has a run of ConsecutiveFailures failed rounds with no later run of RecoverySuccesses passed ones; otherwise the last round alone decides |
| PoolHealth.NextProbeIsBounded | internal/poolhealth/manager.go:435-469 | every checked member is probed again later than now and no later than the interval or the largest backoff |
| PoolHealth.BackoffFor | internal/poolhealth/manager.go:564-576 | the doubling loop over 64-bit durations computes the capped doubling without overflow |
| PoolHealth.BackoffIsCappedDoubling | internal/poolhealth/manager.go:564-576 | the result is min(15s * 2^e, max) iff max is not exactly one nanosecond above 15s * 2^e; so for every even max |
| PoolHealth.BackoffMonotone | internal/poolhealth/manager.go:564-576 | more failures never shorten the wait, and it never exceeds the maximum |
| PoolHealth.SortPutsBestFirst | internal/poolhealth/manager.go:482-495 | the comparison is a strict total order on eligible members, so the first after sorting does not depend on the order of the map |
| PoolHealth.BestExists | internal/poolhealth/manager.go:471-495 | there is a best candidate iff some member is eligible |
| PoolHealth.SelectionIsSound | internal/poolhealth/manager.go:471-511 | in every reachable state the answer is block iff no member can serve, otherwise a member that can serve, also when the current one is kept; selecting again changes nothing |
| PoolHealth.SelectionIsSticky | internal/poolhealth/manager.go:496-511 | a current member that can serve is left iff there is a better class, more passed tests in its class, or a gain above the tolerance |
| PoolHealth.RunIsReachable | internal/poolhealth/manager.go:216-364 | every run of rounds and idle changes leaves members that are exactly what their own histories make them |
| PoolHealth.RoundWritesAServingMember | internal/poolhealth/manager.go:323-364 | after any run, a round writes block iff no member can serve, the core's url test when idle, and otherwise a member that passed |
| PoolHealth.MemberState.ApplyResult | internal/poolhealth/manager.go:435-469 | updating one member in place is the counter machine whose meaning CountersMatchHistory gives |
| PoolHealth.Manager.constructor | internal/poolhealth/manager.go:129-148 | a started pool has each target once, unknown and due now, and nothing selected |
| PoolHealth.Manager.BestSelection | internal/poolhealth/manager.go:471-511 | the loop over the map, in any order, computes the order-free selection |
| PoolHealth.Manager.ApplyResults | internal/poolhealth/manager.go:342-346 | each result reaches the member of its tag, and results for unknown tags are dropped |
| PoolHealth.Manager.CheckTargets | internal/poolhealth/manager.go:323-364 | a round updates the members, then selects, and changes the recorded selection only if the selector was set |
| PoolHealth.Manager.SetIdle | internal/poolhealth/manager.go:227-255 | entering and leaving idle change nothing of a member but when it is probed next |
| PoolChoice.LatencyIsOfTheLastPass | internal/poolhealth/manager.go:435-469 | after every history the latency is that of the last round in which something passed, or 0, and the test counts are those of the last round |
| PoolChoice.FailuresSinceClear | internal/poolhealth/manager.go:435-469 | the failures that the backoff counts are the failed rounds since the member was last clear |
| PoolChoice.NextProbeFollowsTheHistory | internal/poolhealth/manager.go:435-469 | when a member is probed next, from its history alone: the interval after a pass, a second while it fails or recovers, and in quarantine the capped doubling for the failures since it was last clear |
| PoolChoice.BestIsAheadOfAll | internal/poolhealth/manager.go:471-495 | in every reachable state the best member is ahead of all others that can serve by class, passed tests, latency and tag of the last rounds in their histories |
| PoolChoice.SelectionFollowsTheHistories | internal/poolhealth/manager.go:471-511 | in every reachable state: block iff no member can serve, else the current member if its last round is within the tolerance of the best one's, else the best one, all read off the histories |
| PoolChoice.RoundChooses | internal/poolhealth/manager.go:323-364 | what a round writes after any run: what the histories with this round choose, the core's url test when idle; if the write failed the former choice stands |
| PoolChoice.RoundSchedules | internal/poolhealth/manager.go:323-364 | after any run a round leaves whom it probed due as their histories say, and everybody else as they were |
| PoolChoice.IdleChanges | internal/poolhealth/manager.go:227-255 | entering idle hands the choice to the core's url test and leaving it makes every member due; nothing else changes |
| ProbeRound.FinishedRoundCountedEveryJob | internal/poolhealth/manager.go:366-423 | in every interleaving of feeder, workers, collector and cancellation, a round that returns no error collected exactly one outcome for each entry of the job list, also if entries repeat |
| ProbeRound.StepsAreBounded | internal/poolhealth/manager.go:366-419 | every step uses up some of a bounded amount |
| ProbeRound.RoundsAreShort | internal/poolhealth/manager.go:366-419 | so no round has more than four steps a job, one a worker and three more |
| ProbeRound.RoundIsNeverStuck | internal/poolhealth/manager.go:366-419 | for any list of jobs, until the outcomes channel is closed some goroutine can move without a cancellation |
| ProbeRound.CollectedTagsAreKnown | internal/poolhealth/manager.go:404-414 | the collector never meets an outcome for a target that it does not know, also in a cancelled round |
| ProbeRound.Collect | internal/poolhealth/manager.go:408-432 | the counting loop reports for each target exactly the outcomes of its own tag |
| ProbeRound.Report | internal/poolhealth/manager.go:424-432 | one result a target, with the average over its successes or zero |
| ProbeRound.RoundReportsWhatPassed | internal/poolhealth/manager.go:366-433 | for any list of URLs: each is tried for each target as often as it is listed, successes are those that passed and never more than were tried, and the average lies between the smallest and the largest delay |
| ProbeRound.FinishedRoundCollectedEveryOutcome | internal/poolhealth/manager.go:366-423 | in every interleaving, a round that returns no error collected exactly the outcomes that its probes returned, each once |
| ProbeRound.LatencyIsTheAverage | internal/poolhealth/manager.go:408-432 | a result counts the passes of its tag, and its latency is the whole-millisecond average of their delays, or 0 without any |
| ProbeRound.DistinctUrlsCountOnce | internal/poolhealth/manager.go:366-433 | if no URL is listed twice, no (target, URL) pair is counted twice and successes are distinct URLs |
| ProbeRound.SharedTagExceedsTotal | internal/poolhealth/manager.go:408-420 | two targets under one tag would count more successes than tests, so distinct tags are needed |
| FreshTags.DecimalInjective | internal/singbox/config.go:530-540 | decimal suffixes of different numbers differ |
| FreshTags.DecimalDenotes | internal/singbox/config.go:530-540 | the suffix is the number in decimal without leading zeros |
| FreshTags.SearchAdvances | internal/singbox/config.go:530-540 | each failed attempt leaves strictly fewer used tags in the way, which is why the unbounded search ends |
| FreshTags.FirstFree | internal/singbox/config.go:530-540 | the search finds the lowest free suffix for every finite set of used tags |
| FreshTags.UniqueTag | internal/singbox/config.go:665-679 | the loop returns a tag that is not in use |
| FreshTags.FreshTagIsLowest | internal/singbox/config.go:530-540 | it is the base if that is free, and else the base with the lowest free number from 2 on, and nothing else |
| Cidr.NestedOrDisjoint | internal/singbox/config.go:556-565 | two IPv4 blocks that share an address are nested (section 3.1 of RFC 4632) |
| Cidr.BasesOverlapExactly | internal/singbox/config.go:556-565 | the two-sided test on masked base addresses rejects iff the two ranges share an address |
| Cidr.TunAcceptedExactly | internal/singbox/config.go:546-567 | a TUN profile is accepted iff the address is an IPv4 /30 that shares no address with the fake-IP range |
| TunDns.BuildTunDns | internal/singbox/config.go:585-637 | the loop emits the bootstrap resolver, each server and the responder, in order |
| TunDns.BootstrapIsNotFake | internal/singbox/config.go:681-683 | the made-up bootstrap tag is never the made-up fake-IP tag |
| TunDns.TagsDistinctExactly | internal/singbox/config.go:585-637 | the compiled DNS tags are distinct iff no configured server already has the fake-IP responder's tag |
| TunDns.MadeUpTagCanCollide | internal/singbox/config.go:662-664 | a valid profile with such a server exists, and compiles to two servers of one tag |
| TunDns.SectionIsAsConfigured | internal/singbox/config.go:585-637 | a plain resolver at a fixed address, each server as configured with encrypted ones going through the proxy unless they say otherwise and domains looked up at the first, and the responder with its ranges iff it is enabled |
| RuntimeConfig.EmitNodes | internal/singbox/config.go:248-265 | the loop over the nodes accepts, rejects and emits as the specification does |
| RuntimeConfig.EmitPool | internal/singbox/config.go:267-307 | one pool: reserve both tags, check its members, emit the url test and the selector |
| RuntimeConfig.EmitEntry | internal/singbox/config.go:350-369 | one entry node of a chain: a copy under a fresh tag and the exit dialled through it |
| RuntimeConfig.EmitChain | internal/singbox/config.go:309-391 | one chain, with one entry or a group of them |
| RuntimeConfig.EmitChannels | internal/singbox/config.go:411-432 | one rule and one inbound a channel, for known nodes only |
| RuntimeConfig.BuildSelectableConfig | internal/singbox/config.go:228-449 | the whole compiler, loops and early errors, equals the specification that the graph theorems are about |
| RuntimeConfig.TargetsKeepInv | internal/singbox/config.go:242-391 | the loops keep: distinct tags, every reference below it or block, every root emitted |
| OutboundGraph.AcceptedConfigIsWellFormed | internal/singbox/config.go:228-449 | for every accepted input the outbound tags are pairwise distinct and every member, default, detour and final resolves to an emitted outbound of a lower level |
| OutboundGraph.NoCycles | internal/singbox/config.go:228-449 | no outbound can be reached from itself |
| OutboundGraph.WhoRefersTo | internal/singbox/config.go:228-449 | only the root selector refers to direct, and nothing refers to the root |
| OutboundGraph.DirectOnlyFromTheRoot | internal/singbox/config.go:228-449 | every path to direct is direct itself or the step from the root; no pool, chain or node leads there |
| OutboundGraph.FailsClosed | internal/singbox/config.go:299-306 | below the root, a path that cannot go on ends at a node or at block |
| OutboundGraph.EveryTargetIsEmitted | internal/singbox/config.go:248-405 | each node, pool and chain of an accepted input is in the graph as itself, chains as two hops, and the root offers exactly them |
| OutboundGraph.RoutesAreOrdered | internal/singbox/config.go:411-440 | channel rules precede the user's, each goes to a plain node, DNS is hijacked first and sniffing comes last |
| OutboundGraph.RoutesResolve | internal/singbox/config.go:639-660 | every outbound that a rule names is emitted, if the user's rules name emitted ones |
| ConfigContents.ListenersExactly | internal/singbox/config.go:407-433 | system-proxy mode has exactly one mixed inbound, on 0.0.0.0 iff LAN is allowed and else on 127.0.0.1; TUN mode has exactly one TUN inbound; a listener that the LAN can reach exists iff allowed; then comes one inbound for each channel, in order |
| ConfigContents.ServicesExactly | internal/singbox/config.go:437-449 | DNS is compiled in, with its own resolver for servers and nodes, exactly in TUN mode, and the API exactly if it has an address |
| ConfigContents.OptionsNormaliseExactly | internal/singbox/config.go:486-510 | options are accepted iff interval, tolerance, URL and idle timeout are within their limits, and only a missing URL and a missing idle timeout are filled in |
| ConfigContents.NothingElseIsEmitted | internal/singbox/config.go:228-405 | one outbound a node, two a pool, two an entry node of a chain and two more for a group of them, the root selector, direct and block, and nothing besides |
| ConfigContents.AcceptedInputIsFine | internal/singbox/config.go:228-380 | whatever is accepted has valid nodes, pools of two or more known nodes, chains with a known exit and entry nodes, fine options, and starts at a target it offers |
| ResolutionGraph.BootstrapNeedsNothing | internal/singbox/config.go:587-590 | the bootstrap resolver depends on no server and no outbound |
| ResolutionGraph.ServersReferWell | internal/singbox/config.go:591-612 | a compiled server refers at most to the bootstrap resolver and to proxy, direct or block |
| ResolutionGraph.ResolutionCannotDeadlock | internal/singbox/config.go:585-660 | in TUN mode no chain of dependencies among DNS servers and outbounds returns to its start, none is longer than seven, and none starts at the bootstrap |
| ResolutionGraph.FinalAsResolverWouldDeadlock | internal/singbox/config.go:654-658 | with the profile's final server as the default resolver a cycle through the proxy would exist, which is why there is a bootstrap |
| RuleText.ParseRuleText | web/src/views/ruleText.ts:77-133 | the loop over the lines accepts, rejects with the same first error, and collects as the specification does |
| RuleText.SerializeRuleText | web/src/views/ruleText.ts:15-30 | the printer's lines: header, body, hints and the commented source |
| RuleText.SerializeRulePoolText | web/src/views/ruleText.ts:32-42 | the pool printer joins header and bodies with separator lines |
| RuleText.ParseRulePoolText | web/src/views/ruleText.ts:44-65 | the pool parser splits at separator lines, skips comment-only segments and stops at the first error |
| RuleText.ValuesComeBack | web/src/views/ruleText.ts:135-137 | splitting joined clean values gives the same values in the same order |
| RuleTextRoundTrip.ParsedRuleIsAccepted | web/src/views/ruleText.ts:77-133 | whatever text a rule was parsed from, it is one the printer can render: trimmed name, distinct clean values, each kind once |
| RuleTextRoundTrip.PrintedRuleParses | web/src/views/ruleText.ts:15-133 | every acceptable rule, with any source, parses back to itself |
| RuleTextRoundTrip.RuleRoundTrip | web/src/views/ruleText.ts:15-133 | for every text that parses: printing and parsing again gives exactly that rule |
| RuleTextRoundTrip.SegmentsOfPool | web/src/views/ruleText.ts:32-65 | the printed pool splits into the header and exactly one segment a rule |
| RuleTextRoundTrip.PrintedPoolParses | web/src/views/ruleText.ts:32-65 | a pool of any number of acceptable rules parses back to the same rules in the same order |
| RuleTextRoundTrip.PoolRoundTrip | web/src/views/ruleText.ts:32-65 | for every pool text that parses: printing and parsing again gives the same rules |
| RuleTextMeaning.TextMeansExactly | web/src/views/ruleText.ts:77-133 | a text is accepted iff each line is empty, a comment or a known key with a fitting value, name and action stand there once, the flag at most once, and there is a condition; then name, action and flag are those of the lines, a rule without flag is on, and each kind and each value of a condition comes out once where it first stood |
| RuleTextMeaning.FirstMistake | web/src/views/ruleText.ts:86-127 | the line that an error names is the first one with which the lines are not good any more, and its reason is what is wrong there |
| RuleTextMeaning.SomethingIsMissing | web/src/views/ruleText.ts:123-126 | an error without a line means that every line is good, but the name, the action or all conditions are missing, in this order |
| RuleTextMeaning.SaysExactly | web/src/views/ruleText.ts:87-92 | a line says at most one key and value: what stands in front of and behind its first equals sign, without the space around |
| RuleTextMeaning.WordsExactly | web/src/views/ruleText.ts:139-152 | the words, in English and Chinese, that stand for on, off and the three actions, and no others |
| RuleTextMeaning.CaseDoesNotMatter | web/src/views/ruleText.ts:139-152 | the case of Latin letters does not matter in a flag or an action |
| RuleTextMeaning.CommasSplit | web/src/views/ruleText.ts:135-137 | values are split at commas of either width |
| RuleTextMeaning.CleanedExactly | web/src/views/ruleText.ts:135-137 | the values are the pieces without the space around them, and none is empty |
| RuleTextMeaning.SegmentsExactly | web/src/views/ruleText.ts:45-52 | for every text, the segments with a separator between any two are its lines |
| RuleTextMeaning.RuleSegmentsExactly | web/src/views/ruleText.ts:53-56 | the segments parsed are those with a line that is neither empty nor a comment, in order |
| RuleTextMeaning.ParsedSegmentsExactly | web/src/views/ruleText.ts:57-64 | a pool is accepted iff each rule is and gives these rules in order; an error names the first bad rule and its error |
| RuleTextMeaning.SourceIsQuoted | web/src/views/ruleText.ts:15-30 | a printed rule ends with the lines of its upstream source, each behind a hash and a space |
| TrafficPolicy.WholeSecondsReach | internal/trafficpolicy/manager.go:247-252 | whole elapsed seconds reach n iff the elapsed time does |
| TrafficPolicy.Manager.Tick | internal/trafficpolicy/manager.go:198-242 | the first locked segment of tick is the transition that the theorems are about, early returns included |
| TrafficPolicy.Manager.Release | internal/trafficpolicy/manager.go:242-255 | the segment of an active policy, up to giving up the lock |
| TrafficPolicy.Manager.Trigger | internal/trafficpolicy/manager.go:269-293 | the segment of a waiting policy, up to giving up the lock |
| TrafficPolicy.Manager.Switched | internal/trafficpolicy/manager.go:295-315 | the segment after the switch: active, or rolling back |
| TrafficPolicy.Manager.Returned | internal/trafficpolicy/manager.go:257-266 | the segment after a recovery or roll-back: a finished cycle, or an error |
| TrafficPolicy.Manager.Update | internal/trafficpolicy/manager.go:142-177 | the first segment of Update; a refused or unpersisted one changes nothing |
| TrafficPolicy.Manager.UpdateApplied | internal/trafficpolicy/manager.go:178-193 | the second segment of an Update that turned an active policy off |
| TrafficPolicyRuns.SwitchesNeedSustainedRates | internal/trafficpolicy/manager.go:198-293 | on every run, a tick switches only after TriggerDurationSeconds in which every computed rate reached the trigger under one configuration, and back only after ReleaseDurationSeconds of low rates |
| TrafficPolicyRuns.NoApplyDuringCooldown | internal/trafficpolicy/manager.go:206-213 | with a clock that never goes back, no tick calls Apply before the end of the last finished cycle's cooldown |
| TrafficPolicyRuns.WindowIsExclusiveExactly | internal/trafficpolicy/manager.go:146-149 | while tick is out of its lock nobody changes configuration, original or state iff no Update was still in its own Apply when tick left |
| TrafficPolicyRuns.ActivePolicyKnowsItsOriginal | internal/trafficpolicy/manager.go:289-315 | if no tick switches while an Update is in its Apply: an active policy holds the target it switched away from, which is not the download pool, and every recovery, roll-back and Update applies exactly that |
| TrafficPolicyRuns.SwitchingAlwaysEnds | internal/trafficpolicy/manager.go:142-317 | triggering and recovering always have somebody in an Apply who will end them |
| TrafficPolicyRuns.SwitchKnowsItsOriginalExactly | internal/trafficpolicy/manager.go:289-315 | every continuation in which the switch returns successfully ends active and knowing the target it left iff no Update was in its Apply when the tick left, or that target is the empty one |
| TrafficPolicyRuns.OverlapLosesTheOriginal | internal/trafficpolicy/manager.go:177-193 | a concrete run from the start in which the active policy has forgotten its original target |
| TrafficPolicyEvents.SwitchAppliesTheDownloadPool | internal/trafficpolicy/manager.go:289-294 | on every run, while tick is in its switching window the target of its Apply has the mode and the LAN setting of the runtime which that tick saw, and the download pool configured then |
| TrafficPolicyEvents.TickApplies | internal/trafficpolicy/manager.go:252-300 | a tick that leaves the lock notes the target that it leaves and applies the download pool, or goes back to the noted one |
| TrafficPolicyEvents.LastSampleIsBase | internal/trafficpolicy/manager.go:214-241 | a rate is measured from the traffic total of the last tick that read one, if nothing was forgotten since |
| TrafficPolicyEvents.RateFromEvents | internal/trafficpolicy/manager.go:227-240 | a tick computes a rate iff it reads a total that came later and is no smaller than the one before, and then the whole quotient |
| TrafficPolicyEvents.SinceFromEvents | internal/trafficpolicy/manager.go:242-284 | since when the rate has been low or high, as the rates that the ticks computed say |
| TrafficPolicyEvents.SwitchesExactly | internal/trafficpolicy/manager.go:242-293 | after any run a tick switches iff it computes a rate, the policy is not active, another pool runs and the rates have been high for the trigger duration; and back iff it is active and they have been low for the release duration |
| TrafficPolicyEvents.TickShows | internal/trafficpolicy/manager.go:198-288 | the state that a tick shows when it does not leave the lock |
| TrafficPolicyEvents.TickMovesTheCooldown | internal/trafficpolicy/manager.go:206-226 | a tick forgets a cooldown that it finds over, and starts one when a manual change ends a cycle |
| TrafficPolicyEvents.ManualChangeEndsTheCycle | internal/trafficpolicy/manager.go:221-226 | an active policy whose runtime was moved to another pool by hand ends its cycle with the full cooldown and nothing left of it |
| TrafficPolicyEvents.ReturnsLead | internal/trafficpolicy/manager.go:256-317 | what the end of an Apply leaves: an active policy, a roll-back, a finished cycle with its cooldown, or a failure |
| TrafficPolicyEvents.UpdateTakesEffect | internal/trafficpolicy/manager.go:142-193 | an Update is accepted iff it validates, no switch is under way, it does not keep an active policy on, and it is written; then it takes effect at once and restores the original if it turns an active policy off |
| TrafficPolicyEvents.UpdateEnds | internal/trafficpolicy/manager.go:177-193 | after its Apply an Update leaves a disabled policy with nothing left of the cycle, or a failed one that still knows its original |
| TrafficPolicyEvents.StartsAfresh | internal/trafficpolicy/manager.go:88-115 | a policy that was just loaded waits if it is enabled and is disabled otherwise, and has measured nothing |
| LinkCache.Monitor.PollOnce | internal/connmon/monitor.go:280-377 | one poll, loops and counters, equals the specification |
| LinkCache.Monitor.ObserveOne | internal/connmon/monitor.go:300-351 | one connection of the payload: admitted, rated and stored |
| LinkCache.Monitor.MarkVanished | internal/connmon/monitor.go:353-367 | walking the map in any order closes exactly the links that are gone and counts the others |
| LinkCache.Monitor.EvictOldest | internal/connmon/monitor.go:380-396 | the loop drops the oldest closed link or else the oldest |
| LinkCache.Monitor.TotalRates | internal/connmon/monitor.go:284-296 | the process-wide rates, zero when the counter went back |
| LinkCache.Monitor.Reset | internal/connmon/monitor.go:194-203 | the cache is as it was at first |
| LinkCacheRuns.ClosedLinksGoFirst | internal/connmon/monitor.go:380-396 | an open link is evicted iff all are open, and what is evicted is the oldest of its kind |
| LinkCacheRuns.PollSettles | internal/connmon/monitor.go:299-377 | after a poll exactly the payload's cached links are open and the statistics count them; samples are kept of cached links and the totals only, and of exactly the totals and the open links iff no connection named like the totals vanished or was evicted (LinkCacheTotals says when that is, before the poll) |
| LinkCacheRuns.PollShowsThePayload | internal/connmon/monitor.go:315-351 | after a poll every cached link of the payload carries the payload's counters |
| LinkCacheRuns.NothingIsLostExactly | internal/connmon/monitor.go:315-323 | a poll loses no link, old or new, iff all of them fit in the cache |
| LinkCacheRuns.CacheStaysCoherent | internal/connmon/monitor.go:270-396 | after every sequence of polls and resets: at most 1000 links, the order lists exactly them once and by age, and the statistics count the open ones |
| LinkCacheRuns.SamplesStayExact | internal/connmon/monitor.go:297-367 | on every run without a connection named like the totals, each poll leaves exactly the samples of the totals and of the open links |
| LinkRates.PollRatesLinks | internal/connmon/monitor.go:315-336 | after any poll a link of the payload shows no rate if it is new or was evicted on the way, and else the difference of its counters over the time since its sample; a counter that went back leaves the former rate |
| LinkRates.RatesAreOfTheLastTwoPolls | internal/connmon/monitor.go:315-336 | on every run with two polls in succession, a connection of both that stayed cached shows exactly the rates between the two |
| LinkRates.NewConnectionsHaveNoRate | internal/connmon/monitor.go:315-336 | a connection that the poll before did not list starts without a rate |
| LinkRates.ClosedLinksAreIdle | internal/connmon/monitor.go:353-367 | on every run a closed link shows no rate |
| LinkRates.VanishedAreClosed | internal/connmon/monitor.go:353-367 | an open link that the payload lacks is closed now and keeps its counters, one closed before stays as it was, and the count grows by as many as are closed |
| LinkRates.TotalsAreOfTheLastTwoPolls | internal/connmon/monitor.go:284-297 | on every run without a namesake of the totals, the statistics give the totals of the last payload and the whole rates between the last two polls, or 0 where a counter went back |
| LinkRates.FirstPollHasNoRates | internal/connmon/monitor.go:284-297 | the first poll after a start or a reset shows no rates |
| LinkCacheTotals.WithoutNamesakeExactly | internal/connmon/monitor.go:297-367 | a payload without a connection named like the totals loses their sample iff such a link is still cached |
| LinkCacheTotals.NamesakeFits | internal/connmon/monitor.go:300-351 | a payload with one loses no sample if the connection fits beside the rest of the payload and the open links listed behind it |
| LinkCacheTotals.NewNamesakeExactly | internal/connmon/monitor.go:300-351 | when it and those after it are new, the sample is lost iff at least a thousand connections come after it |
| LinkCacheTotals.NamesakeLosesTheTotals | internal/connmon/monitor.go:284-367 | two concrete polls after which the sample is lost and the totals' rates are wrong |
| Subscriptions.CollectById | internal/subscription/manager.go:850-862 | the named nodes that exist, in the order of the names |
| Subscriptions.MergeNodeLists | internal/subscription/manager.go:864-877 | both lists in turn, the first node of each id |
| Subscriptions.Manager.Refresh | internal/subscription/manager.go:601-646 | a refresh replaces the nodes and repairs the selection, or changes nothing if the write fails |
| Subscriptions.Manager.ImportNodes | internal/subscription/manager.go:297-395 | too much text, too many links or none are refused; otherwise the links that parse are imported, or nothing changes if the write fails |
| Subscriptions.Manager.Create | internal/subscription/manager.go:232-254 | the first subscription is the active one; a failed write takes it back |
| Subscriptions.Manager.Delete | internal/subscription/manager.go:414-431 | the first remaining subscription becomes active if the active one went |
| Subscriptions.Manager.Activate | internal/subscription/manager.go:463-480 | exactly the chosen one becomes active |
| Subscriptions.Manager.SelectNode | internal/subscription/manager.go:482-507 | only a node of the subscription can be selected |
| Subscriptions.RefreshKeepsImports | internal/subscription/manager.go:609-623 | after a refresh there are exactly the fetched and the imported nodes, each once, and a selection exists whenever there are nodes |
| Subscriptions.RefreshKeepsSelection | internal/subscription/manager.go:612-622 | the former selection stays iff its node is still there |
| Subscriptions.ImportsAreSound | internal/subscription/manager.go:348-385 | imports lose no node, keep ids distinct and record every imported id |
| SubscriptionContents.MergedExactly | internal/subscription/manager.go:864-877 | merging keeps the first node of each id, and a longer list only adds at the end |
| SubscriptionContents.RefreshedExactly | internal/subscription/manager.go:607-623 | a refreshed subscription holds the first fetched node of each id as it was fetched, and its imported nodes that were not fetched as they were stored; fetched ones come first; the selection stays if it can and is the first node otherwise |
| SubscriptionContents.ImportsFollow | internal/subscription/manager.go:850-877 | behind the fetched nodes stand the imported ones that were not fetched, in the order of the imports |
| SubscriptionContents.ImportsExactly | internal/subscription/manager.go:338-383 | after an import a node stands as the last link of its id brought it, or as it was if no link has its id; a selection stays |
| SubscriptionContents.ImportsAppend | internal/subscription/manager.go:338-383 | known nodes keep their places, new ones and their ids are added in the order of the links, and the imported ids are those before and those of the links, each once |
| SubscriptionContents.FirstImportIsSelected | internal/subscription/manager.go:378-380 | the first link imported into an empty subscription becomes its selection |
| SubscriptionContents.DeletedExactly | internal/subscription/manager.go:403-437 | the other subscriptions stay as they were, in order, and the first of them becomes active exactly if the active one went |
| SubscriptionContents.ActivatedExactly | internal/subscription/manager.go:463-480 | exactly the chosen subscription becomes active, and nothing else changes |
| PoolMembers.IndexTwins | internal/nodepool/manager.go:312-322 | the table by identity knows an id only where it is the only one |
| PoolMembers.Manager.KeepPoolMembers | internal/nodepool/manager.go:327-361 | the loop over one pool keeps, moves and drops members as specified, and reports a change iff there is one |
| PoolMembers.Manager.ReconcileSubscriptionNodes | internal/nodepool/manager.go:307-376 | all pools are reconciled, or none if the write fails |
| PoolMembers.Manager.DeleteSubscriptionMembers | internal/nodepool/manager.go:378-406 | exactly the subscription's members go, or none if the write fails |
| PoolMembers.Manager.ReconcileReferences | internal/nodepool/manager.go:411-439 | exactly the members that do not resolve go, or none if the write fails |
| PoolMembers.Manager.CheckMembers | internal/nodepool/manager.go:298-305 | the loops of validation: too many, blank and unresolved members are refused, repeated ones dropped; each member is looked up in the subscriptions of that moment |
| PoolMembers.Manager.StoreCreated | internal/nodepool/manager.go:222-230 | the locked part of Create: the members checked before are stored as they are, or not at all |
| PoolMembers.Manager.UpdateMembers | internal/nodepool/manager.go:233-296 | a pool gets members validated under the lock it is stored under, or stays as it was |
| PoolIntegrity.RecognisedExactly | internal/nodepool/manager.go:312-341 | a node is recognised under a new id iff one node of the new list, and only one, differs from it at most in id and name |
| PoolIntegrity.MovesExactly | internal/nodepool/manager.go:307-346 | a member stays with an id that is there or was never known, and else goes to the only node of the new list that differs from its own at most in id and name |
| PoolIntegrity.KeptInOrder | internal/nodepool/manager.go:327-362 | members come out in the order in which they, or what became of them, first went in |
| PoolIntegrity.CleanedInOrder | internal/nodepool/manager.go:652-667 | accepted members stay in the order in which they were first named |
| PoolIntegrity.KeptExactly | internal/nodepool/manager.go:332-357 | a member comes out of a reconciliation iff it went in or is where some member's node went |
| PoolIntegrity.OthersAreUntouched | internal/nodepool/manager.go:333-336 | members of other subscriptions keep their content and order |
| PoolIntegrity.KeptAreDistinct | internal/nodepool/manager.go:347-352 | no duplicates appear, also when two members move to one node |
| PoolIntegrity.ReconcilingTwiceIsOnce | internal/nodepool/manager.go:307-376 | reconciling again changes nothing, for any lists and any members |
| PoolIntegrity.NothingMovedNothingChanges | internal/nodepool/manager.go:337-358 | members whose nodes are all still there are left alone |
| PoolIntegrity.KeptMembersExist | internal/nodepool/manager.go:337-346 | if each member named a node before or names one now, each kept one names one now |
| PoolIntegrity.ValidatedExactly | internal/nodepool/manager.go:298-305 | members are accepted iff there are not too many, none is blank and each resolved when it was looked up; the result is the same members, each once |
| PoolIntegrity.RefusedFor | internal/nodepool/manager.go:298-305 | why members are refused: too many, a blank one, or else the first that did not resolve when it was looked up |
| PoolIntegrity.ResolvesExactly | internal/subscription/manager.go:509-525 | a member resolves iff its subscription has its node, or, with an empty node id, has a node that is selected |
| StoreLink.StepExactly | internal/nodepool/manager.go:206-439 | whenever all members exist or have work under way that will see to them, the next event keeps that iff its condition holds before it: a pool to be stored has only such members, and a pool write that fails after a refresh or deletion finds no member outside the nodes that are left; nothing else needs a condition, in particular no Update |
| StoreLink.FailedReconcileExactly | internal/nodepool/manager.go:371-374 | after a reconciliation that could not be written nothing is left behind iff no pool has a member of that subscription outside its current nodes |
| StoreLink.StoringExactly | internal/nodepool/manager.go:222-230 | after a created pool is stored all members exist or have work under way iff each member looked up earlier still does |
| StoreLink.RunsExactly | internal/subscription/manager.go:403-659 | on every interleaving of look-ups, stores, refreshes, imports, deletions, restarts and failed writes: no member is ever left behind iff no event was harmful when it happened |
| StoreLink.MembersExist | internal/subscription/manager.go:403-659 | then each member of each pool names an existing node, once, unless a refresh or deletion of its subscription is under way |
| StoreLink.OnlyAnEndLosesADraft | internal/nodepool/manager.go:206-231 | a member that was looked up for a new pool and is gone by now was lost to a refresh or deletion of its subscription that ended after the look-up |
| StoreLink.KnownUntilWorkEnds | internal/nodepool/manager.go:298-305 | on every run a member that exists keeps a node, or work that will see to it, until the work on its subscription ends |
| StoreLink.CreateCanLeaveAMemberBehind | internal/nodepool/manager.go:219-230 | a concrete run in which no write fails and a stored member has no node |
| StoreLink.FailedWriteCanLeaveAMemberBehind | internal/subscription/manager.go:644-648 | a concrete run in which the pool write after a refresh fails and a member has no node |
| StoreLink.UpdateIsHarmless | internal/nodepool/manager.go:233-296 | storing an Update never leaves a member behind, however the subscriptions change while it looks its members up |
| StoreLink.RepairRestoresTheLink | internal/nodepool/manager.go:411-439 | whatever was left behind or interrupted, after the next start every member names an existing node, once |
| StoreLink.ReconcileKeepsPool | internal/nodepool/manager.go:327-361 | the reconciliation that ends a refresh leaves members of that subscription that exist, and others as known as they were |
| StoreRuns.StepKnows | internal/subscription/manager.go:403-659 | a member with a node or work under way loses both only when the work on its subscription ends |
| StoreRuns.SubscriptionsStaySound | internal/subscription/manager.go:403-480 | on every run ids are distinct, selections exist, imports are there, and exactly one subscription is active as soon as there is any |
| StoreRuns.ImportedNodesSurvive | internal/subscription/manager.go:609-612 | an imported node survives every run in which its subscription is not deleted, restarts included |
| StoreContents.CreatedPoolIsRequested | internal/nodepool/manager.go:206-231 | on every run a created pool comes last and has the members that its request named, each once and in order of first naming |
| StoreContents.UpdatedPoolIsRequested | internal/nodepool/manager.go:233-296 | on every run a changed pool has the members that its Update named, and no other pool changes |
| StoreContents.PoolsStay | internal/nodepool/manager.go:307-439 | refreshes, deletions of subscriptions and restarts never change which pools there are or their order |
| StoreContents.RefreshRemembers | internal/subscription/manager.go:601-648 | a refresh under way will reconcile with exactly the nodes that its subscription had before and has after, and has changed no other subscription |
| RoutingRules.Manager.TakeOut | internal/routing/manager.go:200-210 | filtering in place through the front of the same array keeps exactly the other rules in order and remembers the removed ones by id |
| RoutingRules.Manager.Append | internal/routing/manager.go:224-229 | appending, in place or into a larger array, adds one rule at the end |
| RoutingRules.Manager.SyncSubscriptionRules | internal/routing/manager.go:198-239 | filter, count occurrences, append; restored from the clone if the write fails |
| RoutingRules.Manager.DeleteSubscriptionRules | internal/routing/manager.go:241-258 | exactly the subscription's rules go, or none if the write fails |
| RoutingRules.Manager.Create | internal/routing/manager.go:73-91 | a manual rule at the next free position, taken back if the write fails |
| RoutingRules.Manager.Update | internal/routing/manager.go:93-142 | imported rules can only be switched, and only on if supported |
| RoutingRules.Manager.NormalizePositions | internal/routing/manager.go:560-571 | the manual rules are numbered in whatever order the sort leaves them |
| RoutingRules.Manager.Delete | internal/routing/manager.go:144-163 | only manual rules go, and positions close up; for every outcome of the sort |
| RoutingRules.Manager.Reorder | internal/routing/manager.go:165-196 | the table, the loop and both early errors; only a failed write puts the rules back |
| RoutingOrder.AcceptedOrderIsAPermutation | internal/routing/manager.go:179-196 | an accepted order lists every manual rule exactly once, gives each its place, and touches nothing else |
| RoutingOrder.OrderAcceptedExactly | internal/routing/manager.go:165-189 | an order is accepted iff it lists each manual rule once |
| RoutingOrder.OrderRefusedFor | internal/routing/manager.go:174-186 | why an order is refused: its length, an entry that is no manual rule, or one that repeats |
| RoutingOrder.RefusedOrderIsHarmlessExactly | internal/routing/manager.go:179-189 | a refused order leaves the rules as they were iff the entries before the bad one were in place already |
| RoutingOrder.RefusedOrderCanTie | internal/routing/manager.go:179-189 | a refused order can leave two rules at one position |
| RoutingOrder.PositionsCloseUp | internal/routing/manager.go:560-571 | however the sort treats ties, a deletion leaves positions 0, 1, 2, ... each once, and whoever stood before another still does |
| RoutingOrder.DeletedExactly | internal/routing/manager.go:144-153 | a deletion is refused iff the rule is unknown or not the user's own |
| RoutingOrder.DeletionLeavesTheOthers | internal/routing/manager.go:154-156 | the other rules stay in order and as they were but for manual positions |
| RoutingOrder.DeletionClosesUp | internal/routing/manager.go:154-156 | for every outcome of the sort, the manual rules that are left have the positions 0, 1, 2, ..., each once, in the order that they had |
| RoutingOrder.PositionIsDeterminedExactly | internal/routing/manager.go:567 | every way to sort puts a rule at the same place iff no other rule shares its position |
| RoutingOrder.NumberedFacts | internal/routing/manager.go:568-570 | only the positions of manual rules change, and each gets its place in the order |
| RoutingRuns.SyncLeavesOthersAlone | internal/routing/manager.go:202-210 | all other rules stay as they were, in order, in front |
| RoutingRuns.ImportedIdsDiffer | internal/routing/manager.go:211-215 | repeated sources get different ids |
| RoutingRuns.SyncKeepsInv | internal/routing/manager.go:198-239 | ids stay distinct and true to their source, and nothing unsupported gets enabled |
| RoutingRuns.SwitchSurvivesExactly | internal/routing/manager.go:216-219 | a synced rule is on iff it is supported and the same source and occurrence was on before |
| RoutingRuns.SyncTwiceIsOnce | internal/routing/manager.go:198-239 | syncing the same import twice equals syncing it once |
| RoutingRuns.NothingUnsupportedIsEnabled | internal/routing/manager.go:306-346 | on every run no enabled rule is unsupported, so compiling never fails for that |
| RoutingContents.ImportIsShown | internal/routing/manager.go:198-239 | on every run a subscription's rules are its last import, in its order, each with the name, conditions, action, support and source that was brought and its place as position |
| RoutingContents.SwitchesFollowTheEvents | internal/routing/manager.go:93-239 | on every run an imported rule is there and on iff the events leave it on: switched on while supported, not switched off since, and supported in every import since |
| RoutingContents.KeptInOrder | internal/routing/manager.go:202-210 | the rules that a sync or a deletion leaves keep their order |
| RoutingContents.CreatedIsLast | internal/routing/manager.go:73-91 | a created rule stands as it was given behind all others, at the lowest position from 0 on that is above every manual one |
| RoutingContents.UpdateExactly | internal/routing/manager.go:93-142 | a change goes through iff the rule permits it, and then it reaches the fields that it names and no other rule |
| RuntimeControl.Service.RecordApply | internal/control/service.go:359-371 | the final segment of a full apply |
| RuntimeControl.Service.RecordFailure | internal/control/service.go:1030-1040 | failed, with no catalog and no controller |
| RuntimeControl.Service.RecordStop | internal/control/service.go:836-842 | stopped, keeping only the LAN preference |
| RuntimeControl.Service.CanAttemptHotSwitch | internal/control/service.go:377-386 | a hot switch needs the running catalog, the same mode and LAN setting, and a running core |
| RuntimeControl.Service.HotSwitch | internal/control/service.go:388-424 | the target changes iff the selector was set, mode and LAN setting never |
| RuntimeControl.Service.MarkControlledStop | internal/control/service.go:907-915 | the generation about to be stopped is disarmed |
| RuntimeControl.Service.SetAllowLan | internal/control/service.go:218-234 | the preference changes only while nothing runs |
| RuntimeControl.Service.WatcherDecides | internal/control/service.go:867-900 | a watcher records a failure unless its generation is gone, stopped or disarmed |
| CatalogTags.Pad3Injective | internal/control/service.go:491 | numbers padded to three digits differ, also beyond 999 |
| CatalogTags.Pad3Denotes | internal/control/service.go:491 | the number of a tag is written with at least three digits, padded with zeros |
| CatalogTags.TagsDiffer | internal/control/service.go:491-601 | no two of the made-up tags of nodes, pools, chains, their url tests and chain members are the same |
| CatalogTags.NoY | internal/control/service.go:491-601 | no made-up tag can be the entry tag that the compiler makes up for a chain |
| RuntimeCatalog.CollectNodes | internal/control/service.go:478-500 | the loop over the nodes skips invalid ones, or fails if one of them was asked for |
| RuntimeCatalog.CollectPools | internal/control/service.go:505-556 | the loop over the pools skips those without two usable members, or fails if one of them was asked for |
| RuntimeCatalog.CollectChains | internal/control/service.go:558-627 | the loop over the chains skips those without exit, probe targets or nodes, or fails if one of them was asked for |
| RuntimeCatalog.BuildRuntimeCatalog | internal/control/service.go:447-634 | the whole build, early errors included, equals the specification that the next theorems are about |
| CatalogAccepted.BuildIsShaped | internal/control/service.go:465-627 | tags are numbered without gaps, members and exits are emitted nodes, and every entry is under its own key with an offered tag |
| CatalogAccepted.BuiltCatalogIsValid | internal/control/service.go:628-634 | every built catalog has each entry under its own key and the selected one among them, with the signature asked for: what the hot switch relies on |
| CatalogContents.NodesExactly | internal/control/service.go:478-503 | the loop over the stored nodes uses exactly the valid ones, each under its own key and tag, and fails iff an invalid one was asked for |
| CatalogContents.MemberTagsExactly | internal/control/service.go:522-533 | the member tags of a pool are those of its stored members that are among the nodes, in order |
| CatalogContents.PoolsExactly | internal/control/service.go:505-556 | the loop over the pools uses exactly those with two known members, and fails iff another was asked for |
| CatalogContents.ChainsExactly | internal/control/service.go:558-627 | the loop over the chains uses exactly those it can, with the exit and entry nodes that are stored, and fails iff another was asked for |
| CatalogContents.CatalogExactly | internal/control/service.go:465-634 | a catalog holds every usable node, pool and chain under its own tag, signature and key, direct under the direct key only, and nothing else; it is built iff there is something to run and nothing unusable was asked for |
| CatalogContents.KeyIsEmitted | internal/control/service.go:465-657 | in the compiled configuration, the outbound under the tag of each key is that of exactly the stored node, pool or chain |
| CatalogContents.StartsAtTheRequestedTarget | internal/control/service.go:628-657 | the root selector of the compiled configuration starts at the outbound of exactly the stored target that was asked for, and at direct iff that was asked for |
| CatalogCompiles.CatalogCompilesExactly | internal/control/service.go:654-657 | for whatever is stored, the compiler accepts the targets of a built catalog iff all options normalise and all chain entry nodes validate; tags are never the reason, and every entry can then be selected |
| CatalogStarts.CollectChannels | internal/control/service.go:635-653 | the loop numbers the enabled channels by place and leaves out those whose node the catalog does not have |
| CatalogStarts.ChannelsExactly | internal/control/service.go:635-653 | the channel targets are exactly those of the channels whose node the catalog has, in order, each with the tag of its place, of its own node, and its own listener |
| CatalogStarts.ChannelsAcceptedExactly | internal/control/service.go:635-653 | the compiler accepts these channels iff the listener of each that is not left out can be built |
| CatalogStarts.WholeConfigCompilesExactly | internal/control/service.go:635-657 | for whatever is stored, the whole configuration compiles iff mode, controller and TUN profile are fine, all options normalise, all chain entry nodes validate and all listeners can be built; tags, references and the initial target are never the reason |
| RuntimeControlRuns.CatalogMatchesState | internal/control/service.go:252-424 | on every run the catalog is non-empty iff the recorded state is running, lists the running target, and has each entry under its own key |
| RuntimeControlRuns.WatcherFailsOnlyItsOwn | internal/control/service.go:856-905 | a watcher changes the record only of its own generation, and only when that core is dead |
| RuntimeControlRuns.RunningIsWatched | internal/control/service.go:359-373 | a running runtime always has its generation's watcher, and it is armed |
| RuntimeControlRuns.CrashIsReported | internal/control/service.go:856-905 | so a dead core is reported as failed, and the catalog dropped |
| RuntimeControlRuns.StoppedLeavesNoCore | internal/control/service.go:812-845 | when the service records that it is stopped and is idle, no core is alive |
| RuntimeControlRuns.HotSwitchKeepsTheCore | internal/control/service.go:388-424 | a hot switch moves within the same catalog and touches neither core, watchers, mode nor LAN setting |
| RuntimeControlRuns.HotSwitchServesTheRequest | internal/control/service.go:377-386 | after any run a hot switch is attempted iff a runtime with the mode and LAN setting asked for is recorded, its core runs, and its catalog has the target with its present signature |
| RuntimeControlRuns.RecordFollowsTheEvents | internal/control/service.go:218-424 | on every run the record shows the mode of the request that was applied last, the LAN setting of it or of a later change of the preference, its catalog while running, and the target chosen last in it, by the request or a hot switch; after a stop, no target and no mode |
| RuntimeControlRuns.StateFollowsTheEvents | internal/control/service.go:252-424 | after any run the state becomes running exactly by an apply, stopped by a stop, failed where an operation or the watcher of the current core gives up, and stays otherwise |

## Left out

- HTTP handlers, authentication, the React views and client, start-up wiring, environment and paths.
- Network and process calls (Clash API, DNS, subscription fetch, signals, system proxy): each is an outcome of the step that makes it.
- File contents, temporary files and fsync: each write succeeds or fails, with the code's roll-back.
- Parsing and printing of node links, URLs, regular expressions and CIDR text: the model starts from parsed values.
- Events, log lines, messages and view building.
- Rates as floating point: the traffic policy and the cache's totals round the exact quotient down; a link's rate is a real number.
- Integer widths, except in the backoff and the latency comparison of pool health; generations do not wrap.
- The jitter of the restart delay, and process ids that the system reuses.
- Hashes: node identities and ids of imported rules are taken to be injective.
- Idle pool health writes the literal tag "auto", which is not the url test's tag in a hot-switch catalog: a write of an idle pool is only stated to be that literal.
- Character classes of text beyond those the two languages agree on; case folding in rule text is modelled for the keywords only.
- RuntimeConfig.EmitChannels: the listener settings of a channel are one flag, `wellFormed`, and a text; building its inbound, and the errors of that, are not modelled.
- RuntimeConfig.BuildSelectableConfig: the listener settings, and the emitted JSON beyond inbound kinds, outbounds, rules and DNS, are not modelled.
- TrafficPolicy: the list of events, the connection count, the pool's name and the text of the last error.
- LinkCache: host, chain and node name of a link, `Query` with its filter and sort, and the group selections.
- Subscriptions: names, URLs, update intervals, ETags and the time of the last update; splitting and trimming of imported text, and reordering of subscriptions.
- Subscriptions.Manager.Create: the checks of name, URL and interval; the refresh that follows, and the deletion if it fails, are events of their own in StoreRuns.
- PoolMembers: the probe settings and the time of the last update of a pool, reordering of pools, and trimming of ids; members are sequences replaced as a whole, so writing into the shared backing array is not captured.
- RoutingRules: rule pools and the compiled form of a rule, and removing the rules of subscriptions that no longer exist at start-up.
- RuntimeCatalog.CollectPools: validating the probe URLs and resolving the pool are one flag, `usable`, and the health configuration is omitted.
- RuntimeCatalog.BuildRuntimeCatalog: names for the connection monitor, health configurations, display names and the controller's address and secret are omitted; resolving a pool or chain in its store, and its signature, are given.
- RuntimeControl.Service.HotSwitch: starting and restoring pool health around a switch is part of the outcome that decides whether the switch happens.
- Simple range checks in the DNS profile, chain and channel stores, beyond what the compiler relies on.

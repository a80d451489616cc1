# Verification of the Shroud VPN daemon

A Dafny model of the parts of Shroud that decide whether traffic is protected and
whether the daemon tells the truth about it, with proofs over all inputs and all runs:

- the VPN state machine, its reconciliation with NetworkManager and the health verdicts
  (`VpnTypes`, `StateMachine`, `StateMachineRuns`, `Reconnect`, `Supervisor`,
  `HealthChecker`);
- the hedged health probe as a protocol over a clock (`HealthProbe`);
- the D-Bus event deduplicator (`DedupCache`);
- the kill switch as a packet filter: address masking, rule blocks, the boot switch, the
  runtime switch and the cleanup (`Cidr`, `PacketFilter`, `RuleBlocks`, `ChainTeardown`,
  `BootKillSwitch`, `RuntimeKillSwitch`, `Cleanup`);
- the IPC connection (`LineFraming`, `IpcConnection`);
- log rotation and the nmcli parsers (`LogRotation`, `Text`, `NmcliParsing`).

Objects that change in place are classes. Each method is proved equal to a function on
values, and the theorems are about runs of those functions.

`dafny verify dfyconfig.toml` checks the whole project.

## How the outside world appears

- Time is a number: nanoseconds in the deduplicator, milliseconds in the probe.
- A probe's reply and its delay are inputs. A report that falls on the end of a head
  start may be seen on either side of it.
- A firewall table is a map from chain names to rule lists with first-match evaluation
  and jumps. Rules are values, not text. A missing binary makes every command fail.
- The cleanup's deadline is a budget of commands. The command it kills may have taken
  effect or not. Whether nft can delete its table is an input.
- NetworkManager's answers, the user's commands and a dropped or debounced request are
  inputs of a reconnect.
- The IPv4 and IPv6 binaries refuse destinations of the other family.
- JSON decoding, command validation and the supervisor's replies are arbitrary functions.
- 32-bit counters wrap as in a release build.
- The disk is a map from file numbers to contents. Reopening may fail at any write.

## Where the code and its documentation differ

The model follows the code.

- `docs/CONFIGURATION.md:120` promises endless retries for a limit of 0. With it every
  reconnect fails without an attempt (`ZeroIsNotEndless`).
- `src/state/machine.rs:33-44` says the attempt shown always equals the counter. The
  reconnect loop and the wake-up resync force states, and the claim then holds only
  under a condition (`ShownIffForced`, `ReconnectLoopDesync`, `WakeKeepsIff`). A
  reconnect that gives up can leave the counter short of the limit it reports
  (`ReconnectCountedIff`).
- `src/supervisor/state_sync.rs:57` says the answer means the state was corrected. It
  does not when the machine is up on another connection (`AnswerMeansChangedIff`). No
  health check is launched then (`StuckOnAnother`).
- A dead verdict has no rule in Connected, and clears the streak; what follows is up to
  the reconnect (`DeadTakesDownIff`).
- Localhost DNS mode writes an IPv6 address into the IPv4 script, so enabling fails on
  the iptables backend (`RuntimeRulesFamily`, `EnableIptables`).
- `docs/PRINCIPLES.md:31-37` promises that no firewall rules are orphaned. On IPv6 this
  holds under a condition (`LeaveNoTraceIff`, `UlaRuleOrphaned`).
- The boot switch removes ten old jumps, not all (`EnabledRepeatedly`).
- `src/killswitch/cleanup.rs:363-364` says an error is returned if rules remain. The
  final check looks at three of six places (`SuccessTrueIff`). The IPv6 rules placed in
  OUTPUT are not even deleted (`BlockOutlivesCleanup`).
- Enabling a boot switch that is on opens it twice: while its chain is refilled, and
  between the deletion of the old jump and the insertion of the new one
  (`EnableWindows`). Enabling the runtime switch over itself opens it once
  (`ReplaceWindow`).
- `src/nm/parsing.rs:41-44` describes names with plain colons. Terse mode escapes them,
  and the parsers do not undo that (`EscapedRoundTrip`).
- The subnet validators look at the base address only (`DetectedV4PrivateIff`,
  `DetectedV6LocalIff`).
- A finished IPC line may hold 65536 characters; one cut off by the end of the stream is
  refused at that length. Blank and undecodable lines count toward the limit of 100.

## Model

| member | source | states |
|---|---|---|
| `StateMachine.Transition` | fuzz/fuzz_targets/state_machine_common.rs:213-280 | For every machine and event with a rule, the reason reported tells which event met which kind of state and what resulted; a user disconnect has a rule in every state. |
| `StateMachine.StateMachine.constructor` | src/state/machine.rs:51-63 | A new machine is Disconnected with no retries used. |
| `StateMachine.StateMachine.HandleEvent` | src/state/machine.rs:79-105 | The in-place update has exactly the outcome of the value-level transition, about which the theorems below are stated. |
| `StateMachine.StateMachine.SetState` | src/state/machine.rs:114-122 | Forcing a state clears the counter only when the forced state is Disconnected. |
| `StateMachine.StateMachine.ComputeTransition` | src/state/transitions.rs:25-71 | Dispatch on the state, with the two rules that hold in every state. |
| `StateMachine.StateMachine.FromDisconnected` | src/state/transitions.rs:73-101 | Outcome and counter for every event in Disconnected. |
| `StateMachine.StateMachine.FromConnecting` | src/state/transitions.rs:103-171 | Outcome and counter for every event in Connecting. |
| `StateMachine.StateMachine.FailedAttempt` | src/state/transitions.rs:127-168 | A failed attempt either moves to the next one or gives up, with the counter raised modulo 2^32. |
| `StateMachine.StateMachine.FromConnected` | src/state/transitions.rs:173-212 | Outcome and counter for every event in Connected. |
| `StateMachine.StateMachine.FromDegraded` | src/state/transitions.rs:214-253 | Outcome and counter for every event in Degraded. |
| `StateMachine.StateMachine.FromReconnecting` | src/state/transitions.rs:255-303 | Outcome and counter for every event in Reconnecting. |
| `StateMachine.StateMachine.FromFailed` | src/state/transitions.rs:305-328 | Outcome and counter for every event in Failed. |
| `StateMachineRuns.RunKeepsConsistent` | src/state/transitions.rs:25-328 | Every run of events and forced disconnects keeps the invariant that ties counter, attempt, limit and state together. |
| `StateMachineRuns.ReachableIffConsistent` | fuzz/fuzz_targets/state_machine_common.rs:129-171 | The invariant is exact: a machine satisfies it if and only if some run from a fresh machine reaches it, for every limit. |
| `StateMachineRuns.CounterBounds` | fuzz/fuzz_targets/state_machine_common.rs:129-171 | The counter is at most max(limit, 2), a failed machine used at least max(1, limit) attempts and names a reason, and an increment never overflows 32 bits. |
| `StateMachineRuns.CountedIffFits` | src/state/machine.rs:79-122 | One step keeps the counter facts, which leave the reason of a failure open, exactly when it is an event or a forced state that fits the counter. |
| `StateMachineRuns.LinkRefines` | src/state/transitions.rs:25-328 | Whether and where the tunnel is up follows a small automaton that knows neither counter nor retry limit. |
| `StateMachineRuns.ServerShown` | src/state/transitions.rs:25-328 | Which server is on display after every event in every state, without the rules. |
| `StateMachineRuns.SameLinkForAllLimits` | fuzz/fuzz_targets/fuzz_state_machine_differential.rs:20-57 | Two machines with any two retry limits agree on the link after every step of every run. |
| `StateMachineRuns.BudgetClosedForm` | src/state/transitions.rs:103-303 | However timeouts are interleaved with steps the machine ignores when it meets them, their number alone decides the machine, and it gives up at a fixed timeout, neither earlier nor later. |
| `StateMachineRuns.ConnectBudget` | src/state/machine.rs:673-711 | A connect fails if and only if max(1, limit) timeouts have passed. |
| `StateMachineRuns.DropBudget` | src/state/transitions.rs:173-303 | A dropped tunnel fails if and only if max(1, limit - 1) timeouts have passed. |
| `StateMachineRuns.DisconnectForgets` | src/state/machine.rs:107-122 | After a disable or a forced Disconnected every later run is that of a fresh machine. |
| `StateMachineRuns.ShownIffForced` | src/state/machine.rs:33-44 | Over every run the attempt on display equals the counter after every step, exactly when each forced Reconnecting carried the counter. |
| `StateMachineRuns.WakeKeepsIff` | src/supervisor/handlers/nm.rs:218-246 | Over every run of events and wake-up resyncs the invariant holds throughout, exactly when each resync to a connecting or connected state came with the counter at 0. |
| `StateMachineRuns.WakeCyclesUnbounded` | src/supervisor/handlers/nm.rs:218-246 | Otherwise the counter has no bound: resyncs to Connecting, each followed by a failure report, take it to every 32-bit value. |
| `Reconnect.ReconnectEnds` | src/supervisor/reconnect.rs:100-322 | Whatever NetworkManager answers and the user does, every reconnect, from every machine, ends in a machine given in closed form by the first decisive attempt. |
| `Reconnect.ReconnectGuards` | src/supervisor/reconnect.rs:100-155 | What a reconnect that does not start its loop does: nothing, follow what is active, or give a missing connection up. |
| `Reconnect.LoopByEvent` | src/supervisor/reconnect.rs:161-303 | The machine a reconnect ends in, read off the answers at the first attempt at which anything happens. |
| `Reconnect.LoopWithoutEvent` | src/supervisor/reconnect.rs:305-317 | If at no attempt anything happens, the machine is Failed with its old counter. |
| `Reconnect.LoopEndsIff` | src/supervisor/reconnect.rs:161-317 | Exactly when a reconnect reaches the server, is left by the user, finds something active, or gives up, in terms of what NetworkManager answered and the user did. |
| `Reconnect.ExhaustedIff` | src/supervisor/reconnect.rs:100-322 | A reconnect gives up exactly when nothing stops it beforehand and no attempt up to the limit decides. |
| `Reconnect.ReconnectCountedIff` | src/supervisor/reconnect.rs:311-317 | A reconnect keeps the counter facts exactly when it does not give up, or gives up with the counter already at the limit it reports. |
| `Reconnect.ReconnectConsistentIff` | src/supervisor/reconnect.rs:311-317 | A reconnect leaves a machine that plain events can reach exactly when it does not give up; the reason it gives is its own. |
| `Reconnect.ExhaustedCounter` | src/supervisor/reconnect.rs:311-317 | Giving up leaves the counter where it was, whatever number of attempts is reported. |
| `Reconnect.AttemptsBounded` | src/supervisor/reconnect.rs:161-199 | At most as many attempts as the limit are made, and exactly that many before giving up. |
| `Reconnect.ZeroIsNotEndless` | docs/CONFIGURATION.md:120 | With a limit of 0 every reconnect that has work to do fails without a single attempt, against the guide; with another limit only after all its attempts failed. |
| `Reconnect.ReconnectLoopDesync` | src/supervisor/reconnect.rs:161-199 | Through a reconnect the attempt on display equals the counter exactly when no attempt was made, or only the first one, with the counter at 1. |
| `Supervisor.VpnSupervisor.Dispatch` | src/supervisor/state_sync.rs:19-42 | Machine, checker, remembered server and shared copy after one event; the checker is reset whenever the result is Connected. |
| `Supervisor.VpnSupervisor.SyncSharedState` | src/supervisor/state_sync.rs:46-49 | The shared copy equals the state afterwards. |
| `Supervisor.VpnSupervisor.SyncStateFromNm` | src/supervisor/state_sync.rs:59-172 | All fields after reconciling with the active connection, and the answer. |
| `Supervisor.SyncWithoutVpn` | src/supervisor/state_sync.rs:66-172 | With nothing active a sync gives a fresh machine exactly when the machine was up, or connecting with reconnecting off, and otherwise changes nothing; it is never up afterwards. |
| `Supervisor.SyncConvergesIff` | src/supervisor/state_sync.rs:59-172 | A sync ends up on the active connection exactly when the machine was not connecting and not up on another one. |
| `Supervisor.SecondSyncQuietIff` | src/supervisor/state_sync.rs:59-172 | A repeated sync is quiet exactly when the machine was not up on another connection. |
| `Supervisor.AnswerMeansChangedIff` | src/supervisor/state_sync.rs:57-58 | The answer tells whether the machine changed, exactly when it was not up on another connection. |
| `Supervisor.StuckOnAnother` | src/supervisor/state_sync.rs:93-144 | Up on another connection, any number of syncs changes nothing and each claims a correction. |
| `Supervisor.VpnSupervisor.BeginHealthCheck` | src/supervisor/handlers/health.rs:22-51 | A probe is launched exactly when the machine is up on the active connection and checks are not suspended. |
| `Supervisor.VpnSupervisor.ShouldAttemptReconnect` | src/supervisor/reconnect.rs:29-66 | The answer, and that the machine follows whatever is active. |
| `Supervisor.VpnSupervisor.TryOnce` | src/supervisor/reconnect.rs:161-303 | One attempt takes exactly the steps its surroundings dictate, and says whether the loop ends. |
| `Supervisor.VpnSupervisor.AttemptReconnect` | src/supervisor/reconnect.rs:70-324 | Machine, counters, remembered server, shared copy and flag after a whole reconnect. |
| `Supervisor.VpnSupervisor.FinishHealthCheck` | src/supervisor/handlers/health.rs:56-121 | Machine, counters and remembered server after a completed probe, with the reconnect a dead one sets off. |
| `Supervisor.VerdictShows` | src/supervisor/handlers/health.rs:71-113 | A healthy or degraded verdict is what the machine shows afterwards for the same server; a dead one with reconnecting off gives a fresh machine. |
| `Supervisor.DeadTakesDownIff` | src/supervisor/handlers/health.rs:78-121 | A dead verdict, with its reconnect, leaves the machine down exactly when reconnecting is off, the user left, all attempts failed, or nothing was tried and the machine was degraded; from Connected the streak is forgotten. |
| `Supervisor.MissStreak` | src/supervisor/handlers/health.rs:56-121 | For every threshold: from Connected the first miss degrades, and miss number max(1, failure_threshold), not an earlier one, sets off the reconnect, whose end is given. |
| `Supervisor.VpnSupervisor.HandleVpnFailed` | src/supervisor/handlers/mod.rs:187-208 | Machine, counters and remembered server after a failure report, with the reconnect or the forced Failed. |
| `Supervisor.VpnSupervisor.ForceStateResync` | src/supervisor/handlers/nm.rs:218-257 | Machine and shared copy after a wake-up resync. |
| `Supervisor.ForcedShows` | src/supervisor/handlers/nm.rs:218-246 | What a failure report with reconnecting off, and each finding of a wake-up, show, and that the counter stays. |
| `Supervisor.MixedRunsCountedIff` | src/supervisor/state_sync.rs:19-172 | Over every run of events, syncs, probes, failure reports, reconnects and wake-ups the counter fits the state after every input, exactly when no reconnect gives up short of the limit it reports, no failure is shown short of it or without a reason, and no wake-up finds a connection while the counter is not 0. |
| `Supervisor.MixedRunsConsistentIff` | src/supervisor/state_sync.rs:19-172 | The same for machines that plain events can reach: here also every reconnect that gives up departs, by its reason. |
| `HealthChecker.HealthChecker.Reset` | src/health/checker.rs:161-165 | Both counters are cleared. |
| `HealthChecker.HealthChecker.Suspend` | src/health/checker.rs:172-177 | The suspension lasts for the given time; the counters are kept. |
| `HealthChecker.HealthChecker.Evaluate` | src/health/checker.rs:234-328 | Counters and verdict for every combination of hit, leak check and expected address. |
| `HealthChecker.CountersMeaning` | src/health/checker.rs:234-328 | Over every history since a reset, one counter is the trailing run of misses and the other the number of slow or missed probes since the last good one, modulo 2^32. |
| `HealthChecker.SeenMeaning` | src/health/checker.rs:234-328 | The same in terms of what the observations hold: hits, addresses, leaks and latencies. |
| `HealthChecker.DeadIff` | src/health/checker.rs:234-328 | Over every history of observations, dead exactly when a hit shows another address than the configured one, or there is no hit and the observations without one, counted modulo 2^32, reach the threshold. |
| `HealthChecker.HealthyIff` | src/health/checker.rs:234-328 | Healthy exactly when a hit shows neither another address nor a leak that is looked for, and is fast, or slow while the slow streak is short. |
| `HealthChecker.DegradedShows` | src/health/checker.rs:234-328 | A degraded verdict carries the latency of the hit, or the timeout if there was none. |
| `HealthChecker.ProbesAreSerial` | src/supervisor/event_loop.rs:323-340 | Over every interleaving of ticks, completions and receptions at most one probe is running or queued, and results are applied in launch order. |
| `HealthProbe.RunProbe` | src/health/checker.rs:344-405 | Under every schedule: terminates; launches a prefix of the preference order; starts an endpoint before the full head start only for a failure reported just then, each for another one, and never later than a report due in it; no hit exactly when all were tried and failed, and then at the last report; a hit is the earliest success of all launched, with the content of its reply; a prompt first endpoint is the only one contacted; the round ends within (n-1) head starts plus one timeout. |
| `HealthProbe.LaunchTurn` | src/health/checker.rs:358-381 | One launch now, and one head start that lasts its full time unless a report ends it. |
| `HealthProbe.DrainTurn` | src/health/checker.rs:382-395 | One report after the last launch: keeps the round invariant and ends on a success. |
| `DedupCache.NmMonitor.ShouldProcessEvent` | src/dbus/monitor.rs:73-111 | Decision and cache after one signal. |
| `DedupCache.CacheRepresents` | src/dbus/monitor.rs:73-111 | After every history each entry is the last accepted signal with its key, and what was forgotten was a whole cleanup period old. |
| `DedupCache.SweepingIsInvisible` | src/dbus/monitor.rs:73-111 | Over every chronological history the swept cache accepts exactly what a reference that never forgets accepts. |
| `DedupCache.AcceptedAreSpaced` | src/dbus/monitor.rs:19-21 | Accepted signals with one key are at least 500 ms apart. |
| `DedupCache.DroppedAreCovered` | src/dbus/monitor.rs:79-92 | Every dropped named signal follows an accepted equal one by less than 500 ms. |
| `DedupCache.UnknownIsDropped` | src/dbus/monitor.rs:74-78 | A signal without a known name is never accepted. |
| `DedupCache.SweepWhenDue` | src/dbus/monitor.rs:93-108 | A crowded cache, or one not swept for 1000 ms, keeps only entries of the last 1000 ms. |
| `DedupCache.EntriesAreRecent` | src/dbus/monitor.rs:93-110 | Right after an accepted signal no entry is 2000 ms old. |
| `DedupCache.CacheSizeBound` | src/dbus/monitor.rs:22-26 | Right after an accepted signal the cache is no larger than the number of signals accepted in the last 2000 ms. |
| `Cidr.MaskedIsNetwork` | src/killswitch/rules.rs:126-132 | Shift-and-mask in a register of any width equals dropping the host bits. |
| `Cidr.MaskIpv6IsMasked` | src/killswitch/rules.rs:257-268 | The IPv6 routine with its special case for prefix 0 is the same masking. |
| `Cidr.MaskKeepsNetwork` | src/killswitch/rules.rs:126-132 | The masked address is in the same network and is not larger. |
| `Cidr.NestedMasks` | src/killswitch/rules.rs:126-132 | Masking twice is masking to the shorter prefix; in particular masking is idempotent. |
| `Cidr.AcceptedV4Iff` | src/killswitch/rules.rs:22-33 | An IPv4 subnet is accepted exactly when its prefix is 8 to 32 and its base address lies in 10.0.0.0/8, 172.16.0.0/12, 192.168.0.0/16 or 169.254.0.0/16. |
| `Cidr.AcceptedV4PrivateIff` | src/killswitch/rules.rs:22-33 | An accepted IPv4 subnet holds only private and link-local addresses exactly when it is at least as long as the range of its base address. |
| `Cidr.DetectedV4PrivateIff` | src/killswitch/rules.rs:126-147 | For masked subnets the exceptions are exactly 192.168.0.0 with prefix 13 to 15 and 169.254.0.0/15. |
| `Cidr.WideLanAccepted` | src/killswitch/rules.rs:22-33 | 192.168.0.0/13 is accepted, masked, and not private throughout. |
| `Cidr.OctetTests` | src/killswitch/rules.rs:42-63 | The two bitwise octet tests mean fixed leading bits. |
| `Cidr.UlaStaysUla` | src/killswitch/rules.rs:42-63 | An accepted unique-local subnet stays within fc00::/7. |
| `Cidr.AcceptedV6Iff` | src/killswitch/rules.rs:42-63 | An IPv6 subnet is accepted exactly when its prefix is 7 to 128 and its base address lies in fc00::/7 or fe80::/10. |
| `Cidr.AcceptedV6LocalIff` | src/killswitch/rules.rs:42-63 | An accepted IPv6 subnet stays local exactly when it is unique-local or its prefix is at least 10. |
| `Cidr.DetectedV6LocalIff` | src/killswitch/rules.rs:234-241 | For masked subnets the only exception is fe80::/9. |
| `Cidr.WideLinkLocalAccepted` | src/killswitch/rules.rs:42-63 | fe80::/9 is accepted, masked, and not local throughout. |
| `PacketFilter.Netfilter.Execute` | src/killswitch/boot.rs:198-217 | A command succeeds exactly when the binary is there, takes its address family, and the table admits it; a failed one changes nothing. |
| `PacketFilter.Netfilter.DeleteAll` | src/killswitch/boot.rs:52-57 | The bounded delete loop removes the first copies of a rule, up to the bound. |
| `PacketFilter.RemoveUpToFacts` | src/killswitch/boot.rs:52-57 | Bounded deletion leaves every other rule in order and exactly the copies beyond the bound. |
| `RuleBlocks.BuildDnsTunnelRules` | src/killswitch/rules.rs:412-434 | The loop over the tunnel prefixes builds exactly the block whose verdict is proved. |
| `RuleBlocks.DnsTunnelVerdict` | src/killswitch/rules.rs:412-434 | The block accepts port 53 on tunnels, drops other port 53 and all of tcp/853, and passes the rest on. |
| `RuleBlocks.DnsTunnelInContext` | src/killswitch/rules.rs:412-434 | The same inside any chain, for every packet that reaches the block. |
| `RuleBlocks.LanVerdict` | src/killswitch/rules.rs:271-276 | The LAN block accepts exactly the packets bound for a listed subnet. |
| `RuleBlocks.BuildLanRestrictedRules` | src/killswitch/rules.rs:279-323 | The loop builds exactly the block whose verdict is proved. |
| `RuleBlocks.RestrictedVerdict` | src/killswitch/rules.rs:279-323 | The restricted block accepts exactly the eight LAN services to a listed subnet. |
| `RuleBlocks.RestrictingLan` | src/killswitch/rules.rs:271-323 | In any chain, restricting the LAN block never adds an accepted packet and takes away exactly the LAN packets of other services that nothing later accepts. |
| `ChainTeardown.TeardownSteps` | src/killswitch/boot.rs:52-72 | Delete loop, flush and chain deletion together have one closed-form effect on the whole table. |
| `ChainTeardown.TornDownClean` | src/killswitch/boot.rs:52-72 | Without other references the chain and its jumps are gone and everything else is as it was. |
| `ChainTeardown.SurvivesIff` | src/killswitch/boot.rs:52-72 | The chain survives exactly when too many jumps or another reference kept it. |
| `ChainTeardown.TornDownTwiceIff` | src/killswitch/boot.rs:52-72 | A second teardown changes nothing exactly when the bound of the first was enough for the jumps. |
| `BootKillSwitch.CreateBootChain` | src/killswitch/boot.rs:83-97 | The chain exists and is empty afterwards, whether it existed before or not. |
| `BootKillSwitch.AddBootRulesV4` | src/killswitch/boot.rs:99-156 | The chain is extended by the boot rules, with one rule per validated subnet. |
| `BootKillSwitch.AddBootRulesV6` | src/killswitch/boot.rs:99-156 | The same for IPv6. |
| `BootKillSwitch.InsertBootChainJump` | src/killswitch/boot.rs:158-176 | Up to ten old jumps are replaced by one in front. |
| `BootKillSwitch.EnableBootKillswitch` | src/killswitch/boot.rs:29-38 | Both tables after enabling; without the IPv4 binary nothing is touched. |
| `BootKillSwitch.DisableBootKillswitch` | src/killswitch/boot.rs:50-75 | Both tables after disabling. |
| `BootKillSwitch.EnabledRepeatedly` | src/killswitch/boot.rs:29-38 | After n enables the jump is first, the rules are there once, other rules keep their order, and 1 + max(0, j - 1 - 9n) of j old jumps are left. |
| `BootKillSwitch.SingleJumpIff` | src/killswitch/boot.rs:158-176 | Enabling leaves one jump exactly when at most ten were there. |
| `BootKillSwitch.RepeatedIsOnce` | src/killswitch/boot.rs:29-38 | From at most ten jumps, enabling n times is enabling once. |
| `BootKillSwitch.DisableUndoesEnable` | src/killswitch/boot.rs:50-75 | Disabling after n enables removes the chain exactly when at most 100 + 9n jumps were there, and then restores all other rules. |
| `BootKillSwitch.BootRoundTrip` | src/killswitch/boot.rs:29-75 | On a table that never had the boot chain, any number of enables and one disable is the identity. |
| `BootKillSwitch.BootOutputVerdictV4` | src/killswitch/boot.rs:99-176 | With the switch on, whatever else OUTPUT holds, an IPv4 packet leaves exactly if it is loopback, established, DHCP or bound for a detected subnet of prefix 8 to 32 in one of the four private ranges. |
| `BootKillSwitch.BootOutputVerdictV6` | src/killswitch/boot.rs:99-176 | The same for IPv6: loopback, established, or an address that starts with the ten link-local bits if LAN is allowed. |
| `BootKillSwitch.BootStageIs` | src/killswitch/boot.rs:29-38 | The table after every prefix of the commands of an enable; the last is the switch on. |
| `BootKillSwitch.EnableStages` | src/killswitch/boot.rs:83-176 | On every table, whatever jumps it holds: how each stage of an enable treats a packet the switch must stop. |
| `BootKillSwitch.EnableWindows` | src/killswitch/boot.rs:83-176 | Enabling a switch that is on: at every stage such a packet meets the rest of OUTPUT exactly when the drop rule is not back or no jump is there, and is dropped otherwise. |
| `RuntimeKillSwitch.RuntimeChainVerdict` | src/killswitch/firewall/builder.rs:34-295 | For every configuration whose chain can be built and every packet the chain decides: accepted exactly as a predicate on the packet says, dropped otherwise. |
| `RuntimeKillSwitch.RuntimeRulesFamily` | src/killswitch/firewall/builder.rs:202-243 | The chain holds a rule that the IPv4 binary refuses exactly in localhost DNS mode. |
| `RuntimeKillSwitch.StageIs` | src/killswitch/firewall/builder.rs:34-151 | The table after every prefix of the script, and that each next command succeeds. |
| `RuntimeKillSwitch.NoHalfBuiltChain` | src/killswitch/firewall/builder.rs:137-142 | At every stage the script reaches each packet is treated as before or as by the finished switch; the change happens in the last command, which localhost mode never reaches. |
| `RuntimeKillSwitch.ReplaceWindow` | src/killswitch/firewall/mod.rs:414-417 | Enabling over a switch that is on: between the first command of the cleanup and the last of the script, which localhost mode never reaches, every packet is treated as if there were no switch. |
| `RuntimeKillSwitch.InsertedInFront` | src/killswitch/firewall/ip6tables.rs:32-96 | Inserting at rising positions puts the IPv6 block in front of OUTPUT, in order, at every stage. |
| `RuntimeKillSwitch.NoHalfBuiltV6` | src/killswitch/firewall/ip6tables.rs:32-96 | At every stage of the IPv6 insertion a packet is treated as before or as by the finished block. |
| `RuntimeKillSwitch.Ipv6Verdict` | src/killswitch/firewall/ip6tables.rs:32-96 | Exactly which IPv6 packets leave, in each mode, whatever OUTPUT held. |
| `RuntimeKillSwitch.RunScript` | src/killswitch/firewall/iptables.rs:27-151 | The script stops at its first failing command; the table is the one after the commands before it. |
| `RuntimeKillSwitch.ScriptOutcome` | src/killswitch/firewall/iptables.rs:27-151 | The script does all of its work, stops at the first rule of the wrong family, or does nothing if the chain already exists, and the table it leaves. |
| `RuntimeKillSwitch.RobustIptablesCleanup` | src/killswitch/firewall/chains.rs:30-115 | Both tables after the cleanup. |
| `RuntimeKillSwitch.EnableIptables` | src/killswitch/firewall/mod.rs:394-495 | Success exactly when the binary is there, the chain does not survive the cleanup and the DNS mode is not localhost; a failure leaves the effect of the cleanup only, in both tables. |
| `RuntimeKillSwitch.RoundTripV4` | src/killswitch/firewall/mod.rs:565-614 | On IPv4, enabling and disabling restores the table. |
| `RuntimeKillSwitch.OnAndOffV6Leaves` | src/killswitch/firewall/chains.rs:30-115 | Enabling and disabling leaves all rules but the five patterns, with the orphans in front, exactly when no pattern has more copies than two cleanups delete. |
| `RuntimeKillSwitch.LeaveNoTraceIff` | docs/PRINCIPLES.md:31-37 | On IPv6, nothing is left behind or lost exactly when OUTPUT held none of the five patterns and tunnel mode detected no subnet but fe80::/10. |
| `RuntimeKillSwitch.UlaRuleOrphaned` | src/killswitch/firewall/ip6tables.rs:104-119 | One detected fd00::/8 interface, besides fe80::/10, leaves its accept rule behind. |
| `Cleanup.RunTimed` | src/killswitch/cleanup.rs:102-135 | A command that overruns the deadline is reported so, whether or not it took effect before it was killed. |
| `Cleanup.RemoveJumps` | src/killswitch/cleanup.rs:142-167 | The delete loop of one chain in one table, the exact number of commands it takes, and that only Shroud rules are gone even if it is cut short. |
| `Cleanup.RunCleanupCommand` | src/killswitch/cleanup.rs:137-216 | Wherever the deadline strikes, only Shroud chains, their rules and the plain jumps to them are gone, and for both chains in both tables and the nftables table it is stated from the start whether they are clear. |
| `Cleanup.CleanupAll` | src/killswitch/cleanup.rs:365-409 | Whether success is reported and whether all six places are clear, from the starting tables, the binaries and the deadline. |
| `Cleanup.MainChainSurvivesIff` | src/killswitch/cleanup.rs:137-216 | The main chain survives a complete cleanup exactly when over 100 jumps or another reference held it. |
| `Cleanup.BootChainSurvivesIff` | src/killswitch/cleanup.rs:137-216 | The same for the boot chain, where references from the main chain do not count. |
| `Cleanup.CleanupComplete` | src/killswitch/cleanup.rs:137-216 | If both chains are removable, both and all jumps to them are gone and every other rule is there, in order. |
| `Cleanup.CleanupIdempotent` | src/killswitch/cleanup.rs:365-409 | If both chains are removable, a second cleanup changes nothing. |
| `Cleanup.SuccessTrueIff` | src/killswitch/cleanup.rs:363-398 | A reported success is true of all six places exactly when something the check sees is left, or nothing it does not see is: the IPv6 boot chain, the IPv6 rules placed in OUTPUT, the nftables table, and whatever belongs to a missing binary. |
| `Cleanup.SuccessMissesV6Boot` | src/killswitch/cleanup.rs:374-398 | However long it may take, a referenced IPv6 boot chain stays and success is reported. |
| `Cleanup.SuccessMissesNft` | src/killswitch/cleanup.rs:197-208 | A deadline that strikes before the nft command leaves the nftables switch on, and success is reported. |
| `Cleanup.BlockOutlivesCleanup` | src/killswitch/cleanup.rs:142-195 | The IPv6 rules of the runtime switch outlive every complete cleanup: exactly the packets the switch allows leave afterwards. |
| `Cleanup.SuccessMissesBlock` | src/killswitch/cleanup.rs:363-398 | After a crash in block mode every cleanup reports success while every IPv6 packet not on loopback is still dropped. |
| `LineFraming.LineReader.ReadLine` | src/ipc/server.rs:264-271 | The bounded read ends at the first newline or the limit. |
| `LineFraming.LineReader.NextFrame` | src/ipc/server.rs:264-285 | One read, and a drain if needed, consume exactly one line of the stream and deliver it whole or as too long. |
| `LineFraming.SplitOfPrint` | src/ipc/server.rs:259-285 | Splitting inverts sending: exactly the lines that were sent are found. |
| `LineFraming.PrintOfSplit` | src/ipc/server.rs:259-285 | Every stream is the printout of its split. |
| `LineFraming.FitsIff` | src/ipc/server.rs:262-273 | A finished line is delivered whole exactly up to 65536 characters, one cut off by the end of the stream up to one less. |
| `IpcConnection.Answer` | src/ipc/server.rs:349-405 | Queries are answered from the snapshot; everything else is handed on at most once and answered once. |
| `IpcConnection.HandleConnection` | src/ipc/server.rs:240-410 | Over every stream the loop says and hands on what serving the plain newline split gives. |
| `IpcConnection.SeesEveryLine` | src/ipc/server.rs:259-285 | The loop sees each line the client sent once and in order. |
| `IpcConnection.OneAnswerPerLine` | src/ipc/server.rs:264-407 | Exactly one answer per line that is not blank while the connection is open, and given answers stay. |
| `IpcConnection.ConnectionSafety` | src/ipc/server.rs:287-348 | At most 100 commands reach the supervisor, all valid; a version mismatch ends the connection with none handed on; it closes on that or on the 101st line and on nothing else. |
| `IpcConnection.ForwardedExactly` | src/ipc/server.rs:287-405 | The supervisor gets exactly the valid commands before the closing line that are neither queries nor the opening greeting and find its channel open, once each and in order; the closing line is the first that is the 101st or a greeting in another version. |
| `IpcConnection.RepliesExactly` | src/ipc/server.rs:366-402 | On every stream the replies, dropped responses and timeouts the client hears are, in order and one for one, what the supervisor made of the commands handed to it. |
| `IpcConnection.AnswersExactly` | src/ipc/server.rs:272-402 | On every stream the answers fit the lines that call for one, in order: too long, not decodable, not valid, a query, the greeting, or relayed; then at most one that closes the connection. |
| `IpcConnection.OverlongTransparent` | src/ipc/server.rs:272-285 | Removing all over-long lines from a stream changes nothing but their own error answers. |
| `LogRotation.RotatingWriter.constructor` | src/logging.rs:101-125 | The writer opens on the existing log with the right count. |
| `LogRotation.Opened` | src/logging.rs:101-125 | Opening keeps every existing file as it is and adds only a missing log. |
| `LogRotation.RotatingWriter.RotateFiles` | src/logging.rs:127-159 | The disk after the rename loop and the reopening, successful or not. |
| `LogRotation.RotatingWriter.WriteInner` | src/logging.rs:161-168 | The disk and count after one write, rotation included. |
| `LogRotation.RotateKeepsSuffix` | src/logging.rs:127-159 | A rotation keeps exactly the three younger files, and the oldest if none replaces it. |
| `LogRotation.LogIsSuffixOfHistory` | src/logging.rs:127-168 | After any writes, however often reopening fails, the files from oldest to youngest are a suffix of everything written. |
| `LogRotation.DiskUseBounded` | src/logging.rs:24-26 | With writes and files below the limit, disk use stays below four full files. |
| `LogRotation.HistoryKept` | src/logging.rs:127-168 | After three rotations at least two full files of history are always kept. |
| `NmcliParsing.ParseActiveVpns` | src/nm/parsing.rs:45-68 | The loop gathers the VPN of each line, in order. |
| `NmcliParsing.ActiveVpnsRoundTrip` | src/nm/parsing.rs:41-68 | Parsing printed connections recovers exactly the VPNs with a known state, in order, colons in names included. |
| `NmcliParsing.EscapedRoundTrip` | src/nm/client.rs:81-93 | Of a listing escaped as terse mode does by default each name is recovered as escaped, which is the name exactly when it holds neither colon nor backslash. |
| `NmcliParsing.ParseVpnUuid` | src/nm/parsing.rs:90-101 | The loop stops at the first matching line. |
| `NmcliParsing.UuidRoundTrip` | src/nm/parsing.rs:85-101 | On printed profiles the UUID is that of the first VPN profile with exactly this name, and absent if and only if there is none. |
| `NmcliParsing.EndpointRoundTrip` | src/nm/parsing.rs:130-167 | The host is recovered from every printed endpoint: bracketed, named or bare IPv6, with or without a port. |
| `NmcliParsing.EndpointPadded` | src/nm/parsing.rs:141-142 | White space around an endpoint does not matter. |
| `NmcliParsing.PortCutIff` | src/nm/parsing.rs:154-163 | After a name exactly the numbers below 65536 are cut off as a port. |
| `NmcliParsing.OpenBracket` | src/nm/parsing.rs:145-151 | After a bracket that is never closed everything is the host. |
| `NmcliParsing.ParseWireguardEndpoints` | src/nm/parsing.rs:173-209 | The nested loops gather the hosts of all peers, each classified as an address or a name. |
| `NmcliParsing.EmptyEndpoint` | src/nm/parsing.rs:199-206 | An endpoint attribute without a host gives no endpoint. |
| `NmcliParsing.WireguardRoundTrip` | src/nm/parsing.rs:178-209 | Parsing a printed peer list recovers every endpoint host in order, with other attributes in any order and peers without an endpoint. |

## Left out

- RuntimeKillSwitch.RuntimeChainVerdict: leaves out localhost DNS mode, in which `EnableIptables` shows that the chain is never built.
- RuntimeKillSwitch.NoHalfBuiltV6: asks that no rule jumps to OUTPUT, which the kernel refuses.
- RuntimeKillSwitch.EnableIptables: asks that jumps lead to existing chains, as the kernel insists, and stops at the failure that may lead on to the nftables backend.
- RuntimeKillSwitch.LeaveNoTraceIff: asks for distinct detected subnets, as detection returns them.
- BootKillSwitch.BootOutputVerdictV4: asks that the detected subnets have 32-bit addresses, as parsed IPv4 addresses do.
- BootKillSwitch.EnableStages: asks that nothing but plain jumps in OUTPUT leads to the boot chain, and nothing to OUTPUT.
- Cleanup.BlockOutlivesCleanup: stated for a complete cleanup; for one cut short `CleanupAll` says that the rules are there.
- Supervisor.VpnSupervisor.AttemptReconnect: commands deferred until after the reconnect are not processed.
- Supervisor.VpnSupervisor.TryOnce: leaves out the check of the cancellation flag, which the reconnect itself clears and nothing sets while it runs.
- Supervisor.VpnSupervisor.HandleVpnFailed: the grace periods that ignore a report are not modelled.
- Cidr.AcceptedV4Iff: asks for an address of 32 bits.
- Cidr.AcceptedV6Iff: asks for an address of 128 bits.
- NmcliParsing.EndpointRoundTrip: bare IPv6 addresses need two colons, as all IPv6 literals have.
- Cidr.MaskedIsNetwork: prefixes longer than the address, where the source would shift out of range, are not modelled.
- LogRotation.RotatingWriter.RotateFiles: renames fail only for a missing source, and writes do not fail.
- Cleanup.RunCleanupCommand: a sudo that cannot be started at all is not modelled.
- LineFraming.LineReader.ReadLine: characters are single bytes; invalid UTF-8 is not modelled.
- The nftables backend: a second rendering of the same rules.
- The toggle cooldown and backend selection of the kill switch: flags without a run property.
- `parse_vpn_connections`, `parse_openvpn_endpoints` and `select_best_vpn`: same shape as the parsers above, or one expression.
- Parsing of addresses, JSON and TOML, exit-address extraction and resolver files: taken as inputs.
- Reading interfaces in `detect_local_subnets`: subnets are inputs; masking and validation are modelled.
- Debug-build overflow panics: wrapping is modelled.
- Connect and switch handlers, tray, notifications, CLI, configuration and daemon lock: user interface or operating system behaviour.
- Backoff delays, jitter, log texts and display strings.

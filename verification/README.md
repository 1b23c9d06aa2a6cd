# kube-nat: the Lease protocol and the routes it gates, verified

kube-nat runs a NAT agent in every availability zone (AZ). One Kubernetes Lease per AZ says which agent may
point that AZ's route tables at its own instance; agents of other AZs stand in while a Lease is absent or
expired, and yield when the owner comes back. This project models that protocol and the stateful code around
it in Dafny, and proves what it promises.

`dafny verify dfyconfig.toml` checks everything.

## How it is organised

| file | models |
|---|---|
| `Leases.dfy`, `LeaseCalls.dfy` | the Lease record; `Renew`, `Acquire` and `Release` as automata that send the API server one request at a time; the server's compare-and-set |
| `LeaseVerdicts.dfy` | the exact reasons for each verdict of these calls, retries included, and what they write |
| `LeaseManager.dfy` | the same three calls as methods with their loops, against a server whose other clients do as they like; each run is shown to be a run of the automaton |
| `Protocol.dfy` | the transition system: any number of agents, several per AZ, their calls interleaved request by request with clock steps, discoveries, route writes, crashes, releases and manual claims |
| `Safety.dfy`, `Stabilisation.dfy`, `Handover.dfy` | what holds in every run of it: who holds a Lease and for how long, that the routes of an AZ settle, and that a released AZ passes to its standby |
| `LateWrite.dfy` | exactly which claims exclude each other, with a run for each way in which others do not |
| `RenewInterval.dfy` | the renewal interval in whole nanoseconds, which the timing rests on |
| `Ec2.dfy`, `Reconciler.dfy`, `AgentLoops.dfy` | the account's route tables, the reconciler's books, and the bodies of the agent's lease and reconcile loops |
| `ClaimRuns.dfy` | the claim loops of the reconciler and of a takeover, over the account, are runs of the protocol's discovery and claim steps |
| `Peer.dfy`, `Wire.dfy` | the heartbeat's failure counting, and its nine-byte frames |
| `Forward.dfy` | the placement of the stale flow reset rule in the FORWARD chain |
| `Collector.dfy` | the dashboard's change detection over scrapes |

The three Lease calls exist once, as `LeaseCalls.RequestOf` and `LeaseCalls.React`. `Protocol` interleaves them,
and the methods of `LeaseManager.Manager` end in `Completed`, which says that their requests and responses were
a conversation of that automaton; so facts about conversations (`VerdictIsHonest`, `ChangesAreLicensed`) hold at
both levels. Likewise `ClaimRuns.ClaimEachIsARun` and `ClaimRuns.ClaimAllIsARun` join the claim loops of `Reconciler`
and `AgentLoops` over the tables of `Ec2` to the steps and routes of `Protocol`.

A remote request is answered as it should (`Calm`), or fails before (`Lost`) or after (`Applied`) it took effect.
Scripts of such faults, and of what other clients do in between, are arbitrary inputs. An empty script means that
nothing interferes; only the statements about progress use that.

## Assumptions

- Holder identities are unique, and every agent has a non-empty home AZ. Where an agent has none, `Leases` and
  `LeaseManager` follow the code (it leaves the label alone); `Protocol` excludes it.
- Each route table carries one AZ tag for good, and route table IDs are distinct.
- One clock, which does not run back, is read by every agent. The `lag` of the timing theorems bounds the age of
  the renew time that a commit writes, so it also covers reads that conflict retries reuse, and a Lease's
  microsecond resolution.
- The Lease store is linearisable, and a resourceVersion identifies one content.

## Where the code and its documentation disagree

- The repository's README (lines 92 and 449) says that the own-AZ route "can never flap" between agents. There is
  no fencing, and three kinds of claim can take the route away from the agent that holds the live Lease: one that is
  slow to write (`LateWrite.LateWriteWithoutLease`), one whose own agent released the Lease meanwhile, as a draining
  node does before its replacement takes over (`LateWrite.LateWriteAfterRelease`, without any time passing), and one
  of a stand-in that the returning owner has preempted (`LateWrite.LateStandIn`). `LateWrite.ExactWindow` gives the
  exact condition: at most one agent of an AZ is about to claim at a time, in every run, if and only if claims are
  written within TTL - lag of their Lease commit, no agent releases the Lease while its claim is due, and no takeover
  is due.
- `EnsureStaleFlowReset` says that its rule has to be the first one. It is satisfied by any first rule that carries
  the comment, such as the one of another interface. `Forward.FirstUnlessImpersonated` gives the exact condition.
- `Connect` says that OnFailure follows ProbeFailures consecutive missed pongs. For every ProbeFailures of at least 2
  these lose the session, but are no death (`Peer.MissedPongsAreNoDeath`): a lost session is forgotten at the next
  successful dial, so a peer that accepts dials and never answers is never declared dead (`Peer.DialsOkNeverDead`).
  When it is declared dead is said exactly by `Peer.DeathExact` and, for a ProbeFailures of 1 or less, by
  `Peer.FirstFailureIsDeath`; then even a cancellation observed during a session is reported as a death.
- `LeaseRenewInterval` promises several renewals per Lease duration. The TTL written is truncated to whole seconds;
  `RenewInterval.TwoRenewalsPerTtl` and `RenewInterval.ThreeRenewalsPerTtl` say exactly when two and three fit.

## Model

| member | source | states |
|---|---|---|
| `LeaseCalls.VerdictIsHonest` | internal/lease/lease.go:38-182 | whatever other clients and faults do during a call: `true` means that its last request, and no other, stored a version naming the caller; `(false, nil)` means that it changed nothing; an error leaves at most one change |
| `LeaseCalls.ChangesAreLicensed` | internal/lease/lease.go:41-182 | no Renew, retries included, and no Release touches a Lease that names somebody else; an Acquire commits only on a Lease that at that moment is absent, its own, expired, or a stand-in's in its own AZ |
| `LeaseCalls.CopyIsCurrent` | internal/lease/lease.go:66-97 | when a write goes out, the copy it is based on is the stored Lease if their versions agree |
| `LeaseCalls.CopyWasServed` | internal/lease/lease.go:66-138 | the copy a call holds was read during this call, and what allowed writing it still does at every later instant |
| `LeaseCalls.WriteEndsCall` | internal/lease/lease.go:71-98 | a request that changes the Lease is the last of its call, and the verdict tells whether there was one |
| `LeaseVerdicts.ErrorExactly` | internal/lease/lease.go:41-182 | a call ends in an error exactly if its last request failed, or was an Update that found no Lease; lost races are no errors |
| `LeaseVerdicts.RenewRefusedExactly` | internal/lease/lease.go:41-98 | a Renew gives `(false, nil)` exactly if it lost the race to create the Lease, or its last Get found none or one that names somebody else, or three Updates went out and each met a conflict |
| `LeaseVerdicts.RenewSurvivesConflicts` | internal/lease/lease.go:66-97 | while the Lease keeps naming the caller and no request fails, a Renew holds it exactly if not all three Updates met conflicts: one or two conflicts do not cost it the Lease |
| `LeaseVerdicts.RefusedExactly` | internal/lease/lease.go:41-165 | the same for every operation: an Acquire is refused exactly if it lost a race, or the Lease it read is, by a clock read afterwards, live, named after somebody else and no stand-in's in its own AZ; a Release gives nil exactly if there was nothing of its own to delete, or its deletion did not fail |
| `LeaseVerdicts.NowIsFirstReading` | internal/lease/lease.go:43-83 | the renew time that a call writes is its first clock reading, conflict retries included |
| `LeaseVerdicts.ChangeWrote` | internal/lease/lease.go:169-212 | what a change writes: holder, renew time, duration, home label and selector label of a created Lease, and of a refreshed or taken one exactly what it keeps |
| `LeaseManager.AloneRun` | internal/lease/lease.go:41-212 | a call that nobody disturbs has the outcome of its operation's one-line rule: Lease content, version and verdict |
| `LeaseManager.Manager.CompletedIsHonest` | internal/lease/lease.go:38-182 | the honesty and licensing statements, for what the methods did |
| `LeaseManager.Manager.CompletedAlone` | internal/lease/lease.go:41-182 | an undisturbed method call leaves exactly the Lease that its operation prescribes, and no other Lease changes |
| `LeaseManager.Manager.CompletedExplained` | internal/lease/lease.go:38-182 | the exact reasons of a refusal and of an error, for what the methods did |
| `LeaseManager.Manager.RenewSurvives` | internal/lease/lease.go:66-97 | the method's Renew survives one or two conflicts with writers that leave the Lease in its name |
| `LeaseManager.Manager.CompletedWrote` | internal/lease/lease.go:169-212 | a method call that reports `true` leaves the Lease renewed at its first clock reading, with the configured duration in whole seconds and its home AZ as label |
| `LeaseManager.Manager.Renew` | internal/lease/lease.go:41-98 | the method with its three-attempt retry loop runs the Renew automaton to its end and returns its verdict, for which `CompletedExplained` and `RenewSurvives` give the reasons |
| `LeaseManager.Manager.Refresh` | internal/lease/lease.go:72-96 | one attempt of the retry loop: it ends the call with its verdict, or leaves it, after a conflict, with a fresh copy that still names the caller; only the third such conflict ends the call |
| `LeaseManager.Manager.Acquire` | internal/lease/lease.go:103-138 | the method, which reads the clock a second time for the expiry check, runs the Acquire automaton to its end |
| `LeaseManager.Manager.Write` | internal/lease/lease.go:169-182 | the compare-and-set ends the Acquire, a conflict being a clean loss |
| `LeaseManager.Manager.Release` | internal/lease/lease.go:143-165 | the method runs the Release automaton to its end: deletion of the version read, losing the race being no error |
| `Leases.AzRoundTrip` | internal/lease/lease.go:251-259 | the AZ is recovered from its Lease's name, so AZs do not share Leases |
| `Leases.NameRoundTrip` | internal/lease/lease.go:251-259 | the name is recovered from the AZ exactly if it has the prefix |
| `Leases.ExpiredAZsExact` | internal/lease/lease.go:231-249 | the sweep reports exactly the foreign AZs with a labelled, expired Lease |
| `Leases.ListExpiredAZs` | internal/lease/lease.go:231-249 | the loop over the listing computes that list |
| `Leases.ExpiresForGood` | internal/lease/lease.go:221-228 | a Lease expires once and for all, at a definite instant exactly if it has a renew time and a duration; one that lacks either is expired at all times |
| `RenewInterval.TwoRenewalsPerTtl` | internal/config/config.go:83-96 | two renewals fit in the TTL written exactly from 2s up, or if the reconcile interval is at most half of a TTL of one second |
| `RenewInterval.ThreeRenewalsPerTtl` | internal/config/config.go:83-96 | three fit exactly from 3s up, or if the reconcile interval is at most a third of the TTL |
| `RenewInterval.WholeSeconds` | internal/lease/lease.go:44 | truncation to seconds loses less than one second, and never rounds up |
| `RenewInterval.LargestInterval` | internal/config/config.go:83-96 | the interval is the largest one within the reconcile interval and within a quarter of the Lease duration or one second |
| `RenewInterval.RenewalBudget` | internal/config/config.go:83-96 | interval plus twice the latency stays within the TTL for every Lease duration from 2s up, if the latency is at most a third of the TTL (a quarter below 3s) |
| `Protocol.StepKeepsInv` | internal/agent/agent.go:548-697 | every step of every agent keeps the invariant: the log explains every Lease, each entry was allowed when it was made, a label names its holder's home, copies are current if versions agree, and tasks claim only on a commit of their own |
| `Protocol.RunKeepsInv` | internal/agent/agent.go:252-350 | the invariant holds throughout every run from every state that has it |
| `Protocol.InitInv` | internal/lease/lease.go:184-212 | it holds at the start, with any Leases whose label, if there is one, names their holder's home |
| `Safety.OneSuccessor` | internal/lease/lease.go:169-202 | a race for a version has one winner: later commits on a Lease start from later versions, and a Lease is created once per deletion |
| `Safety.StepCommits` | internal/lease/lease.go:41-182 | a step changes at most one Lease, by one new log entry that was allowed |
| `Safety.StepHandsOver` | internal/lease/lease.go:128-137 | a live Lease changes its holder only from a stand-in of another AZ to an agent of this AZ |
| `Safety.OwnStays` | internal/lease/lease.go:103-138 | a live Lease held by its own AZ's agent stays with it, and only that agent changes it |
| `Safety.OwnStaysInRun` | internal/lease/lease.go:103-138 | the same over any stretch of a run in which the Lease stays live |
| `Safety.NoFlapping` | internal/lease/lease.go:99-138 | in every run, while a Lease is neither deleted nor expired it changes hands at most once, and only back to its own AZ |
| `Safety.HoldsThroughWindow` | internal/lease/lease.go:66-97 | a commit of an own-AZ agent that does not release the Lease afterwards keeps it for TTL - lag, older renew times written by later retries notwithstanding |
| `Safety.SecondAgentWaits` | internal/lease/lease.go:103-138 | a second agent of the AZ cannot commit before that, unless the first one releases |
| `Safety.WriterHoldsLease` | internal/agent/agent.go:641-697 | a claim that is made within TTL - lag of its commit, by an agent that has not released the Lease since, is made by the holder |
| `Safety.ClaimWindowsExclude` | internal/agent/agent.go:641-697 | in no state of any run are two agents of one AZ both inside claim windows of at most TTL - lag that a release by their agent ends |
| `Safety.HealthyIsLive` | internal/lease/lease.go:222-228 | a Lease whose holder committed at most `gap` ago, with `gap` + `lag` within the TTL, is not expired |
| `Safety.HealthyOwnerKeepsLease` | internal/agent/agent.go:245-260 | an owner that keeps committing in time keeps its Lease in every run: no other agent's Acquire ever commits on it |
| `Safety.ConfiguredOwnerKeepsLease` | internal/config/config.go:83-96 | the same with the configured intervals, for every Lease duration from 2s up: the owner keeps its Lease, and every change to it is its own |
| `Safety.ReleasedLeaseAwaitsHeir` | internal/agent/agent.go:656-676 | whatever stand-ins do after a release, the Lease stays one that the AZ's sole standby may take at any time |
| `Stabilisation.RivalIsTurnedAway` | internal/agent/agent.go:641-655 | while the own agent holds the live Lease, no request of a rival makes it claim |
| `Stabilisation.WritesGoHome` | internal/agent/agent.go:548-597 | with no rival claim in flight, a step of any agent leaves a table of the AZ as it is or points it at the holder |
| `Stabilisation.StaysServing` | internal/reconciler/reconciler.go:272-329 | the progress of the claim loop survives every step of every agent: a table not pointing home is still to be visited, and a table skipped points home |
| `Stabilisation.ServeSettles` | internal/agent/agent.go:641-655 | one serveOwnAZ that ends without error, interleaved with anything, leaves every table of the AZ pointing at the holder |
| `Stabilisation.ServeMayBegin` | internal/agent/agent.go:641-655 | any serveOwnAZ that has not read the routes yet will do for that |
| `Stabilisation.StaysSettled` | internal/agent/agent.go:548-697 | a settled AZ stays settled through any step, while its Lease is live and kept |
| `Stabilisation.SettledForGood` | internal/agent/agent.go:548-697 | and over the rest of any run |
| `Handover.StaysInheriting` | internal/agent/agent.go:641-697 | once the heir of a released AZ has begun, every step of its own without faults or within its Renew, however that goes, and every step of others that is not about the AZ, keeps it on its way: what its call has seen is what the Lease is, and after a Renew that failed it acquires |
| `Handover.HandoverCompletes` | internal/agent/agent.go:656-697 | in any run: an AZ's Lease is released, only its heir and stand-ins commit on it from then on, and the heir starts to serve; if nobody else acts on the AZ and no fault hits that call, except that its Renew may fail in any way, it can only end with the heir holding the Lease and every table of the AZ pointing at it |
| `Handover.HeirFinishes` | internal/agent/agent.go:641-697 | and it does end: from anywhere on that way, finitely many steps of the heir alone lead there |
| `Handover.HeirTakesOver` | internal/agent/agent.go:656-697 | so every reachable state in which an AZ is left to its heir goes on, by the heir's steps alone, to such an end |
| `LateWrite.ExactWindow` | internal/agent/agent.go:641-697 | for every TTL, lag and width, with or without releases while a claim is due, with or without takeovers: the claims so described exclude each other in every run if and only if the width is at most TTL - lag and neither releases nor takeovers are among them (or the width is negative, when there are no claims) |
| `LateWrite.OverlapIsInWindow` | internal/lease/lease.go:128-137 | necessity of the width: a Lease created `lag` after its clock reading expires and is acquired by a second agent while both claims are still due, both agents having been diligent |
| `LateWrite.ReleasedIsInWindow` | internal/lease/lease.go:143-165 | necessity of no release: at one instant an agent commits, releases, and its AZ's other agent commits, while both claims are due |
| `LateWrite.StandInIsInWindow` | internal/lease/lease.go:128-137 | necessity of no takeover: at one instant a stand-in commits and the owner preempts it, while both claims are due |
| `LateWrite.LateWriteWithoutLease` | internal/agent/agent.go:641-655 | for every TTL and every lag, a run of two agents of one AZ in which a slow claim takes the route from the agent that holds the live Lease |
| `LateWrite.LateWriteAfterRelease` | internal/agent/agent.go:641-697 | for every TTL, a run in which the claim of an agent that has released the Lease does so, without any time passing |
| `LateWrite.LateStandIn` | internal/agent/agent.go:548-597 | for every TTL, a run in which the claim of a preempted stand-in does so, without any time passing |
| `Ec2.InAzExact` | internal/aws/ec2.go:61-104 | a discovery lists exactly the tables tagged with the AZ |
| `Ec2.Account.Upsert` | internal/aws/ec2.go:106-144 | a route write retargets that table and no other; an error may hide that it did |
| `Reconciler.ClaimGoalExact` | internal/reconciler/reconciler.go:288-318 | the claim loop retargets exactly the discovered tables that do not point at this instance yet |
| `Reconciler.ClaimWritesExact` | internal/reconciler/reconciler.go:287-318 | the claim loop asks for one write for each discovered table that points elsewhere, and for no other |
| `Reconciler.ClaimedAzIsOurs` | internal/reconciler/reconciler.go:272-329 | afterwards every table of the AZ points at this instance and no other table moved; an immediate repeat writes nothing |
| `Reconciler.Reconciler.ClaimOwnRouteTables` | internal/reconciler/reconciler.go:272-329 | in auto mode it asks for the claims of the tables that point elsewhere, in order, up to the last or to the first that fails, and fails exactly then or with the discovery; success leaves ownership equal to the discovery and every table of the AZ pointing here; an error leaves ownership and records as they were and each table as it was or pointing here; manual mode writes nothing; without an error every fallback target is recorded, after exactly the lookups that this takes, and the tables can fall back exactly if each had, showed or was found a gateway |
| `Reconciler.Reconciler.ClaimDiscovered` | internal/reconciler/reconciler.go:282-329 | the part after the discovery |
| `Reconciler.Reconciler.ClaimInAuto` | internal/reconciler/reconciler.go:302-329 | the same in auto mode |
| `Reconciler.Reconciler.Confirm` | internal/reconciler/reconciler.go:321-328 | the end of it: fallback targets are recorded in either mode, ownership in auto mode |
| `Reconciler.Reconciler.ClaimFound` | internal/reconciler/reconciler.go:287-320 | its claim loop in auto mode: every table claimed and confirmed, or an error at the first failed claim |
| `Reconciler.Reconciler.ClaimEach` | internal/reconciler/reconciler.go:287-320 | the loop, and exactly how far it came: everything claimed, or all tables before the one whose claim failed and possibly that one |
| `Reconciler.Reconciler.ClaimNext` | internal/reconciler/reconciler.go:302-318 | one turn of it: a table that points here is skipped, any other claimed |
| `ClaimRuns.DiscoveryMatches` | internal/reconciler/reconciler.go:272-288 | the account's listing is an order in which the protocol may discover the tables, and both see the same targets |
| `ClaimRuns.ClaimMatches` | internal/reconciler/reconciler.go:303-318 | one claim, with any fault, does the same to the protocol's routes as to the account |
| `ClaimRuns.ClaimEachIsARun` | internal/reconciler/reconciler.go:272-320 | however the loop goes, a serving task of the protocol can go the same way, from matching routes to matching routes, and ends served exactly if the loop reports no error |
| `ClaimRuns.TakeoverDiscovers` | internal/agent/agent.go:569-574 | the same listing is one for a takeover of the protocol |
| `ClaimRuns.TryMatches` | internal/agent/agent.go:576-588 | one claim of a takeover, with any fault, does the same to the protocol's routes as to the account, and both go on |
| `ClaimRuns.ClaimAllIsARun` | internal/agent/agent.go:569-589 | however the claim loop of a takeover goes, a takeover of the protocol can go the same way to its end, from matching routes to matching routes |
| `Reconciler.Reconciler.ClaimRouteTables` | internal/reconciler/reconciler.go:333-360 | a manual claim asks for a claim of every table of the AZ, in order, up to the first that fails; only if all succeed does it take ownership and record the fallback targets, after exactly the lookups that this takes; an error leaves each table as it was or, if it is one of the AZ's, pointing here |
| `Reconciler.Reconciler.ForceDiscovered` | internal/reconciler/reconciler.go:345-359 | the part after the discovery |
| `Reconciler.Reconciler.ForceEach` | internal/reconciler/reconciler.go:345-353 | its loop skips no table and stops at the first failed claim, having asked for exactly the claims up to it and moved nothing but tables of the AZ, to this instance |
| `Reconciler.Reconciler.ForceNext` | internal/reconciler/reconciler.go:346-352 | one turn of it |
| `Reconciler.Reconciler.CacheFallbackTargets` | internal/reconciler/reconciler.go:103-135 | a lookup is made for each discovered table that shows no gateway, has none recorded and is in a known VPC, and for no other; each of those ends with the answer to its lookup, and an error leaves its record as it was; nothing else is touched, and a recorded gateway survives |
| `Reconciler.Reconciler.CacheOne` | internal/reconciler/reconciler.go:104-134 | the same for one table |
| `Reconciler.RecordedOneMore` | internal/reconciler/reconciler.go:103-135 | recording one more table leaves what was recorded for the others |
| `Reconciler.LookupsCount` | internal/reconciler/reconciler.go:103-126 | the lookups number the tables that show no gateway, have none recorded and are in a known VPC |
| `Reconciler.FallbackReady` | internal/reconciler/reconciler.go:89-135 | after a recording every table has a gateway to fall back to exactly if each had one recorded, or showed one and had no record, or was found one by its lookup |
| `Reconciler.Reconciler.CanFallbackToNAT` | internal/reconciler/reconciler.go:89-101 | there is an owned table, and every one has a recorded gateway |
| `Reconciler.AllRestored` | internal/reconciler/reconciler.go:364-412 | when every owned table has a recorded gateway, a full release skips none and restores each to its own |
| `Reconciler.Reconciler.ReleaseRouteTables` | internal/reconciler/reconciler.go:364-412 | exactly a prefix of the owned tables is handed back, each to its recorded gateway or else to the one its lookup answers; it fails exactly if one of these calls does, and otherwise all are handed back and ownership is given up; no lookup if all gateways are recorded |
| `Reconciler.Reconciler.ReleaseOne` | internal/reconciler/reconciler.go:383-406 | one turn: the recorded gateway, else the one that the lookup answers, else nothing; it fails exactly if one of its calls does |
| `Reconciler.Reconciler.ReleaseEach` | internal/reconciler/reconciler.go:383-406 | the loop of these turns |
| `Reconciler.BackToGateways` | internal/reconciler/reconciler.go:272-412 | handing claimed tables back to the gateways they showed restores the routes of the whole account |
| `Reconciler.Reconciler.ClaimAndRelease` | internal/reconciler/reconciler.go:272-412 | so a claim and a release in a row, both without an error, undo each other, if the AZ's tables showed gateways and nothing was recorded for them |
| `Reconciler.Reconciler.AddForeignTables` | internal/reconciler/reconciler.go:139-145 | registers exactly the given tables for the given AZ, whatever they are; the books stay consistent if that is not the own AZ and the tables carry its tag |
| `Reconciler.Reconciler.ForeignAZs` | internal/reconciler/reconciler.go:148-160 | lists each covered AZ once |
| `Reconciler.Reconciler.CoversAZ` | internal/reconciler/reconciler.go:245-254 | holds exactly if a table is covered for that AZ |
| `Reconciler.Reconciler.ReleaseForeignAZ` | internal/reconciler/reconciler.go:231-242 | forgets exactly that AZ's tables |
| `Reconciler.Reconciler.ReconcileForeign` | internal/reconciler/reconciler.go:165-204 | discovers every covered AZ, whichever discoveries fail; forgets exactly the tracked tables that a successful discovery showed pointing elsewhere, so what it keeps of a discovered AZ points here |
| `Reconciler.Reconciler.WatchOne` | internal/reconciler/reconciler.go:184-202 | one covered AZ: a failed discovery keeps its tables |
| `Reconciler.Reconciler.Vacate` | internal/reconciler/reconciler.go:190-201 | the same for the listing of one covered AZ |
| `Reconciler.Reconciler.DropOwnTables` | internal/reconciler/reconciler.go:70-76 | empties the owned tables only |
| `Reconciler.Reconciler.BooksAreDisjoint` | internal/reconciler/reconciler.go:139-145 | the foreign map never names the own AZ and shares no table with the owned ones |
| `Reconciler.Reconciler.Perform` | internal/reconciler/reconciler.go:70-412 | over every sequence of operations and EC2 errors the books stay consistent and no recorded gateway is overwritten |
| `AgentLoops.Agent.EnsureOwnLease` | internal/agent/agent.go:681-697 | always asks for the own Lease: renews first, else acquires; undisturbed it holds the Lease, renewed to this instant, exactly if it may, and touches no other Lease |
| `AgentLoops.Agent.RenewLeaseOf` | internal/agent/agent.go:682-688 | a Renew of some AZ's Lease by this agent: undisturbed it holds the Lease, renewed to this instant, exactly if nobody else held it |
| `AgentLoops.Agent.AcquireOwn` | internal/agent/agent.go:689-697 | the Acquire behind it |
| `AgentLoops.Agent.ServeOwnAZ` | internal/agent/agent.go:641-655 | asks for the own Lease whatever the books and the mode, and makes no EC2 call without it; serving, it asks for the claims of exactly the tables that point elsewhere, none in manual mode, which leaves routes and ownership alone; without error in auto mode every table points home and is owned; undisturbed it serves exactly if it may hold the Lease, which then is renewed |
| `AgentLoops.Agent.RenewOwnLease` | internal/agent/agent.go:656-676 | every call, whatever the books and the mode, runs a Renew or Acquire of the own Lease to its end, and undisturbed leaves it renewed to this instant exactly if this agent may have it; an error-free call ends not holding, in manual mode, with recorded tables, or with nothing to discover; with tables recorded, or in manual mode, it makes no EC2 call; undisturbed, a standby with no recorded tables that may have the Lease ends up with every table pointing at it |
| `AgentLoops.Agent.RenewRepeatedly` | internal/agent/agent.go:656-676 | any run of plain renewals makes no EC2 call |
| `AgentLoops.Agent.Takeover` | internal/agent/agent.go:548-597 | unless draining it always asks for the Lease, and goes on exactly if it gets it; then it asks for a claim of every discovered table, none in manual mode, and books exactly those whose claim succeeds; undisturbed it succeeds exactly if the Lease is absent, expired or its own, and touches no other Lease |
| `AgentLoops.Agent.AcquireFor` | internal/agent/agent.go:558-567 | its Acquire |
| `AgentLoops.Agent.StandIn` | internal/agent/agent.go:569-593 | the part after the Lease is held: what is asked for and what is booked, exactly, by what EC2 answers; without errors, in auto mode, every table of the AZ is claimed and booked |
| `AgentLoops.Agent.Book` | internal/agent/agent.go:591-593 | registers what was claimed, and nothing else |
| `AgentLoops.Agent.ClaimAll` | internal/agent/agent.go:575-589 | the takeover's claim loop: in auto mode it asks for one claim of every table, in order and whatever failed before, books exactly those that succeed, and moves exactly those that were not lost |
| `AgentLoops.Agent.BookedExact` | internal/agent/agent.go:576-588 | a table is booked exactly if its claim succeeded |
| `AgentLoops.Agent.TryClaim` | internal/agent/agent.go:576-588 | one turn of it |
| `AgentLoops.Agent.RenewForeign` | internal/agent/agent.go:268-279 | a failover Lease is yielded, with exactly its tables, exactly if its Renew was refused, for one of the three reasons; an error keeps it |
| `AgentLoops.Agent.OneMoreRenewed` | internal/agent/agent.go:267-280 | renewing one more failover Lease leaves what was done for the others |
| `AgentLoops.Agent.RenewForeignLeases` | internal/agent/agent.go:267-280 | asks for the Lease of every covered AZ, whatever becomes of the others; undisturbed, each is yielded if somebody else holds it, renewed to this instant if not, and no other Lease is touched |
| `AgentLoops.Agent.LeaseTick` | internal/agent/agent.go:252-282 | a tick does nothing when draining, writes no route in manual mode and never adds covered tables; otherwise it asks for the own Lease and for that of every covered AZ; undisturbed it renews its own Lease to this instant if it may have it, yields exactly the failover Leases that somebody else holds, renews the rest, and completes the handover to a standby with no recorded tables |
| `AgentLoops.Agent.StillCovered` | internal/reconciler/reconciler.go:139-145 | a takeover's entries replace none of another AZ |
| `AgentLoops.Agent.MoreHere` | internal/agent/agent.go:576-588 | a takeover leaves every table that points here, and adds those of its AZ if it claims them all |
| `AgentLoops.Agent.CoverOne` | internal/agent/agent.go:338-344 | one turn of the sweep: a covered AZ is left alone, and the Lease of any other is asked for; undisturbed, the AZ is taken over now, or covered already, or its Lease is not to be had |
| `AgentLoops.Agent.CoverExpired` | internal/agent/agent.go:333-347 | undisturbed, every expired AZ whose Lease this agent may take is covered already or taken over in this sweep; no covered AZ is taken over again; without EC2 errors, in auto mode, every table of the AZs taken over in it points here afterwards; the own AZ's routes stay, and manual mode writes no route |
| `AgentLoops.Agent.ServeOrStandBy` | internal/agent/agent.go:305-321 | the first half of the tick: serves the own AZ, or drops its tables; a draining agent stands by; neither writes a route in manual mode or when draining; undisturbed it serves exactly if it may hold its Lease, which then is renewed |
| `AgentLoops.Agent.WatchAndSweep` | internal/agent/agent.go:323-347 | the second half: gives up exactly the reclaimed tables and takes over AZs that are not covered; the own Lease and the own AZ's routes stay |
| `AgentLoops.Agent.WatchedAsBefore` | internal/agent/agent.go:323-347 | what it does to the books is the same in terms of the routes before the tick |
| `AgentLoops.Agent.ReconcileTick` | internal/agent/agent.go:288-350 | a tick that does not serve ends with no owned tables; new stand-ins only for listed, expired foreign AZs that are not covered; a draining agent sends no Lease request; draining or in manual mode it writes no route, sweep included; it gives up exactly the reclaimed tables; unless draining it asks for its own Lease; undisturbed, an agent that may hold its Lease ends serving with it renewed, its tables recorded and its routes home, and every listed expired AZ whose Lease it may take is covered or taken over, with its routes pointing here |
| `Peer.CountersMean` | internal/peer/client.go:39-144 | what both failure counters stand for, after every sequence of events and for every ProbeFailures |
| `Peer.LastEventDecides` | internal/peer/client.go:39-144 | which last events lead to which outcome |
| `Peer.SteppedDownExact` | internal/peer/client.go:60-78 | a peer counts as stepped down exactly if the last event is a step-down frame |
| `Peer.CancelledExact` | internal/peer/client.go:39-79 | the client ends as cancelled exactly if the last event is a cancellation and, for ProbeFailures of 1 or less, there was no session |
| `Peer.DeathExact` | internal/peer/client.go:39-79 | for ProbeFailures of at least 2, a peer is declared dead exactly at a failed dial that brings the failed dials since the last successful one, and one more if there was a session, to ProbeFailures |
| `Peer.FirstFailureIsDeath` | internal/peer/client.go:39-144 | for 1 or less, exactly at the first failed dial or probe, or at a cancellation that the client observes during a session |
| `Peer.DeathNeedsEvidence` | internal/peer/client.go:39-144 | for ProbeFailures of at least 2, a session lost on the way to a death took ProbeFailures failed probes since its last pong, and no cancellation that the client observed leads to one |
| `Peer.MissedPongsAreNoDeath` | internal/peer/client.go:60-78 | for every ProbeFailures of at least 2, as many missed pongs in a row lose the session, and then the client dials again |
| `Peer.UnreachableIsGivenUp` | internal/peer/client.go:49-60 | an unreachable peer is given up after exactly max(ProbeFailures, 1) dials |
| `Peer.DialsOkNeverDead` | internal/peer/client.go:60-78 | a peer whose dials succeed is never declared dead, exactly if ProbeFailures is at least 2 |
| `Peer.OverForGood` | internal/peer/client.go:39-79 | after an outcome nothing more happens |
| `Peer.Client.Connect` | internal/peer/client.go:39-79 | the dial loop follows the state machine; both callbacks together fire at most once, OnFailure exactly on death |
| `Peer.Client.RunHeartbeat` | internal/peer/client.go:103-144 | the heartbeat loop follows it through one session |
| `Wire.Encode` | internal/peer/protocol.go:21-26 | fills nine bytes: the type, then the timestamp in two's complement, big-endian |
| `Wire.FrameLayout` | internal/peer/protocol.go:21-26 | the layout, byte by byte: the type, then the digits of the timestamp modulo 2^64, the most significant first |
| `Wire.DecodeEncoded` | internal/peer/protocol.go:21-36 | decoding an encoded message gives it back, for every type and every signed 64-bit timestamp |
| `Wire.EncodeDecoded` | internal/peer/protocol.go:21-36 | encoding a decoded frame gives it back, for every nine bytes |
| `Wire.ReadFrames` | internal/peer/protocol.go:28-36 | cutting a stream into frames loses nothing but a short rest |
| `Wire.FramesAreRead` | internal/peer/protocol.go:21-36 | messages encoded back to back are read back as sent |
| `Forward.ResetRuleIsMarked` | internal/nat/manager.go:74-83 | the listing shows the rule's comment, for every interface name |
| `Forward.ResetRuleMeans` | internal/nat/manager.go:78-83 | the rule answers exactly the TCP packets that leave by the interface in state INVALID, with a TCP reset |
| `Forward.PlacementIsLocal` | internal/nat/manager.go:97-116 | all other rules keep order and multiplicity; the rule's copies never multiply |
| `Forward.FirstUnlessImpersonated` | internal/nat/manager.go:120-134 | the rule ends up first exactly if no other rule with the comment was |
| `Forward.PlacedDecides` | internal/nat/manager.go:85-116 | after a placement the rule answers every packet it applies to, whatever the rules behind it do, unless another rule with the comment came first; every other packet is answered as before |
| `Forward.OtherInterfaceBlocks` | internal/nat/manager.go:120-134 | another interface's rule in front keeps this one's from being placed |
| `Forward.RepeatChangesNothing` | internal/nat/manager.go:97-116 | a repeated placement changes nothing |
| `Forward.RunIsLocal` | internal/nat/manager.go:97-116 | over every run of calls, failed ones included, and other writers' prepends: the others' rules are those that were there and those that arrived, in order, and at most one copy stays at most one |
| `Forward.EnsuredIsFirst` | internal/nat/manager.go:91-116 | after each successful call of such a run the rule is first, if nobody else uses the comment |
| `Forward.Netfilter.IsFirstForwardRule` | internal/nat/manager.go:122-134 | skips policy lines and tells whether the chain's first rule carries the comment |
| `Forward.Netfilter.EnsureStaleFlowReset` | internal/nat/manager.go:97-118 | the chain and the loose flag after success and after a failure at each stage; loose pickup goes off only once the rule is placed |
| `Collector.DiffStringSet` | internal/collector/collector.go:404-424 | computes, with two lookup sets and two loops, the new elements and the missing ones, in order |
| `Collector.DiffMeans` | internal/collector/collector.go:404-424 | these lead from the one set to the other, and are empty exactly for equal sets |
| `Collector.AppearancesAlternate` | internal/collector/collector.go:131-140 | per AZ, two successive presence events are of opposite kind |
| `Collector.AppearanceComesFirst` | internal/collector/collector.go:131-140 | and the first one is an appearance |
| `Collector.PeerEventsAlternate` | internal/collector/collector.go:142-158 | per AZ, two successive peer events are of opposite kind |
| `Collector.RegainedAfterFailover` | internal/collector/collector.go:172-181 | before each route_regained, and since the one before it, there was a failover from that AZ |
| `Collector.CoveredMeans` | internal/collector/collector.go:172-181 | an AZ counts as covered exactly if its last failover came after the last time control was regained |
| `Collector.NewsRegains` | internal/collector/collector.go:160-181 | over the whole log: every route_regained directly follows the route update that gave the AZ these tables at a point where, replayed, it had none; and every such update of a covered AZ is followed by its route_regained |
| `Collector.ReplayGivesCurrent` | internal/collector/collector.go:160-170 | replaying the route updates from the first observation gives the current set |
| `Collector.NewsShown` | internal/collector/collector.go:131-192 | what one snapshot logs keeps the log coherent and brings its account of the AZ up to date |
| `Collector.PeakIsMaximum` | internal/collector/collector.go:388-399 | the stored counter is the maximum ever read for its key, counter resets included |
| `Collector.RecordsAreNewMaxima` | internal/collector/collector.go:388-399 | the records counted are the strict new maxima after the first reading |
| `Collector.TalliedByOne` | internal/collector/collector.go:386-399 | one more reading keeps stored counters and failover records in step with that |
| `Collector.KeysDistinct` | internal/collector/collector.go:386 | two pairs of AZs do not share a key, if no AZ is named with a slash |
| `Collector.LastIsEnd` | internal/collector/collector.go:73-92 | the log kept is the end of the whole one, as long as its bound allows |
| `Collector.TallyIsExact` | internal/collector/collector.go:386-399 | a key's records are then those of its pair of AZs |
| `Collector.ScrapedExact` | internal/collector/collector.go:376-387 | the readings of a scrape are those of its labelled counters |
| `Collector.Collector.AppendEvent` | internal/collector/collector.go:73-78 | the events kept are the last 100 of all |
| `Collector.Collector.AppendFailover` | internal/collector/collector.go:81-92 | so are the failovers, each with its event |
| `Collector.Collector.AddEvent` | internal/collector/collector.go:66-70 | a user's entry disturbs nothing that the log shows |
| `Collector.Collector.DetectFailovers` | internal/collector/collector.go:371-401 | the loop reads exactly the labelled counters; the counters it stores and the failovers it finds are those of `Detected`, and each failover has its record, its event and its covered AZ, in order |
| `Collector.Collector.DetectOne` | internal/collector/collector.go:376-399 | one sample: skipped without a label or counter, stored when first or higher, a failover when higher than a stored one |
| `Collector.Collector.Observe` | internal/collector/collector.go:126-194 | the exact entries that one snapshot adds, and what is remembered afterwards; the log stays coherent, and exact about regained control |
| `Collector.RoundSees` | internal/collector/collector.go:113-194 | a round sees exactly the AZs that answer, and remembers a state of each |
| `Collector.UsableExact` | internal/collector/collector.go:113-124 | each pod that answers with an AZ label counts once, and no other |
| `Collector.TotalByKind` | internal/collector/collector.go:186-199 | a chart point adds up the agents' loads, each kind for itself |
| `Collector.Collector.Sweep` | internal/collector/collector.go:202-214 | every AZ that did not answer is reported lost, once, and no other |
| `Collector.Collector.Scrape` | internal/collector/collector.go:101-200 | the loop over the pods: the log, the counters and what is remembered are those of observing every usable snapshot in order, and the loads are totalled |
| `Collector.Collector.Chart` | internal/collector/collector.go:216-225 | the history kept is the last 60 points of all |
| `Collector.Collector.Collect` | internal/collector/collector.go:95-243 | over any sequence of rounds all of the above hold, the exactness of route_regained included; a round logs exactly what its usable snapshots show, in order, and then each AZ that did not answer as lost, once; afterwards exactly the AZs that answered are seen, the history has one more point with the totals, and a failed listing changes nothing |

## Left out

- Protocol.StepKeepsInv: a draining flag is not part of the step level; a release by a draining agent is a task of its own that any agent may start at any time, which allows every interleaving of it with the agent's other calls, the re-creation of a just released Lease included.
- Stabilisation.ServeSettles: excludes manual claims and releases of the AZ's tables, which the code does not gate on the Lease, and an aborted task.
- AgentLoops.Agent.RenewOwnLease: its progress statement is about one call against one server; over whole runs of the protocol it is `Handover.HandoverCompletes`. It needs no recorded tables, because the lease loop does not drop tables when the Lease is lost; only the reconcile tick does. A manual release empties them too, so the next tick claims again.
- AgentLoops.Agent.Takeover: tables whose claim failed are never retried while any table of the AZ is covered, as in the code.
- AgentLoops.Agent.ReconcileTick: the draining flag is read once per tick where the code reads it up to three times; the List of Leases and its clock reading are parameters; the tick that ends early because the data plane cannot be applied is not modelled.
- Reconciler.Reconciler.Perform: the methods run one at a time; the mutex sections of concurrent HTTP requests and loops are not interleaved inside a method. The interleaving of Lease calls and route writes is in `Protocol`.
- RenewInterval.WholeSeconds: durations whose seconds do not fit 32 bits, and the detour of `Seconds()` over floating point, are not modelled.
- Collector.Collector.Collect: counters and loads are real numbers, so NaN and rounding are not modelled; timestamps and texts of events are left out; how a pod's metrics text becomes a snapshot is not part of this model.
- Peer.Client.Connect: a cancellation is an event only where the client looks for one, at the head of its loops; one that happens during a dial or the sleep after it is observed later or, if that dial is the last, not at all, and OnFailure still follows. Time, deadlines and sockets are events; a read that ends inside a frame, after which later frames are out of step, is an ordinary failed probe followed by whatever the next events are.
- Forward.Netfilter.EnsureStaleFlowReset: iptables quoting is modelled for blanks only, and other writers only prepend.
- Ec2.Account.Upsert: AWS's eventual consistency and the two API calls behind one upsert are one atomic write that may fail before or after its effect; `LookupNatGateway` is an oracle.
- LeaseManager.Manager.Renew: annotations and other labels of the Lease, and the List pagination, are not modelled; the other clients' edits are arbitrary.
- The Prometheus gauges, which do not follow ownership exactly, are not modelled.
- `EnsureMasquerade`, sysctl writers other than the loose flag, the drain monitor's edge detection, the spot watcher, instance metadata, the peer watcher and its server, the HTTP and WebSocket servers, the user interface and the charts would only add shallow members.

/** The per-AZ Lease protocol and the route tables it gates, as a transition system: any number of
    agents, several in one AZ if need be, run their calls one request at a time against the Lease
    store and the route tables (internal/agent/agent.go over internal/lease/lease.go). */
module Protocol {
  import opened Wrappers
  import opened Leases
  import opened LeaseCalls

  datatype Target = Instance(id: string) | Gateway(id: string) | Nowhere

  datatype Agent = Agent(home: string, durSecs: int, instance: string)

  /** What does not change: the agents by holder identity, the AZ tag of each route table, and the
      Leases found at the start. */
  datatype Cluster = Cluster(agents: map<string, Agent>, tables: map<string, string>,
                             initial: map<string, Lease>, firstVersion: nat)

  /** Serve is serveOwnAZ and renewOwnLease, which differ only in whether they claim; KeepForeign is the
      renewal of a failover Lease; StandDown is the release when draining or shutting down. */
  datatype Goal = Serve | Takeover | KeepForeign | StandDown

  datatype Seen = Seen(table: string, target: Target)

  /** `commit` is the position in the log of the Lease version that lets the task claim. */
  datatype Stage =
    | Calling(call: Call)
    | Discovering(commit: int)
    | Claiming(commit: int, todo: seq<Seen>)
    | Finished(served: bool)

  datatype Task = Task(agent: string, az: string, goal: Goal, stage: Stage)

  /** A change to a Lease that took effect. */
  datatype Commit = Commit(task: nat, agent: string, op: Op, az: string,
                           before: Option<Lease>, after: Option<Lease>, stamp: nat, time: int)

  datatype State = State(clock: int, leases: map<string, Lease>, next: nat, routes: map<string, Target>,
                         tasks: map<nat, Task>, log: seq<Commit>)

  datatype Step =
    | Wait(delay: nat)
    | Start(id: nat, agent: string, az: string, goal: Goal)
    | Ask(id: nat, fault: Fault)                      // the next request of a Lease call
    | Discover(id: nat, order: seq<string>)           // a successful DescribeRouteTables
    | Claim(id: nat, fault: Fault)                    // the next table of the claim loop
    | Finish(id: nat)
    | Drop(id: nat)                                   // a crash, a failed discovery, or nothing to claim
    | ManualClaim(agent: string, table: string)       // HTTP /claim
    | ManualRelease(table: string, gateway: string)   // HTTP /release

  function Me(c: Cluster, agent: string): Ident
    requires agent in c.agents
  {
    Ident(agent, c.agents[agent].home, c.agents[agent].durSecs)
  }

  function FirstOp(g: Goal): Op {
    match g
    case Serve => Renew
    case Takeover => Acquire
    case KeepForeign => Renew
    case StandDown => Release
  }

  /** An agent serves its own AZ only, and stands in for other AZs only. */
  predicate MayStart(c: Cluster, agent: string, az: string, goal: Goal) {
    && agent in c.agents
    && (goal == Serve ==> az == c.agents[agent].home)
    && (goal == Takeover || goal == KeepForeign ==> az != c.agents[agent].home)
  }

  /** Where a task goes on when its call has come to `d`, the log then being `n` long. */
  function NextStage(c: Cluster, t: Task, d: Call, n: int): Stage
    requires t.agent in c.agents
  {
    if !d.phase.Returned? then Calling(d)
    else if d.phase.verdict == Held && (t.goal == Serve || t.goal == Takeover) then Discovering(n - 1)
    else if t.goal == Serve && d.op == Renew then Calling(Begin(Acquire, t.az, Me(c, t.agent)))
    else Finished(false)
  }

  function TargetOf(routes: map<string, Target>, table: string): Target {
    if table in routes then routes[table] else Nowhere
  }

  predicate Covers(c: Cluster, order: seq<string>, az: string) {
    && (forall i :: 0 <= i < |order| ==> order[i] in c.tables && c.tables[order[i]] == az)
    && (forall t :: t in c.tables && c.tables[t] == az ==> t in order)
  }

  predicate Enabled(c: Cluster, s: State, st: Step) {
    match st
    case Wait(_) => true
    case Start(id, agent, az, goal) => id !in s.tasks && MayStart(c, agent, az, goal)
    case Ask(id, _) => id in s.tasks && s.tasks[id].agent in c.agents && s.tasks[id].stage.Calling? &&
                       !s.tasks[id].stage.call.phase.Returned?
    case Discover(id, order) => id in s.tasks && s.tasks[id].stage.Discovering? && Covers(c, order, s.tasks[id].az)
    case Claim(id, _) => id in s.tasks && s.tasks[id].agent in c.agents && s.tasks[id].stage.Claiming? &&
                         s.tasks[id].stage.todo != []
    case Finish(id) => id in s.tasks && s.tasks[id].stage.Claiming? && s.tasks[id].stage.todo == []
    case Drop(id) => id in s.tasks
    case ManualClaim(agent, table) => agent in c.agents && table in c.tables && c.tables[table] == c.agents[agent].home
    case ManualRelease(table, _) => table in c.tables
  }

  function Advance(t: Task, stage: Stage): Task {
    t.(stage := stage)
  }

  function ApplyAsk(c: Cluster, s: State, id: nat, fault: Fault): State
    requires Enabled(c, s, Ask(id, fault))
  {
    var t := s.tasks[id];
    var call := t.stage.call;
    var before := Lookup(s.leases, t.az);
    var (after, r) := Respond(before, s.next, s.clock, RequestOf(call), fault);
    var changed := after != before;
    var log := if changed then s.log + [Commit(id, t.agent, call.op, t.az, before, after, s.next, s.clock)] else s.log;
    s.(leases := Put(s.leases, t.az, after),
       next := if changed then s.next + 1 else s.next,
       log := log,
       tasks := s.tasks[id := Advance(t, NextStage(c, t, React(call, r), |log|))])
  }

  /** The own-AZ loop skips a table that the discovery saw pointing at this instance, and stops at the
      first failed claim; a takeover claims every table and goes on after a failure. */
  function ApplyClaim(c: Cluster, s: State, id: nat, fault: Fault): State
    requires Enabled(c, s, Claim(id, fault))
  {
    var t := s.tasks[id];
    var head, rest := t.stage.todo[0], t.stage.todo[1..];
    var mine := Instance(c.agents[t.agent].instance);
    if t.goal == Serve && head.target == mine then
      s.(tasks := s.tasks[id := Advance(t, Claiming(t.stage.commit, rest))])
    else
      s.(routes := if fault == Lost then s.routes else s.routes[head.table := mine],
         tasks := s.tasks[id := Advance(t, if fault != Calm && t.goal == Serve then Finished(false)
                                           else Claiming(t.stage.commit, rest))])
  }

  function Apply(c: Cluster, s: State, st: Step): State
    requires Enabled(c, s, st)
  {
    match st
    case Wait(delay) => s.(clock := s.clock + delay)
    case Start(id, agent, az, goal) =>
      s.(tasks := s.tasks[id := Task(agent, az, goal, Calling(Begin(FirstOp(goal), az, Me(c, agent))))])
    case Ask(id, fault) => ApplyAsk(c, s, id, fault)
    case Discover(id, order) =>
      var t := s.tasks[id];
      var todo := seq(|order|, i requires 0 <= i < |order| => Seen(order[i], TargetOf(s.routes, order[i])));
      s.(tasks := s.tasks[id := Advance(t, Claiming(t.stage.commit, todo))])
    case Claim(id, fault) => ApplyClaim(c, s, id, fault)
    case Finish(id) => s.(tasks := s.tasks[id := Advance(s.tasks[id], Finished(true))])
    case Drop(id) => s.(tasks := s.tasks - {id})
    case ManualClaim(agent, table) => s.(routes := s.routes[table := Instance(c.agents[agent].instance)])
    case ManualRelease(table, gateway) => s.(routes := s.routes[table := Gateway(gateway)])
  }

  /** A label on an initial Lease names the home AZ of its holder; Leases written before the label
      existed carry none. */
  predicate LabelOK(c: Cluster, l: Lease) {
    l.homeLabel != "" ==> l.holder.Some? && l.holder.value in c.agents && c.agents[l.holder.value].home == l.homeLabel
  }

  ghost predicate ClusterOK(c: Cluster) {
    && (forall a :: a in c.agents ==> c.agents[a].home != "")
    && (forall az :: az in c.initial ==> LabelOK(c, c.initial[az]) && c.initial[az].version < c.firstVersion)
  }

  ghost predicate Init(c: Cluster, s: State) {
    ClusterOK(c) && s.leases == c.initial && s.next == c.firstVersion && s.tasks == map[] && s.log == [] &&
    s.routes.Keys == c.tables.Keys
  }

  /** A run: consecutive states joined by enabled steps, in any interleaving. */
  ghost predicate IsRun(c: Cluster, run: seq<State>, steps: seq<Step>) {
    && |run| == |steps| + 1
    && forall i {:trigger steps[i]} :: 0 <= i < |steps| ==>
         Enabled(c, run[i], steps[i]) && run[i + 1] == Apply(c, run[i], steps[i])
  }

  lemma RunGrows(c: Cluster, s: State, st: Step, rest: seq<State>, more: seq<Step>)
    requires Enabled(c, s, st) && IsRun(c, rest, more) && rest[0] == Apply(c, s, st)
    ensures IsRun(c, [s] + rest, [st] + more)
  {
    var run, steps := [s] + rest, [st] + more;
    forall i {:trigger steps[i]} | 0 <= i < |steps|
      ensures Enabled(c, run[i], steps[i]) && run[i + 1] == Apply(c, run[i], steps[i])
    {
      if i > 0 { assert steps[i] == more[i - 1]; }
    }
  }

  lemma RunGoesOn(c: Cluster, run: seq<State>, steps: seq<Step>, st: Step)
    requires IsRun(c, run, steps) && Enabled(c, run[|run| - 1], st)
    ensures IsRun(c, run + [Apply(c, run[|run| - 1], st)], steps + [st])
  {
    var run', steps' := run + [Apply(c, run[|run| - 1], st)], steps + [st];
    forall i {:trigger steps'[i]} | 0 <= i < |steps'|
      ensures Enabled(c, run'[i], steps'[i]) && run'[i + 1] == Apply(c, run'[i], steps'[i])
    {
      if i < |steps| { assert steps'[i] == steps[i]; }
    }
  }

  // ---- The invariant ----

  /** The Lease of `az` when the log was `n` long. */
  function LeaseAt(c: Cluster, log: seq<Commit>, n: nat, az: string): Option<Lease>
    requires n <= |log|
  {
    if n == 0 then Lookup(c.initial, az)
    else if log[n - 1].az == az then log[n - 1].after
    else LeaseAt(c, log, n - 1, az)
  }

  /** What the protocol lets an agent commit. */
  predicate EntryOK(c: Cluster, e: Commit) {
    && e.agent in c.agents
    && (e.before.Some? ==> e.before.value.version < e.stamp)
    && (e.op == Release <==> e.after.None?)
    && (e.op == Release ==> e.before.Some?)
    && (e.before.Some? ==> if e.op == Acquire then MayAcquire(e.before.value, e.az, Me(c, e.agent), e.time)
                           else HeldBy(e.before.value, e.agent))
    && (e.after.Some? ==> StampedBy(c, e.after.value, e.agent) && e.after.value.version == e.stamp)
  }

  predicate StampedBy(c: Cluster, l: Lease, agent: string)
    requires agent in c.agents
  {
    && HeldBy(l, agent) && l.homeLabel == c.agents[agent].home
    && l.durationSecs == Some(c.agents[agent].durSecs) && l.renewTime.Some?
  }

  /** Every entry was allowed. */
  ghost predicate LogEntries(c: Cluster, log: seq<Commit>, next: nat, clock: int) {
    forall i {:trigger log[i]} :: 0 <= i < |log| ==>
      EntryOK(c, log[i]) && c.firstVersion <= log[i].stamp && log[i].stamp < next && log[i].time <= clock
  }

  /** Entry `i` changed what the entries before it had left. */
  predicate Continues(c: Cluster, log: seq<Commit>, i: nat)
    requires i < |log|
  {
    log[i].before == LeaseAt(c, log, i, log[i].az)
  }

  ghost predicate LogContinues(c: Cluster, log: seq<Commit>) {
    forall i {:trigger Continues(c, log, i)} :: 0 <= i < |log| ==> Continues(c, log, i)
  }

  ghost predicate LogOrdered(log: seq<Commit>) {
    forall i, j {:trigger log[i], log[j]} :: 0 <= i < j < |log| ==>
        log[i].stamp < log[j].stamp && log[i].time <= log[j].time
  }

  ghost predicate LogReplays(c: Cluster, s: State) {
    forall az :: Lookup(s.leases, az) == LeaseAt(c, s.log, |s.log|, az)
  }

  ghost predicate LogInv(c: Cluster, s: State) {
    LogEntries(c, s.log, s.next, s.clock) && LogOrdered(s.log) && LogContinues(c, s.log) && LogReplays(c, s)
  }

  ghost predicate StoreInv(c: Cluster, s: State) {
    && ClusterOK(c) && c.firstVersion <= s.next
    && s.routes.Keys == c.tables.Keys
    && forall az :: az in s.leases ==> LabelOK(c, s.leases[az]) && s.leases[az].version < s.next
  }

  /** A copy of a Lease is what the store holds, if their versions agree. */
  predicate CopyOK(s: State, az: string, l: Lease) {
    l.version < s.next && SameVersionSameLease(Lookup(s.leases, az), Some(l))
  }

  predicate CallOK(c: Cluster, s: State, t: Task, call: Call)
    requires t.agent in c.agents
  {
    && call.me == Me(c, t.agent) && call.az == t.az
    && (call.op == FirstOp(t.goal) || (t.goal == Serve && call.op == Acquire))
    && !call.phase.Returned? && WellPhased(call) && Licensed(call, s.clock)
    && match call.phase
       case Writing(l) => CopyOK(s, t.az, l)
       case Removing(l) => CopyOK(s, t.az, l)
       case Checking(l) => CopyOK(s, t.az, l)
       case _ => true
  }

  /** A task claims only after it committed the Lease of its AZ itself. */
  predicate CommitOK(s: State, id: nat, t: Task, p: int) {
    && (t.goal == Serve || t.goal == Takeover)
    && 0 <= p < |s.log| && s.log[p].task == id && s.log[p].agent == t.agent
    && s.log[p].az == t.az && s.log[p].after.Some?
  }

  predicate TaskOK(c: Cluster, s: State, id: nat, t: Task) {
    && MayStart(c, t.agent, t.az, t.goal)
    && match t.stage
       case Calling(call) => CallOK(c, s, t, call)
       case Discovering(p) => CommitOK(s, id, t, p)
       case Claiming(p, todo) => CommitOK(s, id, t, p) &&
                                 forall i :: 0 <= i < |todo| ==>
                                     todo[i].table in c.tables && c.tables[todo[i].table] == t.az
       case Finished(_) => true
  }

  ghost predicate TasksInv(c: Cluster, s: State) {
    forall id :: id in s.tasks ==> TaskOK(c, s, id, s.tasks[id])
  }

  ghost predicate Inv(c: Cluster, s: State) {
    StoreInv(c, s) && LogInv(c, s) && TasksInv(c, s)
  }

  lemma {:induction false} LeaseAtPrefix(c: Cluster, log: seq<Commit>, e: Commit, n: nat, az: string)
    requires n <= |log|
    ensures LeaseAt(c, log + [e], n, az) == LeaseAt(c, log, n, az)
  {
    if n == 0 {
    } else {
      LeaseAtPrefix(c, log, e, n - 1, az);
    }
  }

  lemma EntriesGrow(c: Cluster, log: seq<Commit>, next: nat, clock: int, e: Commit)
    requires LogEntries(c, log, next, clock) && EntryOK(c, e) && e.stamp == next >= c.firstVersion && e.time == clock
    ensures LogEntries(c, log + [e], next + 1, clock)
  {
    assert forall i :: 0 <= i < |log| ==> (log + [e])[i] == log[i];
  }

  lemma ContinuesGrow(c: Cluster, log: seq<Commit>, e: Commit)
    requires LogContinues(c, log) && e.before == LeaseAt(c, log, |log|, e.az)
    ensures LogContinues(c, log + [e])
  {
    var log' := log + [e];
    forall i | 0 <= i < |log'| ensures Continues(c, log', i) {
      LeaseAtPrefix(c, log, e, i, log'[i].az);
      if i < |log| { assert Continues(c, log, i); }
    }
  }

  lemma OrderedGrows(log: seq<Commit>, e: Commit)
    requires LogOrdered(log)
    requires forall i {:trigger log[i]} :: 0 <= i < |log| ==> log[i].stamp < e.stamp && log[i].time <= e.time
    ensures LogOrdered(log + [e])
  {
    assert forall i :: 0 <= i < |log| ==> (log + [e])[i] == log[i];
  }

  lemma ReplaysGrow(c: Cluster, s: State, s': State, e: Commit)
    requires LogReplays(c, s) && s'.log == s.log + [e] && s'.leases == Put(s.leases, e.az, e.after)
    ensures LogReplays(c, s')
  {
    forall az ensures Lookup(s'.leases, az) == LeaseAt(c, s'.log, |s'.log|, az) {
      LeaseAtPrefix(c, s.log, e, |s.log|, az);
      assert az != e.az ==> Lookup(s'.leases, az) == Lookup(s.leases, az);
    }
  }

  lemma LogGrows(c: Cluster, s: State, s': State, e: Commit)
    requires LogInv(c, s) && s'.log == s.log + [e] && s'.next == s.next + 1 && s'.clock == s.clock
    requires EntryOK(c, e) && e.stamp == s.next && c.firstVersion <= s.next && e.time == s.clock
    requires e.before == Lookup(s.leases, e.az) && s'.leases == Put(s.leases, e.az, e.after)
    ensures LogInv(c, s')
  {
    EntriesGrow(c, s.log, s.next, s.clock, e);
    OrderedGrows(s.log, e);
    ContinuesGrow(c, s.log, e);
    ReplaysGrow(c, s, s', e);
  }

  /** Other tasks are not disturbed by a change that stores a new version. */
  lemma TaskStays(c: Cluster, s: State, s': State, id: nat, t: Task)
    requires TaskOK(c, s, id, t)
    requires s.clock <= s'.clock && s.next <= s'.next && s.log <= s'.log
    requires forall az :: Lookup(s'.leases, az) == Lookup(s.leases, az) ||
                          (Lookup(s'.leases, az).Some? ==> Lookup(s'.leases, az).value.version >= s.next)
    ensures TaskOK(c, s', id, t)
  {
    assert forall az :: Lookup(s'.leases, az) == Lookup(s.leases, az) ||
                          (Lookup(s'.leases, az).Some? ==> Lookup(s'.leases, az).value.version >= s.next);
  }

  /** The exchange with the server that an Ask step is. */
  function ExchangeOf(s: State, id: nat, fault: Fault): Exchange
    requires id in s.tasks && s.tasks[id].stage.Calling? && !s.tasks[id].stage.call.phase.Returned?
  {
    var t := s.tasks[id];
    var before, q := Lookup(s.leases, t.az), RequestOf(t.stage.call);
    var (after, r) := Respond(before, s.next, s.clock, q, fault);
    Exchange(LeaseName(t.az), q, before, s.next, s.clock, fault, after, r)
  }

  lemma AskCommits(c: Cluster, s: State, id: nat, x: Exchange)
    requires StoreInv(c, s) && id in s.tasks && TaskOK(c, s, id, s.tasks[id]) && s.tasks[id].stage.Calling?
    requires var t := s.tasks[id];
             Served(x) && x.request == RequestOf(t.stage.call) && x.before == Lookup(s.leases, t.az) &&
             x.next == s.next && x.clock == s.clock
    ensures var t := s.tasks[id];
            Changes(x) ==> EntryOK(c, Commit(id, t.agent, t.stage.call.op, t.az, x.before, x.after, s.next, s.clock))
    ensures Changes(x) && x.after.Some? ==> LabelOK(c, x.after.value) && x.after.value.version == s.next
  {
  }

  lemma AskKeepsStore(c: Cluster, s: State, id: nat, fault: Fault)
    requires Inv(c, s) && Enabled(c, s, Ask(id, fault))
    ensures StoreInv(c, ApplyAsk(c, s, id, fault))
  {
    assert TaskOK(c, s, id, s.tasks[id]);
    AskCommits(c, s, id, ExchangeOf(s, id, fault));
  }

  lemma AskKeepsLog(c: Cluster, s: State, id: nat, fault: Fault)
    requires Inv(c, s) && Enabled(c, s, Ask(id, fault))
    ensures LogInv(c, ApplyAsk(c, s, id, fault))
  {
    var s', t, x := ApplyAsk(c, s, id, fault), s.tasks[id], ExchangeOf(s, id, fault);
    assert TaskOK(c, s, id, t);
    AskCommits(c, s, id, x);
    assert s'.leases == Put(s.leases, t.az, x.after);
    if Changes(x) {
      LogGrows(c, s, s', Commit(id, t.agent, t.stage.call.op, t.az, x.before, x.after, s.next, s.clock));
    } else {
      assert s'.leases == s.leases;
    }
  }

  /** The asking task itself: a verdict of Held points it at the commit it has just made. */
  lemma AskKeepsTask(c: Cluster, s: State, id: nat, fault: Fault)
    requires Inv(c, s) && Enabled(c, s, Ask(id, fault))
    ensures var s' := ApplyAsk(c, s, id, fault); TaskOK(c, s', id, s'.tasks[id])
  {
    var s', t, x := ApplyAsk(c, s, id, fault), s.tasks[id], ExchangeOf(s, id, fault);
    var call := t.stage.call;
    assert TaskOK(c, s, id, t) && Served(x);
    OneReaction(call, x);
    WriteEndsCall(call, x);
    var d := React(call, x.response);
    assert s'.tasks[id].stage == NextStage(c, t, d, |s'.log|);
    if !d.phase.Returned? {
      assert s'.leases == s.leases && s'.next == s.next;
    } else if d.phase.verdict == Held {
      assert s'.log == s.log + [Commit(id, t.agent, call.op, t.az, x.before, x.after, s.next, s.clock)];
    }
  }

  lemma AskKeepsInv(c: Cluster, s: State, id: nat, fault: Fault)
    requires Inv(c, s) && Enabled(c, s, Ask(id, fault))
    ensures Inv(c, ApplyAsk(c, s, id, fault))
  {
    var s' := ApplyAsk(c, s, id, fault);
    AskKeepsStore(c, s, id, fault);
    AskKeepsLog(c, s, id, fault);
    AskKeepsTask(c, s, id, fault);
    AskOnlyAdds(c, s, id, fault);
    forall k | k in s'.tasks ensures TaskOK(c, s', k, s'.tasks[k]) {
      if k != id {
        TaskStays(c, s, s', k, s.tasks[k]);
      }
    }
  }

  lemma AskOnlyAdds(c: Cluster, s: State, id: nat, fault: Fault)
    requires Inv(c, s) && Enabled(c, s, Ask(id, fault))
    ensures var s' := ApplyAsk(c, s, id, fault);
            s.next <= s'.next && s.log <= s'.log &&
            forall az :: Lookup(s'.leases, az) == Lookup(s.leases, az) ||
                         (Lookup(s'.leases, az).Some? ==> Lookup(s'.leases, az).value.version >= s.next)
  {
    assert TaskOK(c, s, id, s.tasks[id]);
    AskCommits(c, s, id, ExchangeOf(s, id, fault));
  }

  /** The step to s' leaves the Lease store alone and disturbs no task but `id`. */
  ghost predicate QuietFor(c: Cluster, s: State, s': State, id: nat) {
    && s'.log == s.log && s'.leases == s.leases && s'.next == s.next && s'.clock >= s.clock
    && s'.routes.Keys == c.tables.Keys
    && (forall k :: k in s'.tasks && k != id ==> k in s.tasks && s'.tasks[k] == s.tasks[k])
    && (id in s'.tasks ==> TaskOK(c, s', id, s'.tasks[id]) || (id in s.tasks && s'.tasks[id] == s.tasks[id]))
  }

  /** Only task `id`, and possibly route targets, change. */
  lemma OneTaskIsQuiet(c: Cluster, s: State, s': State, id: nat, t: Task, routes: map<string, Target>)
    requires StoreInv(c, s) && s' == s.(tasks := s.tasks[id := t], routes := routes)
    requires routes.Keys == c.tables.Keys && TaskOK(c, s', id, t)
    ensures QuietFor(c, s, s', id)
  {
  }

  lemma ClaimIsQuiet(c: Cluster, s: State, id: nat, fault: Fault)
    requires Inv(c, s) && Enabled(c, s, Claim(id, fault))
    ensures QuietFor(c, s, ApplyClaim(c, s, id, fault), id)
  {
    var s', t := ApplyClaim(c, s, id, fault), s.tasks[id];
    assert TaskOK(c, s, id, t);
    assert t.stage.todo[0].table in c.tables;
    TaskStays(c, s, s', id, t);
    OneTaskIsQuiet(c, s, s', id, s'.tasks[id], s'.routes);
  }

  lemma StartIsQuiet(c: Cluster, s: State, st: Step)
    requires Inv(c, s) && st.Start? && Enabled(c, s, st)
    ensures QuietFor(c, s, Apply(c, s, st), st.id)
  {
    var s' := Apply(c, s, st);
    OneTaskIsQuiet(c, s, s', st.id, s'.tasks[st.id], s.routes);
  }

  lemma DiscoverIsQuiet(c: Cluster, s: State, st: Step)
    requires Inv(c, s) && (st.Discover? || st.Finish?) && Enabled(c, s, st)
    ensures QuietFor(c, s, Apply(c, s, st), st.id)
  {
    var s', t := Apply(c, s, st), s.tasks[st.id];
    assert TaskOK(c, s, st.id, t);
    TaskStays(c, s, s', st.id, t);
    OneTaskIsQuiet(c, s, s', st.id, s'.tasks[st.id], s.routes);
  }

  lemma OtherStepsAreQuiet(c: Cluster, s: State, st: Step)
    requires StoreInv(c, s) && Enabled(c, s, st) && (st.Wait? || st.Drop? || st.ManualClaim? || st.ManualRelease?)
    ensures QuietFor(c, s, Apply(c, s, st), 0)
  {
  }

  lemma QuietKeepsInv(c: Cluster, s: State, s': State, id: nat)
    requires Inv(c, s) && QuietFor(c, s, s', id)
    ensures Inv(c, s')
  {
    forall k | k in s'.tasks ensures TaskOK(c, s', k, s'.tasks[k]) {
      if k in s.tasks && s'.tasks[k] == s.tasks[k] {
        TaskStays(c, s, s', k, s.tasks[k]);
      }
    }
  }

  /** The invariant survives every step of every agent, whatever faults hit its requests. */
  lemma StepKeepsInv(c: Cluster, s: State, st: Step)
    requires Inv(c, s) && Enabled(c, s, st)
    ensures Inv(c, Apply(c, s, st))
  {
    var s' := Apply(c, s, st);
    if st.Ask? {
      AskKeepsInv(c, s, st.id, st.fault);
    } else if st.Claim? {
      ClaimIsQuiet(c, s, st.id, st.fault);
      QuietKeepsInv(c, s, s', st.id);
    } else if st.Start? {
      StartIsQuiet(c, s, st);
      QuietKeepsInv(c, s, s', st.id);
    } else if st.Discover? || st.Finish? {
      DiscoverIsQuiet(c, s, st);
      QuietKeepsInv(c, s, s', st.id);
    } else {
      OtherStepsAreQuiet(c, s, st);
      QuietKeepsInv(c, s, s', 0);
    }
  }

  /** Every state of every run from an initial state satisfies the invariant. */
  lemma {:induction false} RunKeepsInv(c: Cluster, run: seq<State>, steps: seq<Step>, n: nat)
    requires IsRun(c, run, steps) && Inv(c, run[0]) && n < |run|
    ensures Inv(c, run[n])
  {
    if n == 0 {
    } else {
      RunKeepsInv(c, run, steps, n - 1);
      StepKeepsInv(c, run[n - 1], steps[n - 1]);
    }
  }

  lemma InitInv(c: Cluster, s: State)
    requires Init(c, s)
    ensures Inv(c, s)
  {
  }
}

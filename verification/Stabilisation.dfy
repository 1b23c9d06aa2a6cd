/** Convergence: once an AZ's own agent holds a live Lease and nobody else's claim is still in flight,
    one serveOwnAZ without errors points every route table of the AZ at it, and there they stay. */
module Stabilisation {
  import opened Leases
  import opened LeaseCalls
  import opened Protocol
  import opened Safety

  predicate Claims(t: Task) {
    t.stage.Discovering? || t.stage.Claiming?
  }

  /** The own agent holds the Lease, and no task of another agent may write routes of this AZ. */
  ghost predicate Unrivalled(c: Cluster, s: State, az: string, agent: string) {
    && OwnHeld(c, s, az, agent)
    && forall id :: id in s.tasks && s.tasks[id].az == az && s.tasks[id].agent != agent ==> !Claims(s.tasks[id])
  }

  ghost predicate AllPointAt(c: Cluster, s: State, az: string, target: Target) {
    forall t :: t in c.tables && c.tables[t] == az ==> TargetOf(s.routes, t) == target
  }

  ghost predicate Settled(c: Cluster, s: State, az: string, agent: string) {
    Unrivalled(c, s, az, agent) && AllPointAt(c, s, az, Instance(c.agents[agent].instance))
  }

  /** No HTTP claim or release of this AZ's tables. */
  predicate NotManual(c: Cluster, st: Step, az: string) {
    match st
    case ManualClaim(_, t) => t in c.tables && c.tables[t] != az
    case ManualRelease(t, _) => t in c.tables && c.tables[t] != az
    case _ => true
  }

  /** While the Lease is live, an asking rival is turned away. */
  lemma RivalIsTurnedAway(c: Cluster, s: State, st: Step, az: string, agent: string)
    requires Inv(c, s) && Enabled(c, s, st) && st.Ask? && Live(s, az) && OwnHeld(c, s, az, agent)
    requires s.tasks[st.id].az == az && s.tasks[st.id].agent != agent
    ensures !Claims(Apply(c, s, st).tasks[st.id])
  {
    var t, x := s.tasks[st.id], ExchangeOf(s, st.id, st.fault);
    assert TaskOK(c, s, st.id, t);
    OwnStays(c, s, st, az, agent);
    WriteEndsCall(t.stage.call, x);
    assert Lookup(Apply(c, s, st).leases, az) == x.after;
  }

  lemma StaysUnrivalled(c: Cluster, s: State, st: Step, az: string, agent: string)
    requires Inv(c, s) && Enabled(c, s, st) && Unrivalled(c, s, az, agent)
    requires Live(s, az) && az in Apply(c, s, st).leases
    ensures Unrivalled(c, Apply(c, s, st), az, agent)
  {
    var s' := Apply(c, s, st);
    OwnStays(c, s, st, az, agent);
    forall id | id in s'.tasks && s'.tasks[id].az == az && s'.tasks[id].agent != agent
      ensures !Claims(s'.tasks[id])
    {
      RivalStaysOut(c, s, st, az, agent, id);
    }
  }

  lemma RivalStaysOut(c: Cluster, s: State, st: Step, az: string, agent: string, id: nat)
    requires Inv(c, s) && Enabled(c, s, st) && Unrivalled(c, s, az, agent) && Live(s, az)
    requires var s' := Apply(c, s, st); id in s'.tasks && s'.tasks[id].az == az && s'.tasks[id].agent != agent
    ensures !Claims(Apply(c, s, st).tasks[id])
  {
    if st.Ask? && id == st.id {
      RivalIsTurnedAway(c, s, st, az, agent);
    }
  }

  /** In an unrivalled AZ every route write of the AZ points the table at the holder's instance. */
  lemma WritesGoHome(c: Cluster, s: State, st: Step, az: string, agent: string, table: string)
    requires Inv(c, s) && Enabled(c, s, st) && NotManual(c, st, az) && Unrivalled(c, s, az, agent)
    requires table in c.tables && c.tables[table] == az
    ensures var now := TargetOf(Apply(c, s, st).routes, table);
            now == TargetOf(s.routes, table) || now == Instance(c.agents[agent].instance)
  {
    if st.Claim? {
      var t := s.tasks[st.id];
      assert TaskOK(c, s, st.id, t);
      assert c.tables[t.stage.todo[0].table] == t.az;
    }
  }

  /** A settled AZ stays settled through any step of any agent while its Lease is live and kept. */
  lemma StaysSettled(c: Cluster, s: State, st: Step, az: string, agent: string)
    requires Inv(c, s) && Enabled(c, s, st) && NotManual(c, st, az) && Settled(c, s, az, agent)
    requires Live(s, az) && az in Apply(c, s, st).leases
    ensures Settled(c, Apply(c, s, st), az, agent)
  {
    StaysUnrivalled(c, s, st, az, agent);
    forall t | t in c.tables && c.tables[t] == az
      ensures TargetOf(Apply(c, s, st).routes, t) == Instance(c.agents[agent].instance)
    {
      WritesGoHome(c, s, st, az, agent, t);
    }
  }

  /** How far the serving task has got: a table it need not visit any more points home already. */
  ghost predicate Underway(c: Cluster, s: State, az: string, agent: string, id: nat) {
    && agent in c.agents
    && id in s.tasks && s.tasks[id].agent == agent && s.tasks[id].az == az && s.tasks[id].goal == Serve
    && var home := Instance(c.agents[agent].instance);
       match s.tasks[id].stage
       case Claiming(_, todo) =>
         (forall t :: t in c.tables && c.tables[t] == az ==> TargetOf(s.routes, t) == home || Visits(todo, t)) &&
         (forall i :: 0 <= i < |todo| && todo[i].target == home ==> TargetOf(s.routes, todo[i].table) == home)
       case Finished(served) => served ==> AllPointAt(c, s, az, home)
       case _ => true
  }

  ghost predicate Visits(todo: seq<Seen>, table: string) {
    exists i :: 0 <= i < |todo| && todo[i].table == table
  }

  ghost predicate Serving(c: Cluster, s: State, az: string, agent: string, id: nat) {
    Unrivalled(c, s, az, agent) && Underway(c, s, az, agent, id)
  }

  lemma StaysServing(c: Cluster, s: State, st: Step, az: string, agent: string, id: nat)
    requires Inv(c, s) && Enabled(c, s, st) && NotManual(c, st, az) && Serving(c, s, az, agent, id) && st != Drop(id)
    requires Live(s, az) && az in Apply(c, s, st).leases
    ensures Serving(c, Apply(c, s, st), az, agent, id)
  {
    StaysUnrivalled(c, s, st, az, agent);
    if OwnStep(st, id) {
      OwnStepHelps(c, s, st, az, agent, id);
    } else {
      OtherStepHelps(c, s, st, az, agent, id);
    }
  }

  lemma OtherStepHelps(c: Cluster, s: State, st: Step, az: string, agent: string, id: nat)
    requires Inv(c, s) && Enabled(c, s, st) && NotManual(c, st, az) && Serving(c, s, az, agent, id)
    requires !OwnStep(st, id) && st != Drop(id)
    ensures Underway(c, Apply(c, s, st), az, agent, id)
  {
    OtherTaskStays(c, s, st, id);
    var home := Instance(c.agents[agent].instance);
    forall t | t in c.tables && c.tables[t] == az
      ensures TargetOf(s.routes, t) == home ==> TargetOf(Apply(c, s, st).routes, t) == home
    {
      WritesGoHome(c, s, st, az, agent, t);
    }
    OthersHelp(c, s, Apply(c, s, st), az, agent, id);
  }

  lemma OtherTaskStays(c: Cluster, s: State, st: Step, id: nat)
    requires Enabled(c, s, st) && id in s.tasks && !OwnStep(st, id) && st != Drop(id)
    ensures id in Apply(c, s, st).tasks && Apply(c, s, st).tasks[id] == s.tasks[id]
  {
  }

  /** The steps by which the task itself goes on. */
  predicate OwnStep(st: Step, id: nat) {
    (st.Ask? || st.Discover? || st.Claim? || st.Finish?) && st.id == id
  }

  lemma OwnStepHelps(c: Cluster, s: State, st: Step, az: string, agent: string, id: nat)
    requires Inv(c, s) && Enabled(c, s, st) && Underway(c, s, az, agent, id) && OwnStep(st, id)
    ensures Underway(c, Apply(c, s, st), az, agent, id)
  {
    match st
    case Discover(_, _) => Discovered(c, s, st, az, agent, id);
    case Claim(_, _) => ClaimedOne(c, s, st, az, agent, id);
    case _ => AskedOrFinished(c, s, st, az, agent, id);
  }

  lemma Discovered(c: Cluster, s: State, st: Step, az: string, agent: string, id: nat)
    requires Inv(c, s) && Enabled(c, s, st) && Underway(c, s, az, agent, id) && st.Discover? && st.id == id
    ensures Underway(c, Apply(c, s, st), az, agent, id)
  {
    var s' := Apply(c, s, st);
    var todo := s'.tasks[id].stage.todo;
    forall t | t in c.tables && c.tables[t] == az ensures Visits(todo, t) {
      var i :| 0 <= i < |st.order| && st.order[i] == t;
      assert todo[i].table == t;
    }
  }

  lemma ClaimedOne(c: Cluster, s: State, st: Step, az: string, agent: string, id: nat)
    requires Inv(c, s) && Enabled(c, s, st) && Underway(c, s, az, agent, id) && st.Claim? && st.id == id
    ensures Underway(c, Apply(c, s, st), az, agent, id)
  {
    var s' := Apply(c, s, st);
    var todo, home := s.tasks[id].stage.todo, Instance(c.agents[agent].instance);
    if s'.tasks[id].stage.Claiming? {
      var rest := s'.tasks[id].stage.todo;
      assert rest == todo[1..];
      assert TargetOf(s'.routes, todo[0].table) == home;
      forall t | t in c.tables && c.tables[t] == az
        ensures TargetOf(s'.routes, t) == home || Visits(rest, t)
      {
        if TargetOf(s.routes, t) != home {
          var i :| 0 <= i < |todo| && todo[i].table == t;
          assert i > 0 ==> rest[i - 1].table == t;
        }
      }
      forall i | 0 <= i < |rest| && rest[i].target == home ensures TargetOf(s'.routes, rest[i].table) == home {
        assert rest[i] == todo[i + 1];
      }
    }
  }

  /** The serving task asks the server, or ends its loop with nothing left to visit. */
  lemma AskedOrFinished(c: Cluster, s: State, st: Step, az: string, agent: string, id: nat)
    requires Inv(c, s) && Enabled(c, s, st) && Underway(c, s, az, agent, id) && (st.Ask? || st.Finish?) && st.id == id
    ensures Underway(c, Apply(c, s, st), az, agent, id)
  {
    assert TaskOK(c, s, id, s.tasks[id]);
  }

  /** Whatever leaves the tables that point home does not set the task back. */
  lemma OthersHelp(c: Cluster, s: State, s': State, az: string, agent: string, id: nat)
    requires Inv(c, s) && Underway(c, s, az, agent, id) && id in s'.tasks && s'.tasks[id] == s.tasks[id]
    requires var home := Instance(c.agents[agent].instance);
             forall t :: t in c.tables && c.tables[t] == az && TargetOf(s.routes, t) == home ==>
                 TargetOf(s'.routes, t) == home
    ensures Underway(c, s', az, agent, id)
  {
    var t := s.tasks[id];
    assert TaskOK(c, s, id, t);
    if t.stage.Claiming? {
      assert forall i :: 0 <= i < |t.stage.todo| ==> c.tables[t.stage.todo[i].table] == az;
    }
  }

  /** Stabilisation. From a state of any run in which the AZ's own agent holds the Lease, no other
      agent's claim is in flight and task `id` is one of its serveOwnAZ calls, the run goes on with
      any steps of any agents: as long as the Lease is live and kept, nobody claims or releases by hand
      and the task is not aborted, the task's end without error leaves every table of the AZ pointing at
      the holder. */
  lemma {:induction false} ServeSettles(c: Cluster, run: seq<State>, steps: seq<Step>, az: string, agent: string,
                                        id: nat, i: nat, j: nat)
    requires IsRun(c, run, steps) && Init(c, run[0]) && i <= j < |run|
    requires forall k :: i <= k <= j ==> Live(run[k], az)
    requires forall k :: i <= k < j ==> NotManual(c, steps[k], az) && steps[k] != Drop(id)
    requires Serving(c, run[i], az, agent, id)
    ensures Serving(c, run[j], az, agent, id)
    ensures run[j].tasks[id].stage == Finished(true) ==> Settled(c, run[j], az, agent)
  {
    InitInv(c, run[0]);
    if i == j {
    } else {
      ServeSettles(c, run, steps, az, agent, id, i, j - 1);
      RunKeepsInv(c, run, steps, j - 1);
      StaysServing(c, run[j - 1], steps[j - 1], az, agent, id);
    }
  }

  /** A serveOwnAZ that has not read the routes yet may start the stabilisation. */
  lemma ServeMayBegin(c: Cluster, s: State, az: string, agent: string, id: nat)
    requires Unrivalled(c, s, az, agent)
    requires id in s.tasks && s.tasks[id].agent == agent && s.tasks[id].az == az && s.tasks[id].goal == Serve
    requires s.tasks[id].stage.Calling? || s.tasks[id].stage.Discovering?
    ensures Serving(c, s, az, agent, id)
  {
  }

  /** And every later step of any agent keeps it so, while the Lease stays live. */
  lemma {:induction false} SettledForGood(c: Cluster, run: seq<State>, steps: seq<Step>, az: string, agent: string,
                                          i: nat, j: nat)
    requires IsRun(c, run, steps) && Init(c, run[0]) && i <= j < |run|
    requires forall k :: i <= k <= j ==> Live(run[k], az)
    requires forall k :: i <= k < j ==> NotManual(c, steps[k], az)
    requires Settled(c, run[i], az, agent)
    ensures Settled(c, run[j], az, agent)
  {
    InitInv(c, run[0]);
    if i == j {
    } else {
      SettledForGood(c, run, steps, az, agent, i, j - 1);
      RunKeepsInv(c, run, steps, j - 1);
      StaysSettled(c, run[j - 1], steps[j - 1], az, agent);
    }
  }
}

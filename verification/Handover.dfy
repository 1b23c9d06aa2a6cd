/** Handover: when an agent has given up its AZ's Lease, the AZ's standby ends up holding it and claims the
    routes, whatever stand-ins from other AZs did in between. */
module Handover {
  import opened Wrappers
  import opened Leases
  import opened LeaseCalls
  import opened Protocol
  import opened Safety
  import opened Stabilisation

  /** A step of the task `id` itself that no fault hits. */
  predicate Faultless(st: Step, id: nat) {
    match st
    case Ask(i, f) => i == id && f == Calm
    case Discover(i, _) => i == id
    case Claim(i, f) => i == id && f == Calm
    case Finish(i) => i == id
    case _ => false
  }

  /** A step of the task that lets it reach its end: no fault hits it, or it belongs to the Renew. Whatever
      becomes of the Renew, an Acquire follows if it does not give the Lease. */
  predicate Bearable(s: State, st: Step, id: nat) {
    Faultless(st, id) ||
    (st.Ask? && st.id == id && id in s.tasks && s.tasks[id].stage.Calling? && s.tasks[id].stage.call.op == Renew)
  }

  /** A step of somebody else that is not about this AZ's Lease or routes. */
  predicate Elsewhere(c: Cluster, s: State, st: Step, az: string, id: nat)
    requires Enabled(c, s, st)
  {
    match st
    case Wait(_) => true
    case Start(i, _, _, _) => i != id
    case Ask(i, _) => i != id && s.tasks[i].az != az
    case Discover(i, _) => i != id
    case Claim(i, _) => i != id && s.tasks[i].az != az
    case Finish(i) => i != id
    case Drop(i) => i != id
    case ManualClaim(_, t) => c.tables[t] != az
    case ManualRelease(t, _) => c.tables[t] != az
  }

  predicate Undisturbed(c: Cluster, s: State, st: Step, az: string, id: nat)
    requires Enabled(c, s, st)
  {
    Bearable(s, st, id) || Elsewhere(c, s, st, az, id)
  }

  /** The heir's call is on its way to the Lease: what it has seen is what the Lease is. */
  predicate OnTheWay(l: Option<Lease>, call: Call, az: string, heir: string) {
    match call.phase
    case Starting => AwaitsHeir(l, az, heir)
    case Reading => AwaitsHeir(l, az, heir)
    case Checking(seen) => l == Some(seen) && HeldByForeignFailover(seen, az, az)
    case Creating => l.None?
    case Writing(base) => l == Some(base)
    case _ => false
  }

  ghost predicate Inheriting(c: Cluster, s: State, az: string, heir: string, id: nat) {
    && Underway(c, s, az, heir, id) && c.agents[heir].home == az
    && match s.tasks[id].stage
       case Calling(call) => OnTheWay(Lookup(s.leases, az), call, az, heir)
       case Discovering(_) => OwnHeld(c, s, az, heir)
       case Claiming(_, _) => OwnHeld(c, s, az, heir)
       case Finished(served) => served && OwnHeld(c, s, az, heir)
  }

  lemma AskInherits(c: Cluster, s: State, f: Fault, az: string, heir: string, id: nat)
    requires Inv(c, s) && Enabled(c, s, Ask(id, f)) && Inheriting(c, s, az, heir, id) && Bearable(s, Ask(id, f), id)
    ensures Inheriting(c, Apply(c, s, Ask(id, f)), az, heir, id)
  {
    assert TaskOK(c, s, id, s.tasks[id]);
    OwnStepHelps(c, s, Ask(id, f), az, heir, id);
    CallInherits(c, Lookup(s.leases, az), s.next, s.clock, f, s.tasks[id].stage.call, az, heir);
  }

  /** The answer to the call's next request leaves it on its way, or lets it hold the Lease; or it ends a Renew,
      and the Lease still awaits the heir. Only a Renew may meet a fault. */
  lemma CallInherits(c: Cluster, l: Option<Lease>, next: nat, clock: int, f: Fault, call: Call, az: string,
                     heir: string)
    requires heir in c.agents && c.agents[heir].home == az && call.me == Me(c, heir) && call.az == az
    requires OnTheWay(l, call, az, heir) && WellPhased(call) && Licensed(call, clock) && call.op != Release
    requires f == Calm || call.op == Renew
    ensures !call.phase.Returned?
    ensures var (after, r) := Respond(l, next, clock, RequestOf(call), f);
            var d := React(call, r);
            if !d.phase.Returned? then OnTheWay(after, d, az, heir)
            else if d.phase.verdict == Held then after.Some? && HeldBy(after.value, heir)
            else call.op == Renew && AwaitsHeir(after, az, heir)
  {
  }

  lemma ElsewhereLeavesAlone(c: Cluster, s: State, st: Step, az: string, id: nat)
    requires Inv(c, s) && Enabled(c, s, st) && Elsewhere(c, s, st, az, id)
    ensures var s' := Apply(c, s, st);
            && Lookup(s'.leases, az) == Lookup(s.leases, az)
            && (id in s.tasks ==> id in s'.tasks && s'.tasks[id] == s.tasks[id])
            && forall t :: t in c.tables && c.tables[t] == az ==> TargetOf(s'.routes, t) == TargetOf(s.routes, t)
  {
    if st.Claim? {
      ClaimElsewhere(c, s, st, az);
    }
  }

  /** A claim writes a table of its task's AZ. */
  lemma ClaimElsewhere(c: Cluster, s: State, st: Step, az: string)
    requires Inv(c, s) && Enabled(c, s, st) && st.Claim? && s.tasks[st.id].az != az
    ensures forall t :: t in c.tables && c.tables[t] == az ==>
              TargetOf(Apply(c, s, st).routes, t) == TargetOf(s.routes, t)
  {
    assert TaskOK(c, s, st.id, s.tasks[st.id]);
  }

  lemma ClaimInherits(c: Cluster, s: State, st: Step, az: string, heir: string, id: nat)
    requires Inv(c, s) && Enabled(c, s, st) && Inheriting(c, s, az, heir, id) && Faultless(st, id) && !st.Ask?
    ensures Inheriting(c, Apply(c, s, st), az, heir, id)
  {
    OwnStepHelps(c, s, st, az, heir, id);
    assert Apply(c, s, st).leases == s.leases;
  }

  lemma StaysInheriting(c: Cluster, s: State, st: Step, az: string, heir: string, id: nat)
    requires Inv(c, s) && Enabled(c, s, st) && Inheriting(c, s, az, heir, id) && Undisturbed(c, s, st, az, id)
    ensures Inheriting(c, Apply(c, s, st), az, heir, id)
  {
    if st.Ask? && st.id == id {
      AskInherits(c, s, st.fault, az, heir, id);
    } else if Faultless(st, id) {
      ClaimInherits(c, s, st, az, heir, id);
    } else {
      var s' := Apply(c, s, st);
      ElsewhereLeavesAlone(c, s, st, az, id);
      OthersHelp(c, s, s', az, heir, id);
    }
  }

  /** A run in which, from state `i` on, no fault hits the heir's task except during its Renew, and nobody else
      acts on the AZ. */
  ghost predicate UndisturbedFrom(c: Cluster, run: seq<State>, steps: seq<Step>, az: string, id: nat, i: nat) {
    && IsRun(c, run, steps)
    && forall k {:trigger steps[k]} :: i <= k < |steps| ==> Undisturbed(c, run[k], steps[k], az, id)
  }

  lemma {:induction false} InheritsInRun(c: Cluster, run: seq<State>, steps: seq<Step>, az: string, heir: string,
                                         id: nat, i: nat, j: nat)
    requires UndisturbedFrom(c, run, steps, az, id, i) && Inv(c, run[0]) && i <= j < |run|
    requires Inheriting(c, run[i], az, heir, id)
    ensures Inheriting(c, run[j], az, heir, id)
  {
    if i == j {
    } else {
      InheritsInRun(c, run, steps, az, heir, id, i, j - 1);
      RunKeepsInv(c, run, steps, j - 1);
      assert Undisturbed(c, run[j - 1], steps[j - 1], az, id);
      StaysInheriting(c, run[j - 1], steps[j - 1], az, heir, id);
    }
  }

  /** The AZ's Lease has been released, and since then only `heir` and stand-ins from elsewhere have
      committed on it. */
  ghost predicate Bereft(c: Cluster, s: State, az: string, heir: string) {
    && heir in c.agents && c.agents[heir].home == az
    && exists r :: 0 <= r < |s.log| && s.log[r].az == az && LeftToHeir(c, s.log, r, |s.log|, heir)
  }

  lemma HeirMayBegin(c: Cluster, s: State, az: string, heir: string, id: nat)
    requires Inv(c, s) && Bereft(c, s, az, heir) && Enabled(c, s, Start(id, heir, az, Serve))
    ensures Inheriting(c, Apply(c, s, Start(id, heir, az, Serve)), az, heir, id)
  {
    var r :| 0 <= r < |s.log| && s.log[r].az == az && LeftToHeir(c, s.log, r, |s.log|, heir);
    ReleasedLeaseAwaitsHeir(c, s, r, |s.log|, heir);
    assert Lookup(s.leases, az) == LeaseAt(c, s.log, |s.log|, az);
  }

  ghost predicate Inherited(c: Cluster, s: State, az: string, heir: string, id: nat) {
    && id in s.tasks && s.tasks[id].stage == Finished(true)
    && OwnHeld(c, s, az, heir) && AllPointAt(c, s, az, Instance(c.agents[heir].instance))
  }

  /** Handover. In any run, let an AZ's Lease have been released, and let only its heir and stand-ins have
      committed on it since. When a serveOwnAZ (or claiming renewOwnLease) of the heir then starts, and from
      there on nobody else acts on this AZ and no fault hits it, except that its Renew may fail in any way, it
      can only end with the heir holding the Lease and every route table of the AZ pointing at it. */
  lemma HandoverCompletes(c: Cluster, run: seq<State>, steps: seq<Step>, az: string, heir: string, id: nat, i: nat,
                          j: nat)
    requires UndisturbedFrom(c, run, steps, az, id, i + 1) && Init(c, run[0]) && i < j < |run|
    requires Bereft(c, run[i], az, heir) && steps[i] == Start(id, heir, az, Serve)
    ensures id in run[j].tasks
    ensures run[j].tasks[id].stage.Finished? ==> Inherited(c, run[j], az, heir, id)
  {
    InitInv(c, run[0]);
    RunKeepsInv(c, run, steps, i);
    assert Enabled(c, run[i], steps[i]) && run[i + 1] == Apply(c, run[i], steps[i]);
    HeirMayBegin(c, run[i], az, heir, id);
    InheritsInRun(c, run, steps, az, heir, id, i + 1, j);
  }

  // ---- And it does end ----

  lemma {:induction false} SomeOrder(tables: map<string, string>, az: string, todo: set<string>)
      returns (order: seq<string>)
    requires todo <= tables.Keys
    ensures forall i :: 0 <= i < |order| ==> order[i] in tables && tables[order[i]] == az
    ensures forall t :: t in todo && tables[t] == az ==> t in order
    decreases todo
  {
    if todo == {} {
      order := [];
    } else {
      var t :| t in todo;
      order := SomeOrder(tables, az, todo - {t});
      if tables[t] == az {
        order := order + [t];
      }
    }
  }

  /** How far the task still has to go, as a pair that every step of its own decreases. */
  function ToGo(stage: Stage): (nat, nat) {
    match stage
    case Calling(call) =>
      (match call.phase
       case Starting => if call.op == Renew then 9 else 7
       case Reading => if call.op == Renew then 8 else 6
       case Checking(_) => 5
       case _ => 4, 0)
    case Discovering(_) => (3, 0)
    case Claiming(_, todo) => (2, |todo|)
    case Finished(_) => (0, 0)
  }

  predicate Nearer(was: Stage, now: Stage) {
    ToGo(now).0 < ToGo(was).0 || (ToGo(now).0 == ToGo(was).0 && ToGo(now).1 < ToGo(was).1)
  }

  lemma CallGoesOn(l: Option<Lease>, next: nat, clock: int, call: Call, az: string, heir: string)
    requires OnTheWay(l, call, az, heir) && WellPhased(call) && call.op != Release
    ensures !call.phase.Returned?
    ensures var d := React(call, Effect(l, next, clock, RequestOf(call)).1);
            d.phase.Returned? || Nearer(Calling(call), Calling(d))
  {
  }

  lemma AskGoesOn(c: Cluster, s: State, az: string, heir: string, id: nat)
    requires Inv(c, s) && Inheriting(c, s, az, heir, id) && s.tasks[id].stage.Calling?
    ensures Enabled(c, s, Ask(id, Calm))
    ensures Nearer(s.tasks[id].stage, Apply(c, s, Ask(id, Calm)).tasks[id].stage)
  {
    assert TaskOK(c, s, id, s.tasks[id]);
    CallGoesOn(Lookup(s.leases, az), s.next, s.clock, s.tasks[id].stage.call, az, heir);
  }

  lemma NextOwnStep(c: Cluster, s: State, az: string, heir: string, id: nat) returns (st: Step)
    requires Inv(c, s) && Inheriting(c, s, az, heir, id) && !s.tasks[id].stage.Finished?
    ensures Faultless(st, id) && Enabled(c, s, st)
    ensures Nearer(s.tasks[id].stage, Apply(c, s, st).tasks[id].stage)
  {
    match s.tasks[id].stage
    case Calling(_) =>
      AskGoesOn(c, s, az, heir, id);
      st := Ask(id, Calm);
    case Discovering(_) =>
      var order := SomeOrder(c.tables, az, c.tables.Keys);
      st := Discover(id, order);
    case Claiming(_, todo) =>
      st := if todo == [] then Finish(id) else Claim(id, Calm);
  }

  lemma Advance(c: Cluster, s: State, az: string, heir: string, id: nat) returns (st: Step)
    requires Inv(c, s) && Inheriting(c, s, az, heir, id) && !s.tasks[id].stage.Finished?
    ensures Faultless(st, id) && Enabled(c, s, st)
    ensures Inv(c, Apply(c, s, st)) && Inheriting(c, Apply(c, s, st), az, heir, id)
    ensures Nearer(s.tasks[id].stage, Apply(c, s, st).tasks[id].stage)
  {
    st := NextOwnStep(c, s, az, heir, id);
    StepKeepsInv(c, s, st);
    StaysInheriting(c, s, st, az, heir, id);
  }

  /** A run by faultless steps of task `id` alone. */
  ghost predicate FaultlessRun(c: Cluster, s: State, run: seq<State>, steps: seq<Step>, id: nat) {
    IsRun(c, run, steps) && run[0] == s && forall k :: 0 <= k < |steps| ==> Faultless(steps[k], id)
  }

  lemma FaultlessRunGrows(c: Cluster, s: State, st: Step, rest: seq<State>, more: seq<Step>, id: nat)
    requires Enabled(c, s, st) && Faultless(st, id) && FaultlessRun(c, Apply(c, s, st), rest, more, id)
    ensures FaultlessRun(c, s, [s] + rest, [st] + more, id)
    ensures ([s] + rest)[|[s] + rest| - 1] == rest[|rest| - 1]
  {
    RunGrows(c, s, st, rest, more);
  }

  lemma EndIsInherited(c: Cluster, s: State, az: string, heir: string, id: nat)
    requires Inheriting(c, s, az, heir, id) && s.tasks[id].stage.Finished?
    ensures Inherited(c, s, az, heir, id) && FaultlessRun(c, s, [s], [], id)
  {
  }

  /** From anywhere on the way, the heir's own steps alone lead to the end. */
  lemma {:induction false} HeirFinishes(c: Cluster, s: State, az: string, heir: string, id: nat)
      returns (run: seq<State>, steps: seq<Step>)
    requires Inv(c, s) && Inheriting(c, s, az, heir, id)
    ensures FaultlessRun(c, s, run, steps, id) && Inherited(c, run[|run| - 1], az, heir, id)
    decreases ToGo(s.tasks[id].stage).0, ToGo(s.tasks[id].stage).1
  {
    if s.tasks[id].stage.Finished? {
      EndIsInherited(c, s, az, heir, id);
      run, steps := [s], [];
    } else {
      var st := Advance(c, s, az, heir, id);
      var rest, more := HeirFinishes(c, Apply(c, s, st), az, heir, id);
      FaultlessRunGrows(c, s, st, rest, more, id);
      run, steps := [s] + rest, [st] + more;
    }
  }

  /** Every reachable state in which an AZ is left to its heir goes on, by steps of the heir alone, to one
      in which the heir holds the Lease and every route table of the AZ points at it. */
  lemma HeirTakesOver(c: Cluster, run: seq<State>, steps: seq<Step>, n: nat, az: string, heir: string, id: nat)
      returns (ahead: seq<State>, moves: seq<Step>)
    requires IsRun(c, run, steps) && Init(c, run[0]) && n < |run|
    requires Bereft(c, run[n], az, heir) && id !in run[n].tasks
    ensures FaultlessRun(c, Apply(c, run[n], Start(id, heir, az, Serve)), ahead, moves, id)
    ensures Inherited(c, ahead[|ahead| - 1], az, heir, id)
  {
    InitInv(c, run[0]);
    RunKeepsInv(c, run, steps, n);
    HeirMayBegin(c, run[n], az, heir, id);
    StepKeepsInv(c, run[n], Start(id, heir, az, Serve));
    ahead, moves := HeirFinishes(c, Apply(c, run[n], Start(id, heir, az, Serve)), az, heir, id);
  }
}

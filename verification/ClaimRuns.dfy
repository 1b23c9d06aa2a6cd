/** The claim loops of the code and the claim steps of the protocol are the same: whatever ClaimEach and ClaimAll
    do to the account, one discovery and some claims of a serving or standing-in task do to the protocol's routes. */
module ClaimRuns {
  import opened Wrappers
  import P = Protocol
  import E = Ec2
  import R = Reconciler
  import A = AgentLoops

  /** What the protocol sees of a route table. */
  function View(t: E.RouteTable): P.Target {
    if t.instanceId != "" then P.Instance(t.instanceId)
    else if t.natGatewayId != "" then P.Gateway(t.natGatewayId)
    else P.Nowhere
  }

  /** The protocol's routes are those of the account, with the same tables and tags. */
  ghost predicate Matches(c: P.Cluster, s: P.State, tables: seq<E.RouteTable>) {
    && (forall i :: 0 <= i < |tables| ==> Matching(c, s, tables[i]))
    && forall t :: t in c.tables ==> Listed(tables, t)
  }

  predicate Matching(c: P.Cluster, s: P.State, t: E.RouteTable) {
    t.id in c.tables && c.tables[t.id] == t.az && P.TargetOf(s.routes, t.id) == View(t)
  }

  ghost predicate Listed(tables: seq<E.RouteTable>, id: string) {
    exists i :: 0 <= i < |tables| && tables[i].id == id
  }

  function SeenAll(found: seq<E.RouteTable>): seq<P.Seen> {
    seq(|found|, i requires 0 <= i < |found| => P.Seen(found[i].id, View(found[i])))
  }

  /** The task has claimed the first `k` discovered tables. */
  ghost predicate Claimed(c: P.Cluster, s: P.State, tables: seq<E.RouteTable>, id: nat, me: string, k: nat) {
    && id in s.tasks && s.tasks[id].goal == P.Serve && s.tasks[id].agent in c.agents
    && c.agents[s.tasks[id].agent].instance == me != ""
    && var found := E.InAz(tables, s.tasks[id].az);
       && k <= |found| && s.tasks[id].stage.Claiming? && s.tasks[id].stage.todo == SeenAll(found)[k..]
       && Matches(c, s, E.Retarget(tables, R.ClaimGoal(found[..k], me)))
  }

  /** The listing of the account is an order in which the protocol may discover the tables. */
  lemma ListingCovers(c: P.Cluster, s: P.State, tables: seq<E.RouteTable>, az: string)
    requires Matches(c, s, tables)
    ensures P.Covers(c, R.Ids(E.InAz(tables, az)), az)
    ensures forall t :: t in E.InAz(tables, az) ==> Matching(c, s, t)
  {
    var found := E.InAz(tables, az);
    var order := R.Ids(found);
    E.InAzExact(tables, az);
    forall t | t in found ensures Matching(c, s, t) {
      var j :| 0 <= j < |tables| && tables[j] == t;
    }
    forall i | 0 <= i < |order| ensures order[i] in c.tables && c.tables[order[i]] == az {
      assert found[i] in found;
    }
    forall t | t in c.tables && c.tables[t] == az ensures t in order {
      assert Listed(tables, t);
      var i :| 0 <= i < |tables| && tables[i].id == t;
      assert Matching(c, s, tables[i]) && tables[i] in found;
      var k :| 0 <= k < |found| && found[k] == tables[i];
      assert order[k] == t;
    }
  }

  /** Steps that leave the routes leave the match. */
  lemma SameRoutes(c: P.Cluster, s: P.State, s': P.State, tables: seq<E.RouteTable>)
    requires Matches(c, s, tables) && s'.routes == s.routes
    ensures Matches(c, s', tables)
  {
    forall i | 0 <= i < |tables| ensures Matching(c, s', tables[i]) {
      assert Matching(c, s, tables[i]);
    }
  }

  predicate Serves(c: P.Cluster, s: P.State, id: nat, me: string) {
    && id in s.tasks && s.tasks[id].goal == P.Serve && s.tasks[id].agent in c.agents
    && c.agents[s.tasks[id].agent].instance == me != ""
  }

  lemma DiscoveryMatches(c: P.Cluster, s: P.State, tables: seq<E.RouteTable>, id: nat, me: string) returns (st: P.Step)
    requires Matches(c, s, tables) && Serves(c, s, id, me) && s.tasks[id].stage.Discovering?
    ensures st.Discover? && st.id == id && P.Enabled(c, s, st) && Claimed(c, P.Apply(c, s, st), tables, id, me, 0)
    ensures P.Apply(c, s, st).tasks[id].az == s.tasks[id].az
  {
    var found := E.InAz(tables, s.tasks[id].az);
    ListingCovers(c, s, tables, s.tasks[id].az);
    st := P.Discover(id, R.Ids(found));
    var s' := P.Apply(c, s, st);
    var todo := s'.tasks[id].stage.todo;
    forall i | 0 <= i < |todo| ensures todo[i] == SeenAll(found)[i] {
      assert found[i] in found && Matching(c, s, found[i]);
    }
    assert todo == SeenAll(found)[0..];
    assert E.Retarget(tables, R.ClaimGoal(found[..0], me)) == tables;
    SameRoutes(c, s, s', tables);
  }

  /** A write to one table of the account and to the same route. */
  lemma OneWrite(c: P.Cluster, s: P.State, s': P.State, tables: seq<E.RouteTable>, id: string, me: string)
    requires Matches(c, s, tables) && me != "" && s'.routes == s.routes[id := P.Instance(me)]
    ensures Matches(c, s', E.Retarget(tables, map[id := E.ToInstance(me)]))
  {
    var after := E.Retarget(tables, map[id := E.ToInstance(me)]);
    forall i | 0 <= i < |after| ensures Matching(c, s', after[i]) {
      assert Matching(c, s, tables[i]);
    }
    forall t | t in c.tables ensures Listed(after, t) {
      assert Listed(tables, t);
      var i :| 0 <= i < |tables| && tables[i].id == t;
      assert after[i].id == t;
    }
  }

  /** The state after `k` tables, the next one being skipped or claimed. */
  lemma NextGoal(tables: seq<E.RouteTable>, found: seq<E.RouteTable>, me: string, k: nat)
    requires k < |found|
    ensures var before, after := R.ClaimGoal(found[..k], me), R.ClaimGoal(found[..k + 1], me);
            if found[k].instanceId == me then after == before
            else
              E.Retarget(E.Retarget(tables, before), map[found[k].id := E.ToInstance(me)]) == E.Retarget(tables, after)
  {
    assert found[..k + 1][..k] == found[..k];
    E.RetargetTwice(tables, R.ClaimGoal(found[..k], me), found[k].id, E.ToInstance(me));
  }

  /** One claim: it is skipped if the table pointed here already; otherwise it is written, unless it is lost,
      and any fault ends the task. */
  lemma ClaimMatches(c: P.Cluster, s: P.State, tables: seq<E.RouteTable>, id: nat, me: string, k: nat, f: Fault)
    requires Claimed(c, s, tables, id, me, k) && k < |E.InAz(tables, s.tasks[id].az)|
    ensures P.Enabled(c, s, P.Claim(id, f))
    ensures var s' := P.Apply(c, s, P.Claim(id, f));
            var found := E.InAz(tables, s.tasks[id].az);
            && Serves(c, s', id, me) && s'.tasks[id].az == s.tasks[id].az
            && if f == Calm || found[k].instanceId == me then Claimed(c, s', tables, id, me, k + 1)
               else s'.tasks[id].stage == P.Finished(false) &&
                    Matches(c, s', E.Retarget(tables, R.ClaimGoal(found[..if f == Lost then k else k + 1], me)))
  {
    var s' := P.Apply(c, s, P.Claim(id, f));
    var found := E.InAz(tables, s.tasks[id].az);
    var now := E.Retarget(tables, R.ClaimGoal(found[..k], me));
    assert SeenAll(found)[k..][0] == P.Seen(found[k].id, View(found[k]));
    assert SeenAll(found)[k..][1..] == SeenAll(found)[k + 1..];
    NextGoal(tables, found, me, k);
    if found[k].instanceId == me || f == Lost {
      SameRoutes(c, s, s', now);
    } else {
      OneWrite(c, s, s', now, found[k].id, me);
    }
  }

  /** A run by steps of task `id` alone. */
  ghost predicate OwnRun(c: P.Cluster, s: P.State, run: seq<P.State>, steps: seq<P.Step>, id: nat) {
    P.IsRun(c, run, steps) && run[0] == s && forall k :: 0 <= k < |steps| ==> Own(steps[k], id)
  }

  predicate Own(st: P.Step, id: nat) {
    (st.Discover? || st.Claim? || st.Finish?) && st.id == id
  }

  lemma OwnRunGoesOn(c: P.Cluster, s: P.State, run: seq<P.State>, steps: seq<P.Step>, id: nat, st: P.Step)
    requires OwnRun(c, s, run, steps, id) && P.Enabled(c, run[|run| - 1], st) && Own(st, id)
    ensures OwnRun(c, s, run + [P.Apply(c, run[|run| - 1], st)], steps + [st], id)
  {
    P.RunGoesOn(c, run, steps, st);
  }

  lemma OwnRunGrows(c: P.Cluster, s: P.State, st: P.Step, run: seq<P.State>, steps: seq<P.Step>, id: nat)
    requires P.Enabled(c, s, st) && Own(st, id) && OwnRun(c, P.Apply(c, s, st), run, steps, id)
    ensures OwnRun(c, s, [s] + run, [st] + steps, id)
  {
    P.RunGrows(c, s, st, run, steps);
  }

  lemma {:induction false} ClaimsInARow(c: P.Cluster, s: P.State, tables: seq<E.RouteTable>, id: nat, me: string,
                                        n: nat) returns (run: seq<P.State>, steps: seq<P.Step>)
    requires Serves(c, s, id, me) && Claimed(c, s, tables, id, me, 0) && n <= |E.InAz(tables, s.tasks[id].az)|
    ensures OwnRun(c, s, run, steps, id)
    ensures var last := run[|run| - 1]; Claimed(c, last, tables, id, me, n) && last.tasks[id].az == s.tasks[id].az
  {
    if n == 0 {
      run, steps := [s], [];
    } else {
      run, steps := ClaimsInARow(c, s, tables, id, me, n - 1);
      var last := run[|run| - 1];
      ClaimMatches(c, last, tables, id, me, n - 1, Calm);
      OwnRunGoesOn(c, s, run, steps, id, P.Claim(id, Calm));
      run, steps := run + [P.Apply(c, last, P.Claim(id, Calm))], steps + [P.Claim(id, Calm)];
    }
  }

  /** The step that ends the loop: the last one, or a claim that fails. */
  lemma LastStep(c: P.Cluster, s: P.State, tables: seq<E.RouteTable>, after: seq<E.RouteTable>, id: nat, me: string,
                 err: bool, n: nat) returns (st: P.Step)
    requires Serves(c, s, id, me) && R.ClaimedUpTo(tables, E.InAz(tables, s.tasks[id].az), me, after, err, n)
    requires Claimed(c, s, tables, id, me, if err then n - 1 else n)
    ensures Own(st, id) && P.Enabled(c, s, st)
    ensures EndsAt(c, P.Apply(c, s, st), after, id, err)
  {
    var found := E.InAz(tables, s.tasks[id].az);
    if err {
      st := P.Claim(id, if after == E.Retarget(tables, R.ClaimGoal(found[..n], me)) then Applied else Lost);
      ClaimMatches(c, s, tables, id, me, n - 1, st.fault);
    } else {
      assert SeenAll(found)[n..] == [] && found[..n] == found;
      st := P.Finish(id);
      SameRoutes(c, s, P.Apply(c, s, st), after);
    }
  }

  ghost predicate EndsAt(c: P.Cluster, s: P.State, after: seq<E.RouteTable>, id: nat, err: bool) {
    Matches(c, s, after) && id in s.tasks && s.tasks[id].stage == P.Finished(!err)
  }

  lemma ClaimsToTheEnd(c: P.Cluster, s: P.State, tables: seq<E.RouteTable>, after: seq<E.RouteTable>, id: nat,
                       me: string, err: bool, n: nat) returns (run: seq<P.State>, steps: seq<P.Step>)
    requires Serves(c, s, id, me) && Claimed(c, s, tables, id, me, 0)
    requires R.ClaimedUpTo(tables, E.InAz(tables, s.tasks[id].az), me, after, err, n)
    ensures OwnRun(c, s, run, steps, id) && EndsAt(c, run[|run| - 1], after, id, err)
  {
    run, steps := ClaimsInARow(c, s, tables, id, me, if err then n - 1 else n);
    var last := run[|run| - 1];
    var end := LastStep(c, last, tables, after, id, me, err, n);
    OwnRunGoesOn(c, s, run, steps, id, end);
    run, steps := run + [P.Apply(c, last, end)], steps + [end];
  }

  /** However ClaimEach goes, with whatever faults, a serving task of the protocol that has yet to discover
      can go the same way: from routes that match the account before to routes that match it afterwards,
      and it ends served exactly if ClaimEach reports no error. */
  lemma ClaimEachIsARun(c: P.Cluster, s: P.State, tables: seq<E.RouteTable>, after: seq<E.RouteTable>, id: nat,
                        me: string, err: bool, n: nat) returns (run: seq<P.State>, steps: seq<P.Step>)
    requires Matches(c, s, tables) && Serves(c, s, id, me) && s.tasks[id].stage.Discovering?
    requires R.ClaimedUpTo(tables, E.InAz(tables, s.tasks[id].az), me, after, err, n)
    ensures OwnRun(c, s, run, steps, id) && EndsAt(c, run[|run| - 1], after, id, err)
  {
    var st := DiscoveryMatches(c, s, tables, id, me);
    var rest, more := ClaimsToTheEnd(c, P.Apply(c, s, st), tables, after, id, me, err, n);
    OwnRunGrows(c, s, st, rest, more, id);
    run, steps := [s] + rest, [st] + more;
  }

  // ---- Takeovers ----

  predicate StandsIn(c: P.Cluster, s: P.State, id: nat, me: string) {
    && id in s.tasks && s.tasks[id].goal == P.Takeover && s.tasks[id].agent in c.agents
    && c.agents[s.tasks[id].agent].instance == me != ""
  }

  /** The takeover has tried to claim the first `k` discovered tables. */
  ghost predicate Tried(c: P.Cluster, s: P.State, tables: seq<E.RouteTable>, script: seq<E.Turn>, id: nat, me: string,
                        k: nat)
  {
    && StandsIn(c, s, id, me)
    && var found := E.InAz(tables, s.tasks[id].az);
       && k <= |found| && s.tasks[id].stage.Claiming? && s.tasks[id].stage.todo == SeenAll(found)[k..]
       && Matches(c, s, E.Retarget(tables, A.TakeoverGoal(found, k, me, script)))
  }

  lemma TakeoverDiscovers(c: P.Cluster, s: P.State, tables: seq<E.RouteTable>, script: seq<E.Turn>, id: nat, me: string)
      returns (st: P.Step)
    requires Matches(c, s, tables) && StandsIn(c, s, id, me) && s.tasks[id].stage.Discovering?
    ensures st.Discover? && st.id == id && P.Enabled(c, s, st) && Tried(c, P.Apply(c, s, st), tables, script, id, me, 0)
    ensures P.Apply(c, s, st).tasks[id].az == s.tasks[id].az
  {
    var found := E.InAz(tables, s.tasks[id].az);
    ListingCovers(c, s, tables, s.tasks[id].az);
    st := P.Discover(id, R.Ids(found));
    var s' := P.Apply(c, s, st);
    var todo := s'.tasks[id].stage.todo;
    forall i | 0 <= i < |todo| ensures todo[i] == SeenAll(found)[i] {
      assert found[i] in found && Matching(c, s, found[i]);
    }
    assert todo == SeenAll(found)[0..];
    R.RetargetNone(tables);
    SameRoutes(c, s, s', tables);
  }

  /** One claim of a takeover: it is written unless it is lost, and the task goes on whatever becomes of it. */
  lemma TryMatches(c: P.Cluster, s: P.State, tables: seq<E.RouteTable>, script: seq<E.Turn>, id: nat, me: string,
                   k: nat)
    requires Tried(c, s, tables, script, id, me, k) && k < |E.InAz(tables, s.tasks[id].az)|
    ensures var st := P.Claim(id, E.Upcoming(E.After(script, k)).fault);
            P.Enabled(c, s, st) && Tried(c, P.Apply(c, s, st), tables, script, id, me, k + 1) &&
            P.Apply(c, s, st).tasks[id].az == s.tasks[id].az
  {
    var st := P.Claim(id, E.Upcoming(E.After(script, k)).fault);
    var s' := P.Apply(c, s, st);
    var found := E.InAz(tables, s.tasks[id].az);
    var goal := A.TakeoverGoal(found, k, me, script);
    assert SeenAll(found)[k..][0] == P.Seen(found[k].id, View(found[k]));
    assert SeenAll(found)[k..][1..] == SeenAll(found)[k + 1..];
    if st.fault == Lost {
      SameRoutes(c, s, s', E.Retarget(tables, goal));
    } else {
      OneWrite(c, s, s', E.Retarget(tables, goal), found[k].id, me);
      E.RetargetTwice(tables, goal, found[k].id, E.ToInstance(me));
    }
  }

  lemma {:induction false} TriesInARow(c: P.Cluster, s: P.State, tables: seq<E.RouteTable>, script: seq<E.Turn>,
                                       id: nat, me: string, n: nat) returns (run: seq<P.State>, steps: seq<P.Step>)
    requires Tried(c, s, tables, script, id, me, 0) && n <= |E.InAz(tables, s.tasks[id].az)|
    ensures OwnRun(c, s, run, steps, id)
    ensures var last := run[|run| - 1];
            Tried(c, last, tables, script, id, me, n) && last.tasks[id].az == s.tasks[id].az
  {
    if n == 0 {
      run, steps := [s], [];
    } else {
      run, steps := TriesInARow(c, s, tables, script, id, me, n - 1);
      var last := run[|run| - 1];
      var st := P.Claim(id, E.Upcoming(E.After(script, n - 1)).fault);
      TryMatches(c, last, tables, script, id, me, n - 1);
      OwnRunGoesOn(c, s, run, steps, id, st);
      run, steps := run + [P.Apply(c, last, st)], steps + [st];
    }
  }

  lemma TriesToTheEnd(c: P.Cluster, s: P.State, tables: seq<E.RouteTable>, script: seq<E.Turn>, id: nat, me: string)
      returns (run: seq<P.State>, steps: seq<P.Step>)
    requires Tried(c, s, tables, script, id, me, 0)
    ensures OwnRun(c, s, run, steps, id)
    ensures var found := E.InAz(tables, s.tasks[id].az);
            EndsAt(c, run[|run| - 1], E.Retarget(tables, A.TakeoverGoal(found, |found|, me, script)), id, false)
  {
    var found := E.InAz(tables, s.tasks[id].az);
    run, steps := TriesInARow(c, s, tables, script, id, me, |found|);
    var last := run[|run| - 1];
    var end := P.Apply(c, last, P.Finish(id));
    SameRoutes(c, last, end, E.Retarget(tables, A.TakeoverGoal(found, |found|, me, script)));
    OwnRunGoesOn(c, s, run, steps, id, P.Finish(id));
    run, steps := run + [end], steps + [P.Finish(id)];
  }

  /** However the claim loop of a takeover goes, with whatever faults, a takeover of the protocol that has yet to
      discover can go the same way, to its end: from routes that match the account before to routes that match
      what the loop leaves. */
  lemma ClaimAllIsARun(c: P.Cluster, s: P.State, tables: seq<E.RouteTable>, script: seq<E.Turn>, id: nat, me: string)
      returns (run: seq<P.State>, steps: seq<P.Step>)
    requires Matches(c, s, tables) && StandsIn(c, s, id, me) && s.tasks[id].stage.Discovering?
    ensures OwnRun(c, s, run, steps, id)
    ensures var found := E.InAz(tables, s.tasks[id].az);
            EndsAt(c, run[|run| - 1], E.Retarget(tables, A.TakeoverGoal(found, |found|, me, script)), id, false)
  {
    var st := TakeoverDiscovers(c, s, tables, script, id, me);
    var rest, more := TriesToTheEnd(c, P.Apply(c, s, st), tables, script, id, me);
    OwnRunGrows(c, s, st, rest, more, id);
    run, steps := [s] + rest, [st] + more;
  }
}

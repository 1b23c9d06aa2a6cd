/** What the Lease protocol guarantees in every run: one successor per version, no flapping, no theft
    from a healthy owner, and claim windows that exclude each other. */
module Safety {
  import opened Wrappers
  import opened Leases
  import opened LeaseCalls
  import opened Protocol
  import RenewInterval

  // ---- One successor per version ----

  lemma {:induction false} LaterLeaseIsNewer(c: Cluster, s: State, i: nat, n: nat)
    requires LogInv(c, s) && i < n <= |s.log|
    ensures var l := LeaseAt(c, s.log, n, s.log[i].az); l.Some? ==> l.value.version >= s.log[i].stamp
  {
    if s.log[n - 1].az == s.log[i].az {
      assert EntryOK(c, s.log[n - 1]);
      assert i < n - 1 ==> s.log[i].stamp < s.log[n - 1].stamp;
    } else {
      LaterLeaseIsNewer(c, s, i, n - 1);
    }
  }

  /** A race for one version of a Lease has one winner: later commits start from later versions, and an
      absent Lease is created once before it is deleted again. */
  lemma OneSuccessor(c: Cluster, s: State, i: nat, j: nat)
    requires LogInv(c, s) && i < j < |s.log| && s.log[i].az == s.log[j].az
    ensures s.log[i].before.Some? && s.log[j].before.Some? ==>
              s.log[i].before.value.version < s.log[j].before.value.version
    ensures s.log[i].before.None? && s.log[j].before.None? ==>
              exists k :: i < k < j && s.log[k].az == s.log[i].az && s.log[k].op == Release
  {
    LaterLeaseIsNewer(c, s, i, j);
    assert EntryOK(c, s.log[i]) && EntryOK(c, s.log[j]) && Continues(c, s.log, j);
    if s.log[i].before.None? && s.log[j].before.None? {
      DeletedBetween(c, s, i, j);
    }
  }

  lemma {:induction false} DeletedBetween(c: Cluster, s: State, i: nat, n: nat)
    requires LogInv(c, s) && i < n <= |s.log| && s.log[i].after.Some? && LeaseAt(c, s.log, n, s.log[i].az).None?
    ensures exists k :: i < k < n && s.log[k].az == s.log[i].az && s.log[k].op == Release
  {
    var e := s.log[n - 1];
    assert EntryOK(c, e);
    if e.az == s.log[i].az {
      assert i < n - 1 < n && e.op == Release;
    } else {
      DeletedBetween(c, s, i, n - 1);
    }
  }

  // ---- No flapping ----

  predicate Live(s: State, az: string) {
    az in s.leases && !IsExpired(s.leases[az], s.clock)
  }

  /** An agent of this very AZ holds the Lease. */
  predicate OwnHeld(c: Cluster, s: State, az: string, agent: string) {
    && agent in c.agents && c.agents[agent].home == az
    && az in s.leases && HeldBy(s.leases[az], agent) && s.leases[az].homeLabel == az
  }

  predicate HandedOver(s: State, s': State, az: string) {
    az in s.leases && az in s'.leases && s.leases[az].holder != s'.leases[az].holder
  }

  /** A step changes a Lease only by one commit of the asking agent. */
  lemma StepCommits(c: Cluster, s: State, st: Step, az: string)
    requires Inv(c, s) && Enabled(c, s, st)
    ensures var s' := Apply(c, s, st);
            Lookup(s'.leases, az) != Lookup(s.leases, az) ==>
              st.Ask? && |s'.log| == |s.log| + 1 &&
              var e := s'.log[|s.log|];
              e.az == az && e.agent == s.tasks[st.id].agent && EntryOK(c, e) && e.time == s.clock &&
              e.before == Lookup(s.leases, az) && e.after == Lookup(s'.leases, az)
  {
    if st.Ask? {
      assert TaskOK(c, s, st.id, s.tasks[st.id]);
      AskCommits(c, s, st.id, ExchangeOf(s, st.id, st.fault));
    }
  }

  /** A live Lease passes from holder to holder only when its AZ's own agent takes it back from a stand-in. */
  lemma StepHandsOver(c: Cluster, s: State, st: Step, az: string)
    requires Inv(c, s) && Enabled(c, s, st) && Live(s, az)
    ensures var s' := Apply(c, s, st);
            HandedOver(s, s', az) ==>
              && s.leases[az].holder.Some? && s.leases[az].holder.value in c.agents
              && c.agents[s.leases[az].holder.value].home != az
              && s'.leases[az].holder.Some? && s'.leases[az].holder.value in c.agents
              && c.agents[s'.leases[az].holder.value].home == az && s'.leases[az].homeLabel == az
  {
    StepCommits(c, s, st, az);
  }

  /** While it is live and not deleted, a Lease held by an agent of its own AZ stays with that agent,
      and only that agent commits on it. */
  lemma OwnStays(c: Cluster, s: State, st: Step, az: string, agent: string)
    requires Inv(c, s) && Enabled(c, s, st) && Live(s, az) && OwnHeld(c, s, az, agent)
    ensures var s' := Apply(c, s, st);
            && (az in s'.leases ==> OwnHeld(c, s', az, agent))
            && (Lookup(s'.leases, az) != Lookup(s.leases, az) ==> st.Ask? && s.tasks[st.id].agent == agent)
  {
    StepCommits(c, s, st, az);
  }

  lemma {:induction false} OwnStaysInRun(c: Cluster, run: seq<State>, steps: seq<Step>, az: string, agent: string,
                                         p: nat, q: nat)
    requires IsRun(c, run, steps) && Inv(c, run[0]) && p <= q < |run|
    requires forall k :: p <= k <= q ==> Live(run[k], az)
    requires OwnHeld(c, run[p], az, agent)
    ensures OwnHeld(c, run[q], az, agent)
  {
    if p == q {
    } else {
      OwnStaysInRun(c, run, steps, az, agent, p, q - 1);
      RunKeepsInv(c, run, steps, q - 1);
      OwnStays(c, run[q - 1], steps[q - 1], az, agent);
    }
  }

  /** The Lease changes hands from state `p` of the run to the next. */
  predicate HandsOverAt(run: seq<State>, az: string, p: nat) {
    p + 1 < |run| && HandedOver(run[p], run[p + 1], az)
  }

  /** The holder before was a stand-in from another AZ, the holder after is an agent of this AZ. */
  predicate OwnerTakesBack(c: Cluster, run: seq<State>, az: string, p: nat)
    requires HandsOverAt(run, az, p)
  {
    var before, after := run[p].leases[az].holder, run[p + 1].leases[az].holder;
    && before.Some? && before.value in c.agents && c.agents[before.value].home != az
    && after.Some? && after.value in c.agents && c.agents[after.value].home == az
  }

  /** No flapping: while an AZ's Lease is neither deleted nor expired, it changes hands at most once,
      and then from a stand-in of another AZ to an agent of this AZ. */
  lemma NoFlapping(c: Cluster, run: seq<State>, steps: seq<Step>, az: string, i: nat, j: nat)
    requires IsRun(c, run, steps) && Init(c, run[0]) && i <= j < |run|
    requires forall k :: i <= k <= j ==> Live(run[k], az)
    ensures forall p :: i <= p < j && HandsOverAt(run, az, p) ==> OwnerTakesBack(c, run, az, p)
    ensures forall p, q :: i <= p < j && i <= q < j && HandsOverAt(run, az, p) && HandsOverAt(run, az, q) ==> p == q
  {
    InitInv(c, run[0]);
    forall p | i <= p < j && HandsOverAt(run, az, p)
      ensures OwnerTakesBack(c, run, az, p)
      ensures forall q :: p < q < j ==> !HandsOverAt(run, az, q)
    {
      NoneAfter(c, run, steps, az, p, j);
    }
  }

  lemma HandoverIsHome(c: Cluster, run: seq<State>, steps: seq<Step>, az: string, p: nat)
    requires IsRun(c, run, steps) && Inv(c, run[0]) && HandsOverAt(run, az, p) && Live(run[p], az)
    ensures OwnerTakesBack(c, run, az, p)
    ensures var owner := run[p + 1].leases[az].holder; owner.Some? && OwnHeld(c, run[p + 1], az, owner.value)
  {
    RunKeepsInv(c, run, steps, p);
    StepHandsOver(c, run[p], steps[p], az);
  }

  lemma NoneAfter(c: Cluster, run: seq<State>, steps: seq<Step>, az: string, p: nat, j: nat)
    requires IsRun(c, run, steps) && Inv(c, run[0]) && p < j < |run|
    requires forall k :: p <= k <= j ==> Live(run[k], az)
    requires HandsOverAt(run, az, p)
    ensures OwnerTakesBack(c, run, az, p)
    ensures forall q :: p < q < j ==> !HandsOverAt(run, az, q)
  {
    HandoverIsHome(c, run, steps, az, p);
    var owner := run[p + 1].leases[az].holder.value;
    forall q | p < q < j ensures !HandsOverAt(run, az, q) {
      NoneWhileOwned(c, run, steps, az, owner, p + 1, q);
    }
  }

  lemma NoneWhileOwned(c: Cluster, run: seq<State>, steps: seq<Step>, az: string, owner: string, p: nat, q: nat)
    requires IsRun(c, run, steps) && Inv(c, run[0]) && p <= q && q + 1 < |run|
    requires forall k :: p <= k <= q + 1 ==> Live(run[k], az)
    requires OwnHeld(c, run[p], az, owner)
    ensures !HandsOverAt(run, az, q)
  {
    OwnStaysInRun(c, run, steps, az, owner, p, q);
    OwnStaysInRun(c, run, steps, az, owner, p, q + 1);
  }

  // ---- Timing ----

  function TtlOf(c: Cluster, agent: string): int
    requires agent in c.agents
  {
    c.agents[agent].durSecs * SECOND
  }

  /** The agent's commit number `k` wrote a renew time at most `lag` old, and did not give the Lease up. */
  predicate Diligent(e: Commit, lag: int) {
    e.after.Some? && e.after.value.renewTime.Some? && e.after.value.renewTime.value >= e.time - lag
  }

  ghost predicate DiligentSince(log: seq<Commit>, p: nat, n: nat, az: string, agent: string, lag: int) {
    forall k {:trigger log[k]} :: p <= k < n <= |log| && log[k].az == az && log[k].agent == agent ==>
        Diligent(log[k], lag)
  }

  /** From its commit `p` on, an own-AZ agent keeps the Lease for TTL - lag, whatever others try: until
      then every commit on the Lease is its own. Later renewals that write an older renew time do not
      shorten this. */
  lemma {:induction false} HoldsThroughWindow(c: Cluster, s: State, p: nat, n: nat, lag: int)
    requires LogInv(c, s) && p < n <= |s.log|
    requires s.log[p].agent in c.agents && c.agents[s.log[p].agent].home == s.log[p].az
    requires DiligentSince(s.log, p, n, s.log[p].az, s.log[p].agent, lag)
    requires forall k {:trigger s.log[k]} :: p <= k < n ==>
              s.log[k].time <= s.log[p].time + TtlOf(c, s.log[p].agent) - lag
    ensures var l := LeaseAt(c, s.log, n, s.log[p].az);
            l.Some? && StampedBy(c, l.value, s.log[p].agent) && l.value.renewTime.value >= s.log[p].time - lag
    ensures forall k {:trigger s.log[k]} :: p <= k < n && s.log[k].az == s.log[p].az ==>
              s.log[k].agent == s.log[p].agent
  {
    var e := s.log[n - 1];
    assert EntryOK(c, e) && Continues(c, s.log, n - 1) && Diligent(s.log[p], lag);
    if p == n - 1 {
    } else {
      HoldsThroughWindow(c, s, p, n - 1, lag);
      assert e.time >= s.log[p].time;
    }
  }

  /** Two agents of one AZ: after the first one's commit, the second cannot commit before TTL - lag has
      passed, unless the first gives the Lease up. */
  lemma SecondAgentWaits(c: Cluster, s: State, p: nat, q: nat, lag: int)
    requires LogInv(c, s) && p < q < |s.log| && s.log[p].az == s.log[q].az && s.log[p].agent != s.log[q].agent
    requires s.log[p].agent in c.agents && c.agents[s.log[p].agent].home == s.log[p].az
    requires DiligentSince(s.log, p, q, s.log[p].az, s.log[p].agent, lag)
    ensures s.log[q].time > s.log[p].time + TtlOf(c, s.log[p].agent) - lag
  {
    assert EntryOK(c, s.log[q]) && Continues(c, s.log, q);
    assert forall k {:trigger s.log[k]} :: p <= k <= q ==> s.log[k].time <= s.log[q].time;
    if s.log[q].time <= s.log[p].time + TtlOf(c, s.log[p].agent) - lag {
      HoldsThroughWindow(c, s, p, q, lag);
    }
  }

  function CommitOf(t: Task): int
    requires t.stage.Discovering? || t.stage.Claiming?
  {
    t.stage.commit
  }

  /** Which claims count: those at most `width` after their Lease commit, of agents whose commits since then
      wrote renew times at most `lag` old. With `releases` the agent may also have released the Lease since;
      with `standIns` takeovers count as well. */
  datatype Window = Window(width: int, lag: int, releases: bool, standIns: bool)

  ghost predicate KeepsUp(log: seq<Commit>, p: nat, az: string, agent: string, w: Window) {
    forall k {:trigger log[k]} :: p <= k < |log| && log[k].az == az && log[k].agent == agent ==>
      Diligent(log[k], w.lag) || (w.releases && log[k].after.None?)
  }

  /** The task is between its Lease commit and its last route write, and inside the window. */
  ghost predicate InWindow(c: Cluster, s: State, id: nat, w: Window) {
    && id in s.tasks && (s.tasks[id].stage.Discovering? || s.tasks[id].stage.Claiming?)
    && (s.tasks[id].goal == Serve || (w.standIns && s.tasks[id].goal == Takeover))
    && s.tasks[id].agent in c.agents
    && var p := CommitOf(s.tasks[id]);
       0 <= p < |s.log| && s.clock <= s.log[p].time + w.width && KeepsUp(s.log, p, s.tasks[id].az, s.tasks[id].agent, w)
  }

  /** Two tasks are inside the window for one AZ. */
  ghost predicate BothInWindow(c: Cluster, s: State, id1: nat, id2: nat, w: Window) {
    InWindow(c, s, id1, w) && InWindow(c, s, id2, w) && s.tasks[id1].az == s.tasks[id2].az
  }

  /** Whoever writes an own-AZ route within TTL - lag of its commit, and has not released the Lease since,
      holds it at that moment. */
  lemma WriterHoldsLease(c: Cluster, s: State, id: nat, w: Window)
    requires Inv(c, s) && InWindow(c, s, id, w) && !w.releases && !w.standIns
    requires w.width <= TtlOf(c, s.tasks[id].agent) - w.lag
    ensures OwnHeld(c, s, s.tasks[id].az, s.tasks[id].agent)
  {
    var t := s.tasks[id];
    assert TaskOK(c, s, id, t);
    var p := CommitOf(t);
    assert DiligentSince(s.log, p, |s.log|, t.az, t.agent, w.lag);
    assert forall k {:trigger s.log[k]} :: p <= k < |s.log| ==> s.log[k].time <= s.clock;
    HoldsThroughWindow(c, s, p, |s.log|, w.lag);
    assert Lookup(s.leases, t.az) == LeaseAt(c, s.log, |s.log|, t.az);
  }

  /** In no state of any run are two different agents of one AZ inside a window of TTL - lag, if releases
      end it and stand-ins do not count. */
  lemma ClaimWindowsExclude(c: Cluster, run: seq<State>, steps: seq<Step>, n: nat, id1: nat, id2: nat, w: Window)
    requires IsRun(c, run, steps) && Init(c, run[0]) && n < |run|
    requires BothInWindow(c, run[n], id1, id2, w) && !w.releases && !w.standIns
    requires w.width <= TtlOf(c, run[n].tasks[id1].agent) - w.lag
    requires w.width <= TtlOf(c, run[n].tasks[id2].agent) - w.lag
    ensures run[n].tasks[id1].agent == run[n].tasks[id2].agent
  {
    InitInv(c, run[0]);
    RunKeepsInv(c, run, steps, n);
    WriterHoldsLease(c, run[n], id1, w);
    WriterHoldsLease(c, run[n], id2, w);
  }

  /** Since its log entry `from`, the agent committed on the Lease at most `gap` ago. */
  ghost predicate RecentCommit(s: State, from: nat, az: string, agent: string, gap: int) {
    exists m :: from <= m < |s.log| && s.log[m].az == az && s.log[m].agent == agent && s.clock <= s.log[m].time + gap
  }

  /** A Lease that names the diligent agent was renewed no earlier than any commit of that agent. */
  lemma {:induction false} LeaseIsLastCommit(c: Cluster, s: State, from: nat, m: nat, n: nat, agent: string, lag: int)
    requires LogInv(c, s) && from <= m < n <= |s.log| && s.log[m].agent == agent
    requires DiligentSince(s.log, from, |s.log|, s.log[m].az, agent, lag)
    requires var l := LeaseAt(c, s.log, n, s.log[m].az); l.Some? && HeldBy(l.value, agent)
    ensures agent in c.agents
    ensures var l := LeaseAt(c, s.log, n, s.log[m].az);
            l.value.renewTime.Some? && l.value.durationSecs == Some(c.agents[agent].durSecs) &&
            l.value.renewTime.value >= s.log[m].time - lag
  {
    var e := s.log[n - 1];
    assert EntryOK(c, e) && Diligent(s.log[m], lag);
    if e.az == s.log[m].az {
      assert e.time >= s.log[m].time;
    } else {
      LeaseIsLastCommit(c, s, from, m, n - 1, agent, lag);
    }
  }

  /** A healthy owner is never stolen from. Suppose that an agent of this AZ holds the Lease and, from
      log entry `from` on, commits on it at least every `gap`, always with a renew time at most `lag`
      old, and does not release it. If gap + lag is within its TTL, it holds the Lease in every later
      state: every change to the Lease is its own, so no other agent's Acquire ever commits. */
  lemma {:induction false} HealthyOwnerKeepsLease(c: Cluster, run: seq<State>, steps: seq<Step>, az: string,
                                                  agent: string, from: nat, gap: int, lag: int, i: nat, j: nat)
    requires IsRun(c, run, steps) && Init(c, run[0]) && i <= j < |run|
    requires agent in c.agents && gap + lag <= TtlOf(c, agent) && OwnHeld(c, run[i], az, agent)
    requires forall k :: i <= k < j ==> RecentCommit(run[k], from, az, agent, gap)
    requires forall k :: i <= k <= j ==> DiligentSince(run[k].log, from, |run[k].log|, az, agent, lag)
    ensures OwnHeld(c, run[j], az, agent)
    ensures j > i && Lookup(run[j].leases, az) != Lookup(run[j - 1].leases, az) ==>
              steps[j - 1].Ask? && run[j - 1].tasks[steps[j - 1].id].agent == agent
  {
    InitInv(c, run[0]);
    if i == j {
    } else {
      HealthyOwnerKeepsLease(c, run, steps, az, agent, from, gap, lag, i, j - 1);
      RunKeepsInv(c, run, steps, j - 1);
      HealthyStep(c, run[j - 1], steps[j - 1], az, agent, from, gap, lag);
    }
  }

  lemma HealthyStep(c: Cluster, s: State, st: Step, az: string, agent: string, from: nat, gap: int, lag: int)
    requires Inv(c, s) && Enabled(c, s, st) && OwnHeld(c, s, az, agent) && gap + lag <= TtlOf(c, agent)
    requires RecentCommit(s, from, az, agent, gap) && DiligentSince(s.log, from, |s.log|, az, agent, lag)
    requires var s' := Apply(c, s, st); DiligentSince(s'.log, from, |s'.log|, az, agent, lag)
    ensures OwnHeld(c, Apply(c, s, st), az, agent)
    ensures Lookup(Apply(c, s, st).leases, az) != Lookup(s.leases, az) ==> st.Ask? && s.tasks[st.id].agent == agent
  {
    var s' := Apply(c, s, st);
    HealthyIsLive(c, s, az, agent, from, gap, lag);
    OwnStays(c, s, st, az, agent);
    StepCommits(c, s, st, az);
    if Lookup(s'.leases, az) != Lookup(s.leases, az) {
      assert Diligent(s'.log[|s.log|], lag);
    }
  }

  lemma HealthyIsLive(c: Cluster, s: State, az: string, agent: string, from: nat, gap: int, lag: int)
    requires LogInv(c, s) && OwnHeld(c, s, az, agent) && gap + lag <= TtlOf(c, agent)
    requires RecentCommit(s, from, az, agent, gap) && DiligentSince(s.log, from, |s.log|, az, agent, lag)
    ensures Live(s, az)
    ensures from <= |s.log|
  {
    var m :| from <= m < |s.log| && s.log[m].az == az && s.log[m].agent == agent && s.clock <= s.log[m].time + gap;
    assert Lookup(s.leases, az) == LeaseAt(c, s.log, |s.log|, az);
    LeaseIsLastCommit(c, s, from, m, |s.log|, agent, lag);
  }

  /** The same with the configured intervals: from a Lease duration of 2s up, an agent that renews every
      LeaseRenewInterval, with every call committing within `latency` of its start, keeps its Lease. */
  lemma ConfiguredOwnerKeepsLease(c: Cluster, run: seq<State>, steps: seq<Step>, az: string, agent: string,
                                  leaseDuration: int, reconcileInterval: int, latency: int, from: nat, i: nat, j: nat)
    requires IsRun(c, run, steps) && Init(c, run[0]) && i <= j < |run|
    requires agent in c.agents && c.agents[agent].durSecs == RenewInterval.DurSecs(leaseDuration)
    requires leaseDuration >= 2 * SECOND && reconcileInterval > 0 && 0 <= latency
    requires 3 * latency <= RenewInterval.Ttl(leaseDuration) &&
              (leaseDuration < 3 * SECOND ==> 4 * latency <= RenewInterval.Ttl(leaseDuration))
    requires OwnHeld(c, run[i], az, agent)
    requires forall k :: i <= k < j ==>
               RecentCommit(run[k], from, az, agent,
                            RenewInterval.LeaseRenewInterval(leaseDuration, reconcileInterval) + latency)
    requires forall k :: i <= k <= j ==> DiligentSince(run[k].log, from, |run[k].log|, az, agent, latency)
    ensures OwnHeld(c, run[j], az, agent)
    ensures j > i && Lookup(run[j].leases, az) != Lookup(run[j - 1].leases, az) ==>
              steps[j - 1].Ask? && run[j - 1].tasks[steps[j - 1].id].agent == agent
  {
    RenewInterval.RenewalBudget(leaseDuration, reconcileInterval, latency);
    HealthyOwnerKeepsLease(c, run, steps, az, agent, from,
      RenewInterval.LeaseRenewInterval(leaseDuration, reconcileInterval) + latency, latency, i, j);
  }

  /** Since entry `r`, a release, no agent of its AZ but `heir` has committed on the Lease. */
  ghost predicate LeftToHeir(c: Cluster, log: seq<Commit>, r: nat, n: nat, heir: string)
    requires r < n <= |log|
  {
    && log[r].op == Release
    && forall k {:trigger log[k]} :: r < k < n && log[k].az == log[r].az && log[k].agent in c.agents ==>
         log[k].agent == heir || c.agents[log[k].agent].home != log[r].az
  }

  /** After a release, as long as no agent of this AZ but `heir` commits, the Lease is one that `heir`
      may acquire at any time: absent, its own, or a labelled stand-in's. */
  lemma {:induction false} ReleasedLeaseAwaitsHeir(c: Cluster, s: State, r: nat, n: nat, heir: string)
    requires ClusterOK(c) && LogInv(c, s) && r < n <= |s.log| && LeftToHeir(c, s.log, r, n, heir)
    ensures AwaitsHeir(LeaseAt(c, s.log, n, s.log[r].az), s.log[r].az, heir)
  {
    var e := s.log[n - 1];
    assert EntryOK(c, e);
    if r == n - 1 || e.az == s.log[r].az {
    } else {
      ReleasedLeaseAwaitsHeir(c, s, r, n - 1, heir);
    }
  }
}

/** How wide the claim windows of Safety may be. There is no fencing: a claim that is slow to write lands
    after its Lease has gone to another agent of the same AZ. */
module LateWrite {
  import opened Wrappers
  import opened Leases
  import opened LeaseCalls
  import opened Protocol
  import opened Safety

  ghost predicate Reachable(c: Cluster, s: State) {
    exists run, steps :: IsRun(c, run, steps) && Init(c, run[0]) && run[|run| - 1] == s
  }

  lemma ReachesNext(c: Cluster, s: State, st: Step)
    requires Reachable(c, s) && Enabled(c, s, st)
    ensures Reachable(c, Apply(c, s, st))
  {
    var run, steps :| IsRun(c, run, steps) && Init(c, run[0]) && run[|run| - 1] == s;
    RunGoesOn(c, run, steps, st);
    var run', steps' := run + [Apply(c, s, st)], steps + [st];
    assert IsRun(c, run', steps') && run'[0] == run[0] && run'[|run'| - 1] == Apply(c, s, st);
  }

  /** Wherever every agent writes a TTL of at least `durSecs`, no two agents are ever both in the window. */
  ghost predicate WindowsExclude(durSecs: nat, w: Window) {
    forall c, s, id1, id2 ::
      Reachable(c, s) && TtlAtLeast(c, durSecs) && BothInWindow(c, s, id1, id2, w) ==>
        s.tasks[id1].agent == s.tasks[id2].agent
  }

  ghost predicate TtlAtLeast(c: Cluster, durSecs: nat) {
    forall a :: a in c.agents ==> c.agents[a].durSecs >= durSecs
  }

  // ---- First run: a window wider than TTL - lag ----

  /** Two agents of one AZ with one route table. */
  function Pair(durSecs: nat): Cluster {
    Cluster(map["a" := Agent("z", durSecs, "i-a"), "b" := Agent("z", durSecs, "i-b")], map["rtb" := "z"], map[], 0)
  }

  const START := State(0, map[], 0, map["rtb" := Nowhere], map[], [])

  function MeA(durSecs: nat): Ident { Ident("a", "z", durSecs) }
  function MeB(durSecs: nat): Ident { Ident("b", "z", durSecs) }

  /** The first instant, from `lag` on, at which a Lease renewed at 0 is expired. */
  function Expiry(durSecs: nat, lag: nat): nat {
    if lag > durSecs * SECOND then lag else durSecs * SECOND + 1
  }

  function LeaseA(durSecs: nat): Lease { Lease(Some("a"), Some(0), Some(durSecs), "z", true, 0) }

  function LeaseB(durSecs: nat, lag: nat): Lease {
    Lease(Some("b"), Some(Expiry(durSecs, lag)), Some(durSecs), "z", true, 1)
  }

  function CommitA(durSecs: nat, lag: nat): Commit {
    Commit(0, "a", Renew, "z", None, Some(LeaseA(durSecs)), 0, lag)
  }

  function CommitB(durSecs: nat, lag: nat): Commit {
    Commit(1, "b", Acquire, "z", Some(LeaseA(durSecs)), Some(LeaseB(durSecs, lag)), 1, Expiry(durSecs, lag))
  }

  /** Agent a has read the clock at 0, created the Lease `lag` later, and has yet to claim. */
  ghost predicate Created(durSecs: nat, lag: nat, s: State) {
    && Reachable(Pair(durSecs), s) && s.leases == map["z" := LeaseA(durSecs)] && s.next == 1
    && s.log == [CommitA(durSecs, lag)] && s.routes == map["rtb" := Nowhere]
    && 0 in s.tasks && s.tasks[0] == Task("a", "z", Serve, Discovering(0))
  }

  /** Agent a's Renew has come so far, and nothing else has happened. */
  function Renewing(durSecs: nat, phase: Phase): State {
    START.(tasks := map[0 := Task("a", "z", Serve, Calling(Call(Renew, "z", MeA(durSecs), 0, 0, phase)))])
  }

  lemma Starts(durSecs: nat)
    ensures Reachable(Pair(durSecs), Renewing(durSecs, Starting))
  {
    var c := Pair(durSecs);
    assert IsRun(c, [START], []) && Init(c, [START][0]) && [START][|[START]| - 1] == START;
    ReachesNext(c, START, Start(0, "a", "z", Serve));
    assert Apply(c, START, Start(0, "a", "z", Serve)) == Renewing(durSecs, Starting);
  }

  lemma ReadsClock(durSecs: nat)
    ensures Reachable(Pair(durSecs), Renewing(durSecs, Reading))
  {
    var c := Pair(durSecs);
    Starts(durSecs);
    ReachesNext(c, Renewing(durSecs, Starting), Ask(0, Calm));
    assert Apply(c, Renewing(durSecs, Starting), Ask(0, Calm)) == Renewing(durSecs, Reading);
  }

  lemma FindsNothing(durSecs: nat)
    ensures Reachable(Pair(durSecs), Renewing(durSecs, Creating))
  {
    var c := Pair(durSecs);
    ReadsClock(durSecs);
    ReachesNext(c, Renewing(durSecs, Reading), Ask(0, Calm));
    assert Apply(c, Renewing(durSecs, Reading), Ask(0, Calm)) == Renewing(durSecs, Creating);
  }

  lemma CreatesLate(durSecs: nat, lag: nat) returns (s: State)
    ensures Created(durSecs, lag, s) && s.clock == lag && s.tasks.Keys == {0}
  {
    var c := Pair(durSecs);
    FindsNothing(durSecs);
    s := Renewing(durSecs, Creating);
    ReachesNext(c, s, Wait(lag));
    s := Apply(c, s, Wait(lag));
    ReachesNext(c, s, Ask(0, Calm));
    s := Apply(c, s, Ask(0, Calm));
    assert s.tasks[0].stage == Discovering(0);
  }

  /** The Lease expires, and agent b of the same AZ begins to renew it. */
  lemma Expires(durSecs: nat, lag: nat) returns (s: State)
    ensures Created(durSecs, lag, s) && s.clock == Expiry(durSecs, lag)
    ensures 1 in s.tasks && s.tasks[1] == Task("b", "z", Serve, Calling(Begin(Renew, "z", MeB(durSecs))))
  {
    var c := Pair(durSecs);
    s := CreatesLate(durSecs, lag);
    var delay := Expiry(durSecs, lag) - lag;
    ReachesNext(c, s, Wait(delay));
    s := Apply(c, s, Wait(delay));
    ReachesNext(c, s, Start(1, "b", "z", Serve));
    s := Apply(c, s, Start(1, "b", "z", Serve));
  }

  /** It finds that it cannot. */
  lemma Refused(durSecs: nat, lag: nat) returns (s: State)
    ensures Created(durSecs, lag, s) && s.clock == Expiry(durSecs, lag)
    ensures 1 in s.tasks && s.tasks[1] == Task("b", "z", Serve, Calling(Begin(Acquire, "z", MeB(durSecs))))
  {
    var c := Pair(durSecs);
    s := Expires(durSecs, lag);
    ReachesNext(c, s, Ask(1, Calm));
    s := Apply(c, s, Ask(1, Calm));
    assert s.tasks[1].stage == Calling(Call(Renew, "z", MeB(durSecs), s.clock, 0, Reading));
    ReachesNext(c, s, Ask(1, Calm));
    s := Apply(c, s, Ask(1, Calm));
    assert s.tasks[1].stage == Calling(Begin(Acquire, "z", MeB(durSecs)));
  }

  /** Agent b has acquired the expired Lease instead, and both agents are about to claim. */
  ghost predicate Overlapping(durSecs: nat, lag: nat, s: State) {
    && Reachable(Pair(durSecs), s) && s.clock == Expiry(durSecs, lag)
    && s.leases == map["z" := LeaseB(durSecs, lag)]
    && s.log == [CommitA(durSecs, lag), CommitB(durSecs, lag)] && s.routes == map["rtb" := Nowhere]
    && 0 in s.tasks && s.tasks[0] == Task("a", "z", Serve, Discovering(0))
    && 1 in s.tasks && s.tasks[1] == Task("b", "z", Serve, Discovering(1))
  }

  lemma Checks(durSecs: nat, lag: nat) returns (s: State)
    ensures Created(durSecs, lag, s) && s.clock == Expiry(durSecs, lag) && 1 in s.tasks
    ensures s.tasks[1].stage == Calling(Call(Acquire, "z", MeB(durSecs), s.clock, 0, Checking(LeaseA(durSecs))))
    ensures s.tasks[1] == Task("b", "z", Serve, s.tasks[1].stage)
  {
    var c := Pair(durSecs);
    s := Refused(durSecs, lag);
    ReachesNext(c, s, Ask(1, Calm));
    s := Apply(c, s, Ask(1, Calm));
    assert s.tasks[1].stage == Calling(Call(Acquire, "z", MeB(durSecs), s.clock, 0, Reading));
    ReachesNext(c, s, Ask(1, Calm));
    s := Apply(c, s, Ask(1, Calm));
  }

  lemma MayOvertake(durSecs: nat, lag: nat) returns (s: State)
    ensures Created(durSecs, lag, s) && s.clock == Expiry(durSecs, lag) && 1 in s.tasks
    ensures s.tasks[1].stage == Calling(Call(Acquire, "z", MeB(durSecs), s.clock, 0, Writing(LeaseA(durSecs))))
    ensures s.tasks[1] == Task("b", "z", Serve, s.tasks[1].stage)
  {
    var c := Pair(durSecs);
    s := Checks(durSecs, lag);
    ReachesNext(c, s, Ask(1, Calm));
    s := Apply(c, s, Ask(1, Calm));
    assert s.leases == map["z" := LeaseA(durSecs)];
  }

  lemma Overtakes(durSecs: nat, lag: nat) returns (s: State)
    ensures Overlapping(durSecs, lag, s)
  {
    var c := Pair(durSecs);
    s := MayOvertake(durSecs, lag);
    ReachesNext(c, s, Ask(1, Calm));
    s := Apply(c, s, Ask(1, Calm));
    assert s.tasks[1].stage == Discovering(1);
    assert s.leases == map["z" := LeaseB(durSecs, lag)];
  }

  /** Both agents are then inside any window that is wide enough, and both have been diligent. */
  lemma OverlapIsInWindow(durSecs: nat, w: Window, s: State)
    requires w.lag >= 0 && Overlapping(durSecs, w.lag, s) && w.width >= 0 && w.width > durSecs * SECOND - w.lag
    ensures BothInWindow(Pair(durSecs), s, 0, 1, w)
  {
    assert s.log[0] == CommitA(durSecs, w.lag) && s.log[1] == CommitB(durSecs, w.lag);
  }

  // ---- Second run: a release while a claim is still due ----

  /** Agent a's node is being drained: its own release takes away the Lease that its claim goes by, and agent
      b of the same AZ creates the Lease anew. All of this happens at one instant. */
  function ReleaseA(durSecs: nat): Commit {
    Commit(1, "a", Release, "z", Some(LeaseA(durSecs)), None, 1, 0)
  }

  function SuccessorLease(durSecs: nat): Lease { Lease(Some("b"), Some(0), Some(durSecs), "z", true, 2) }

  function SuccessorCommit(durSecs: nat): Commit {
    Commit(2, "b", Renew, "z", None, Some(SuccessorLease(durSecs)), 2, 0)
  }

  lemma Drains(durSecs: nat) returns (s: State)
    ensures Created(durSecs, 0, s) && s.clock == 0 && s.tasks.Keys == {0, 1}
    ensures s.tasks[1] ==
              Task("a", "z", StandDown, Calling(Call(Release, "z", MeA(durSecs), 0, 0, Removing(LeaseA(durSecs)))))
  {
    var c := Pair(durSecs);
    s := CreatesLate(durSecs, 0);
    ReachesNext(c, s, Start(1, "a", "z", StandDown));
    s := Apply(c, s, Start(1, "a", "z", StandDown));
    ReachesNext(c, s, Ask(1, Calm));
    s := Apply(c, s, Ask(1, Calm));
    assert s.leases == map["z" := LeaseA(durSecs)];
  }

  lemma StandsDown(durSecs: nat) returns (s: State)
    ensures Reachable(Pair(durSecs), s) && s.clock == 0 && s.leases == map[] && s.next == 2
    ensures s.log == [CommitA(durSecs, 0), ReleaseA(durSecs)] && s.routes == map["rtb" := Nowhere]
    ensures s.tasks.Keys == {0, 1} && s.tasks[0] == Task("a", "z", Serve, Discovering(0))
  {
    var c := Pair(durSecs);
    s := Drains(durSecs);
    ReachesNext(c, s, Ask(1, Calm));
    s := Apply(c, s, Ask(1, Calm));
    assert s.leases == map[];
  }

  lemma FindsItGone(durSecs: nat) returns (s: State)
    ensures Reachable(Pair(durSecs), s) && s.clock == 0 && s.leases == map[] && s.next == 2
    ensures s.log == [CommitA(durSecs, 0), ReleaseA(durSecs)] && s.routes == map["rtb" := Nowhere]
    ensures 0 in s.tasks && s.tasks[0] == Task("a", "z", Serve, Discovering(0))
    ensures 2 in s.tasks
    ensures s.tasks[2] == Task("b", "z", Serve, Calling(Call(Renew, "z", MeB(durSecs), 0, 0, Creating)))
  {
    var c := Pair(durSecs);
    s := StandsDown(durSecs);
    ReachesNext(c, s, Start(2, "b", "z", Serve));
    s := Apply(c, s, Start(2, "b", "z", Serve));
    ReachesNext(c, s, Ask(2, Calm));
    s := Apply(c, s, Ask(2, Calm));
    assert s.tasks[2].stage == Calling(Call(Renew, "z", MeB(durSecs), 0, 0, Reading));
    assert s.leases == map[];
    ReachesNext(c, s, Ask(2, Calm));
    s := Apply(c, s, Ask(2, Calm));
    assert s.leases == map[];
  }

  lemma Succeeds(durSecs: nat) returns (s: State)
    ensures Reachable(Pair(durSecs), s) && s.clock == 0 && s.leases == map["z" := SuccessorLease(durSecs)]
    ensures s.log == [CommitA(durSecs, 0), ReleaseA(durSecs), SuccessorCommit(durSecs)]
    ensures s.routes == map["rtb" := Nowhere]
    ensures 0 in s.tasks && s.tasks[0] == Task("a", "z", Serve, Discovering(0))
    ensures 2 in s.tasks && s.tasks[2] == Task("b", "z", Serve, Discovering(2))
  {
    var c := Pair(durSecs);
    s := FindsItGone(durSecs);
    ReachesNext(c, s, Ask(2, Calm));
    s := Apply(c, s, Ask(2, Calm));
    assert s.tasks[2].stage == Discovering(2);
    assert s.leases == map["z" := SuccessorLease(durSecs)];
  }

  lemma ReleasedIsInWindow(durSecs: nat, w: Window) returns (s: State)
    requires w.width >= 0 && w.lag >= 0 && w.releases
    ensures Reachable(Pair(durSecs), s) && BothInWindow(Pair(durSecs), s, 0, 2, w)
    ensures s.tasks[0].agent != s.tasks[2].agent
  {
    s := Succeeds(durSecs);
    assert s.log[0] == CommitA(durSecs, 0) && s.log[1] == ReleaseA(durSecs) && s.log[2] == SuccessorCommit(durSecs);
  }

  // ---- Third run: a stand-in whose claim is still due when the owner comes back ----

  /** Agent b runs in another AZ. */
  function Strangers(durSecs: nat): Cluster {
    Cluster(map["a" := Agent("z", durSecs, "i-a"), "b" := Agent("y", durSecs, "i-b")], map["rtb" := "z"], map[], 0)
  }

  function Stranger(durSecs: nat): Ident { Ident("b", "y", durSecs) }

  function StandInLease(durSecs: nat): Lease { Lease(Some("b"), Some(0), Some(durSecs), "y", true, 0) }

  function StandInCommit(durSecs: nat): Commit {
    Commit(0, "b", Acquire, "z", None, Some(StandInLease(durSecs)), 0, 0)
  }

  function OwnerLease(durSecs: nat): Lease { Lease(Some("a"), Some(0), Some(durSecs), "z", true, 1) }

  function OwnerCommit(durSecs: nat): Commit {
    Commit(1, "a", Acquire, "z", Some(StandInLease(durSecs)), Some(OwnerLease(durSecs)), 1, 0)
  }

  /** Agent b's Acquire has come so far, and nothing else has happened. */
  function Acquiring(durSecs: nat, phase: Phase): State {
    START.(tasks := map[0 := Task("b", "z", Takeover, Calling(Call(Acquire, "z", Stranger(durSecs), 0, 0, phase)))])
  }

  lemma StepsIn(durSecs: nat)
    ensures Reachable(Strangers(durSecs), Acquiring(durSecs, Starting))
  {
    var c := Strangers(durSecs);
    assert IsRun(c, [START], []) && Init(c, [START][0]) && [START][|[START]| - 1] == START;
    ReachesNext(c, START, Start(0, "b", "z", Takeover));
    assert Apply(c, START, Start(0, "b", "z", Takeover)) == Acquiring(durSecs, Starting);
  }

  lemma FindsNoLease(durSecs: nat)
    ensures Reachable(Strangers(durSecs), Acquiring(durSecs, Creating))
  {
    var c := Strangers(durSecs);
    StepsIn(durSecs);
    ReachesNext(c, Acquiring(durSecs, Starting), Ask(0, Calm));
    assert Apply(c, Acquiring(durSecs, Starting), Ask(0, Calm)) == Acquiring(durSecs, Reading);
    ReachesNext(c, Acquiring(durSecs, Reading), Ask(0, Calm));
    assert Apply(c, Acquiring(durSecs, Reading), Ask(0, Calm)) == Acquiring(durSecs, Creating);
  }

  /** The stand-in has the Lease and has yet to claim. */
  ghost predicate StandingIn(durSecs: nat, s: State) {
    && Reachable(Strangers(durSecs), s) && s.clock == 0 && s.leases == map["z" := StandInLease(durSecs)] && s.next == 1
    && s.log == [StandInCommit(durSecs)] && s.routes == map["rtb" := Nowhere]
    && 0 in s.tasks && s.tasks[0] == Task("b", "z", Takeover, Discovering(0))
  }

  lemma OwnerReturns(durSecs: nat) returns (s: State)
    ensures StandingIn(durSecs, s)
    ensures 1 in s.tasks && s.tasks[1] == Task("a", "z", Serve, Calling(Begin(Renew, "z", MeA(durSecs))))
  {
    var c := Strangers(durSecs);
    FindsNoLease(durSecs);
    s := Acquiring(durSecs, Creating);
    ReachesNext(c, s, Ask(0, Calm));
    s := Apply(c, s, Ask(0, Calm));
    assert s.tasks[0].stage == Discovering(0);
    ReachesNext(c, s, Start(1, "a", "z", Serve));
    s := Apply(c, s, Start(1, "a", "z", Serve));
  }

  lemma OwnerMayNotRenew(durSecs: nat) returns (s: State)
    ensures StandingIn(durSecs, s)
    ensures 1 in s.tasks && s.tasks[1] == Task("a", "z", Serve, Calling(Begin(Acquire, "z", MeA(durSecs))))
  {
    var c := Strangers(durSecs);
    s := OwnerReturns(durSecs);
    ReachesNext(c, s, Ask(1, Calm));
    s := Apply(c, s, Ask(1, Calm));
    assert s.tasks[1].stage == Calling(Call(Renew, "z", MeA(durSecs), 0, 0, Reading));
    ReachesNext(c, s, Ask(1, Calm));
    s := Apply(c, s, Ask(1, Calm));
    assert s.tasks[1].stage == Calling(Begin(Acquire, "z", MeA(durSecs)));
  }

  lemma OwnerChecks(durSecs: nat) returns (s: State)
    ensures StandingIn(durSecs, s) && 1 in s.tasks
    ensures s.tasks[1].stage == Calling(Call(Acquire, "z", MeA(durSecs), 0, 0, Checking(StandInLease(durSecs))))
    ensures s.tasks[1] == Task("a", "z", Serve, s.tasks[1].stage)
  {
    var c := Strangers(durSecs);
    s := OwnerMayNotRenew(durSecs);
    ReachesNext(c, s, Ask(1, Calm));
    s := Apply(c, s, Ask(1, Calm));
    assert s.tasks[1].stage == Calling(Call(Acquire, "z", MeA(durSecs), 0, 0, Reading));
    ReachesNext(c, s, Ask(1, Calm));
    s := Apply(c, s, Ask(1, Calm));
  }

  lemma MayPreempt(durSecs: nat) returns (s: State)
    ensures StandingIn(durSecs, s) && 1 in s.tasks
    ensures s.tasks[1].stage == Calling(Call(Acquire, "z", MeA(durSecs), 0, 0, Writing(StandInLease(durSecs))))
    ensures s.tasks[1] == Task("a", "z", Serve, s.tasks[1].stage)
  {
    var c := Strangers(durSecs);
    s := OwnerChecks(durSecs);
    ReachesNext(c, s, Ask(1, Calm));
    s := Apply(c, s, Ask(1, Calm));
    assert s.leases == map["z" := StandInLease(durSecs)];
  }

  lemma Preempts(durSecs: nat) returns (s: State)
    ensures Reachable(Strangers(durSecs), s) && s.clock == 0 && s.leases == map["z" := OwnerLease(durSecs)]
    ensures s.log == [StandInCommit(durSecs), OwnerCommit(durSecs)] && s.routes == map["rtb" := Nowhere]
    ensures 0 in s.tasks && s.tasks[0] == Task("b", "z", Takeover, Discovering(0))
    ensures 1 in s.tasks && s.tasks[1] == Task("a", "z", Serve, Discovering(1))
  {
    var c := Strangers(durSecs);
    s := MayPreempt(durSecs);
    ReachesNext(c, s, Ask(1, Calm));
    s := Apply(c, s, Ask(1, Calm));
    assert s.tasks[1].stage == Discovering(1);
    assert s.leases == map["z" := OwnerLease(durSecs)];
  }

  lemma StandInIsInWindow(durSecs: nat, w: Window) returns (s: State)
    requires w.width >= 0 && w.lag >= 0 && w.standIns
    ensures Reachable(Strangers(durSecs), s) && BothInWindow(Strangers(durSecs), s, 0, 1, w)
    ensures s.tasks[0].agent != s.tasks[1].agent
  {
    s := Preempts(durSecs);
    assert s.log[0] == StandInCommit(durSecs) && s.log[1] == OwnerCommit(durSecs);
  }

  // ---- The exact condition ----

  /** For every TTL and every lag: in every run at most one agent of an AZ is inside the window at a time,
      exactly if the window is no wider than TTL - lag, a release ends it and takeovers do not count (or it
      is so narrow that nobody is ever inside). */
  lemma ExactWindow(durSecs: nat, w: Window)
    requires w.lag >= 0
    ensures WindowsExclude(durSecs, w) <==>
              w.width < 0 || (!w.releases && !w.standIns && w.width <= durSecs * SECOND - w.lag)
  {
    if w.width < 0 || (!w.releases && !w.standIns && w.width <= durSecs * SECOND - w.lag) {
      forall c, s, id1, id2 | Reachable(c, s) && TtlAtLeast(c, durSecs) && BothInWindow(c, s, id1, id2, w)
        ensures s.tasks[id1].agent == s.tasks[id2].agent
      {
        NarrowWindowsExclude(c, s, id1, id2, durSecs, w);
      }
    } else if w.releases {
      var s := ReleasedIsInWindow(durSecs, w);
      assert !WindowsExclude(durSecs, w);
    } else if w.standIns {
      var s := StandInIsInWindow(durSecs, w);
      assert !WindowsExclude(durSecs, w);
    } else {
      var s := Overtakes(durSecs, w.lag);
      OverlapIsInWindow(durSecs, w, s);
      assert !WindowsExclude(durSecs, w);
    }
  }

  lemma NarrowWindowsExclude(c: Cluster, s: State, id1: nat, id2: nat, durSecs: nat, w: Window)
    requires Reachable(c, s) && TtlAtLeast(c, durSecs) && BothInWindow(c, s, id1, id2, w)
    requires w.width < 0 || (!w.releases && !w.standIns && w.width <= durSecs * SECOND - w.lag)
    ensures s.tasks[id1].agent == s.tasks[id2].agent
  {
    var run, steps :| IsRun(c, run, steps) && Init(c, run[0]) && run[|run| - 1] == s;
    InitInv(c, run[0]);
    RunKeepsInv(c, run, steps, |run| - 1);
    assert s.log[CommitOf(s.tasks[id1])].time <= s.clock;
    ClaimWindowsExclude(c, run, steps, |run| - 1, id1, id2, w);
  }

  // ---- What the three runs do to the routes ----

  /** Tasks 0 and `id` are about to discover, or to claim, the one table of one AZ. */
  ghost predicate Due(c: Cluster, s: State, id: nat, first: Stage, second: Stage) {
    && Reachable(c, s) && c.tables == map["rtb" := "z"] && s.routes == map["rtb" := Nowhere]
    && 0 in s.tasks && s.tasks[0].stage == first && s.tasks[0].az == "z"
    && id != 0 && id in s.tasks && s.tasks[id] == Task(s.tasks[id].agent, "z", Serve, second)
    && s.tasks[id].agent in c.agents
  }

  lemma FirstDiscovers(c: Cluster, s0: State, id: nat, q: int) returns (s: State)
    requires Due(c, s0, id, Discovering(0), Discovering(q))
    ensures Due(c, s, id, Claiming(0, [Seen("rtb", Nowhere)]), Discovering(q))
    ensures s == s0.(tasks := s.tasks) && s.tasks[id] == s0.tasks[id] && s.tasks[0].agent == s0.tasks[0].agent
  {
    ReachesNext(c, s0, Discover(0, ["rtb"]));
    s := Apply(c, s0, Discover(0, ["rtb"]));
    assert s.tasks[0].stage == Claiming(0, [Seen("rtb", Nowhere)]);
  }

  lemma SecondDiscovers(c: Cluster, s0: State, id: nat, q: int) returns (s: State)
    requires Due(c, s0, id, Claiming(0, [Seen("rtb", Nowhere)]), Discovering(q))
    ensures Due(c, s, id, Claiming(0, [Seen("rtb", Nowhere)]), Claiming(q, [Seen("rtb", Nowhere)]))
    ensures s == s0.(tasks := s.tasks) && s.tasks[id].agent == s0.tasks[id].agent && s.tasks[0] == s0.tasks[0]
  {
    ReachesNext(c, s0, Discover(id, ["rtb"]));
    s := Apply(c, s0, Discover(id, ["rtb"]));
    assert s.tasks[id].stage == Claiming(q, [Seen("rtb", Nowhere)]);
  }

  /** The second task claims while the first is still about to. */
  lemma SecondClaimsFirst(c: Cluster, s0: State, id: nat, q: int) returns (s: State)
    requires Due(c, s0, id, Discovering(0), Discovering(q))
    ensures Reachable(c, s) && s.clock == s0.clock && s.leases == s0.leases
    ensures s.routes == map["rtb" := Instance(c.agents[s0.tasks[id].agent].instance)]
    ensures 0 in s.tasks && s.tasks[0].stage == Claiming(0, [Seen("rtb", Nowhere)])
    ensures s.tasks[0].agent == s0.tasks[0].agent
  {
    s := FirstDiscovers(c, s0, id, q);
    s := SecondDiscovers(c, s, id, q);
    ReachesNext(c, s, Claim(id, Calm));
    s := Apply(c, s, Claim(id, Calm));
  }

  /** In state `s` of a run, agent `holder` of the AZ holds the live Lease and has claimed the route, and the
      next claim of task 0, which takes the run to `s'`, points the route at `taker` instead. */
  ghost predicate TakenAway(c: Cluster, s: State, s': State, holder: string, taker: string) {
    && Reachable(c, s) && Enabled(c, s, Claim(0, Calm)) && s' == Apply(c, s, Claim(0, Calm))
    && OwnHeld(c, s, "z", holder) && Live(s, "z") && TargetOf(s.routes, "rtb") == Instance(c.agents[holder].instance)
    && OwnHeld(c, s', "z", holder) && Live(s', "z") && TargetOf(s'.routes, "rtb") == Instance(taker)
    && taker != c.agents[holder].instance
  }

  /** For every TTL and every lag: a claim that is slow to write lands after the Lease has expired and gone
      to another agent of the AZ. */
  lemma LateWriteWithoutLease(durSecs: nat, lag: nat) returns (s: State, s': State)
    ensures TakenAway(Pair(durSecs), s, s', "b", "i-a")
  {
    var s0 := Overtakes(durSecs, lag);
    s := SecondClaimsFirst(Pair(durSecs), s0, 1, 1);
    s' := Apply(Pair(durSecs), s, Claim(0, Calm));
  }

  /** For every TTL, and at one instant: so does a claim whose own agent has released the Lease meanwhile,
      such as a draining node's, after its replacement has created it anew. */
  lemma LateWriteAfterRelease(durSecs: nat) returns (s: State, s': State)
    ensures TakenAway(Pair(durSecs), s, s', "b", "i-a") && s'.clock == 0
  {
    var s0 := Succeeds(durSecs);
    s := SecondClaimsFirst(Pair(durSecs), s0, 2, 2);
    s' := Apply(Pair(durSecs), s, Claim(0, Calm));
  }

  /** And so does the claim of a stand-in, after the returning owner has preempted it. */
  lemma LateStandIn(durSecs: nat) returns (s: State, s': State)
    ensures TakenAway(Strangers(durSecs), s, s', "a", "i-b") && s'.clock == 0
  {
    var s0 := Preempts(durSecs);
    s := SecondClaimsFirst(Strangers(durSecs), s0, 1, 1);
    s' := Apply(Strangers(durSecs), s, Claim(0, Calm));
  }
}

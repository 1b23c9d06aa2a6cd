/** What the loops of one agent do with its Lease manager and its reconciler (internal/agent/agent.go). */
module AgentLoops {
  import opened Wrappers
  import opened Leases
  import L = LeaseCalls
  import V = LeaseVerdicts
  import opened LeaseManager
  import opened Ec2
  import R = Reconciler

  function LeaseOf(leases: map<string, Lease>, az: string): Option<Lease> {
    Lookup(leases, LeaseName(az))
  }

  /** Only the Lease of `az` may have changed. */
  ghost predicate OnlyLeaseOf(az: string, was: map<string, Lease>, now: map<string, Lease>) {
    forall a :: a != az ==> LeaseOf(now, a) == LeaseOf(was, a)
  }

  lemma OneLeasePut(az: string, was: map<string, Lease>, l: Option<Lease>)
    ensures OnlyLeaseOf(az, was, Put(was, LeaseName(az), l))
  {
    forall a | a != az ensures LeaseName(a) != LeaseName(az) {
      AzRoundTrip(a);
      AzRoundTrip(az);
    }
  }

  predicate MayTake(l: Option<Lease>, az: string, me: Ident, now: int) {
    l.None? || MayAcquire(l.value, az, me, now)
  }

  /** Where the claims of the first `n` tables lead, if the script answers them: a claim that was lost leads
      nowhere. */
  function TakeoverGoal(found: seq<RouteTable>, n: nat, me: string, script: seq<Ec2.Turn>): map<string, Target>
    requires n <= |found|
  {
    if n == 0 then map[]
    else
      var rest := TakeoverGoal(found, n - 1, me, script);
      if Upcoming(After(script, n - 1)).fault == Lost then rest else rest[found[n - 1].id := ToInstance(me)]
  }

  /** A request about the Lease of `az` went out in between. */
  ghost predicate Asked(az: string, before: seq<L.Exchange>, after: seq<L.Exchange>) {
    before <= after && exists k :: |before| <= k < |after| && after[k].key == LeaseName(az)
  }

  lemma AskedBy(az: string, before: seq<L.Exchange>, talk: seq<L.Exchange>)
    requires talk != [] && talk[0].key == LeaseName(az)
    ensures Asked(az, before, before + talk)
  {
    assert (before + talk)[|before|] == talk[0];
  }

  lemma StillAsked(az: string, before: seq<L.Exchange>, mid: seq<L.Exchange>, after: seq<L.Exchange>)
    requires Asked(az, before, mid) && mid <= after
    ensures Asked(az, before, after)
  {
    var k :| |before| <= k < |mid| && mid[k].key == LeaseName(az);
    assert after[k] == mid[k];
  }

  ghost predicate AllAsked(azs: set<string>, before: seq<L.Exchange>, after: seq<L.Exchange>) {
    before <= after && forall az :: az in azs ==> Asked(az, before, after)
  }

  lemma OneMoreAsked(azs: set<string>, before: seq<L.Exchange>, mid: seq<L.Exchange>, after: seq<L.Exchange>,
                     az: string)
    requires AllAsked(azs, before, mid) && Asked(az, mid, after)
    ensures AllAsked(azs + {az}, before, after)
  {
    AskedLater(az, before, mid, after);
    forall a | a in azs ensures Asked(a, before, after) {
      StillAsked(a, before, mid, after);
    }
  }

  lemma AskedLater(az: string, before: seq<L.Exchange>, mid: seq<L.Exchange>, after: seq<L.Exchange>)
    requires before <= mid && Asked(az, mid, after)
    ensures Asked(az, before, after)
  {
    var k :| |mid| <= k < |after| && after[k].key == LeaseName(az);
  }

  class Agent {
    const mgr: Manager
    const rec: R.Reconciler
    const az: string
    const podName: string
    ghost var won: set<string>   // the AZs whose Lease a takeover of this agent has committed

    ghost predicate Valid()
      reads this, mgr.server, rec, rec.ec2
    {
      && mgr.homeAZ == az == rec.az && mgr.server.Valid() && rec.Valid()
      && rec.foreignOwnedTables.Values <= won && az !in won
    }

    constructor (mgr: Manager, rec: R.Reconciler, podName: string)
      requires mgr.homeAZ == rec.az && mgr.server.Valid() && rec.Valid() && rec.foreignOwnedTables == map[]
      ensures Valid() && this.mgr == mgr && this.rec == rec && az == rec.az && this.podName == podName && won == {}
    {
      this.mgr, this.rec, this.az, this.podName := mgr, rec, rec.az, podName;
      won := {};
    }

    /** What renewing or taking the own Lease does when nobody interferes: it is held, renewed to this instant,
        exactly if this agent may take it, and no other Lease changes. */
    ghost predicate OwnEnsured(was: map<string, Lease>, now: map<string, Lease>, clock: int, held: bool) {
      && held == MayTake(LeaseOf(was, az), az, mgr.Me(podName), clock)
      && now == Put(was, LeaseName(az), LeaseOf(now, az))
      && if held then KeptAlive(LeaseOf(now, az), clock) else now == was
    }

    /** Renews this AZ's Lease, or acquires it when renewing, which comes first, does not give it. */
    method EnsureOwnLease() returns (held: bool, err: bool)
      requires Valid()
      modifies mgr.server
      ensures Valid() && !(held && err)
      ensures held ==> HoldsOwnLease()
      ensures !held ==> mgr.Completed(L.Acquire, az, podName, if err then L.Error else L.NotHeld)
      ensures mgr.server.Begun().op == L.Acquire ==> old(mgr.server.past + mgr.server.talk) < mgr.server.past
      ensures Asked(az, old(mgr.server.past + mgr.server.talk), mgr.server.past + mgr.server.talk)
      ensures old(mgr.server.world) == [] ==>
                && !err && mgr.server.world == [] && mgr.server.clock == old(mgr.server.clock)
                && OwnEnsured(old(mgr.server.leases), mgr.server.leases, mgr.server.clock, held)
    {
      ghost var sent := mgr.server.past + mgr.server.talk;
      var renewErr;
      held, renewErr := RenewLeaseOf(az);
      if held {
        return true, false;
      }
      held, err := AcquireOwn();
      StillAsked(az, sent, mgr.server.past, mgr.server.past + mgr.server.talk);
    }

    /** A Renew of some AZ's Lease by this agent. When nobody interferes, it holds the Lease and has renewed it
        to this instant exactly if nobody else held it. */
    method RenewLeaseOf(other: string) returns (ok: bool, err: bool)
      requires Valid()
      modifies mgr.server
      ensures Valid() && mgr.server.past == old(mgr.server.past + mgr.server.talk)
      ensures !(ok && err) &&
                mgr.Completed(L.Renew, other, podName, if ok then L.Held else if err then L.Error else L.NotHeld)
      ensures Asked(other, mgr.server.past, mgr.server.past + mgr.server.talk)
      ensures old(mgr.server.world) == [] ==>
                && mgr.server.world == [] && mgr.server.clock == old(mgr.server.clock) && !err
                && mgr.server.leases == Put(old(mgr.server.leases), LeaseName(other), LeaseOf(mgr.server.leases, other))
                && ok == !SomebodyElses(LeaseOf(old(mgr.server.leases), other))
                && if ok then KeptAlive(LeaseOf(mgr.server.leases, other), mgr.server.clock)
                   else mgr.server.leases == old(mgr.server.leases)
    {
      ghost var cur := LeaseOf(mgr.server.leases, other);
      ghost var quiet, leases := mgr.server.world == [], mgr.server.leases;
      ok, err := mgr.Renew(other, podName);
      ghost var verdict := if ok then L.Held else if err then L.Error else L.NotHeld;
      mgr.CompletedAsked(L.Renew, other, podName, verdict);
      AskedBy(other, mgr.server.past, mgr.server.talk);
      if quiet {
        mgr.CompletedAlone(L.Renew, other, podName, verdict);
        Puts(leases, LeaseName(other), cur, cur);
      }
    }

    /** The second half of EnsureOwnLease. */
    method AcquireOwn() returns (held: bool, err: bool)
      requires Valid()
      modifies mgr.server
      ensures Valid() && mgr.server.past == old(mgr.server.past + mgr.server.talk)
      ensures !(held && err) &&
                mgr.Completed(L.Acquire, az, podName, if held then L.Held else if err then L.Error else L.NotHeld)
      ensures old(mgr.server.world) == [] ==>
                && !err && mgr.server.world == [] && mgr.server.clock == old(mgr.server.clock)
                && OwnEnsured(old(mgr.server.leases), mgr.server.leases, mgr.server.clock, held)
    {
      ghost var cur := LeaseOf(mgr.server.leases, az);
      ghost var quiet, leases := mgr.server.world == [], mgr.server.leases;
      held, err := mgr.Acquire(az, podName);
      if quiet {
        mgr.CompletedAlone(L.Acquire, az, podName, if held then L.Held else if err then L.Error else L.NotHeld);
        Puts(leases, LeaseName(az), cur, cur);
      }
    }

    /** The call for the own Lease that ran last has it. */
    ghost predicate HoldsOwnLease()
      reads mgr.server
    {
      mgr.Completed(L.Renew, az, podName, L.Held) || mgr.Completed(L.Acquire, az, podName, L.Held)
    }

    /** The call for the own Lease that ran last has not got it. */
    ghost predicate LacksOwnLease()
      reads mgr.server
    {
      mgr.Completed(L.Acquire, az, podName, L.NotHeld) || mgr.Completed(L.Acquire, az, podName, L.Error)
    }

    /** Serving without an error records every table of the AZ, if there are any, in auto mode; otherwise what
        was recorded stays. */
    ghost predicate OwnedAfter(before: seq<string>, after: seq<string>, tables: seq<RouteTable>, err: bool) {
      after == if err || rec.manual || InAz(tables, az) == [] then before else R.Ids(InAz(tables, az))
    }

    ghost predicate OwnedOrKept(before: seq<string>, after: seq<string>, tables: seq<RouteTable>) {
      after == before || after == R.Ids(InAz(tables, az))
    }

    /** Serves the own AZ while holding its Lease; a failed claim still counts as serving. It renews or takes the
        Lease whatever the books and the mode, and in manual mode leaves the routes alone. */
    method ServeOwnAZ() returns (serving: bool, err: bool)
      requires Valid()
      modifies mgr.server, rec`ownedTables, rec`originalNatGW, rec`rtbVpcID, rec.ec2
      ensures Valid()
      ensures if serving then HoldsOwnLease()
              else mgr.Completed(L.Acquire, az, podName, if err then L.Error else L.NotHeld)
      ensures !serving ==> rec.ec2.tables == old(rec.ec2.tables) && rec.ec2.calls == old(rec.ec2.calls) &&
                           rec.ec2.writes == old(rec.ec2.writes) && rec.ownedTables == old(rec.ownedTables)
      ensures serving ==>
                rec.OwnAsked(old(rec.ec2.tables), old(rec.ec2.script), old(rec.ec2.writes), rec.ec2.writes, err)
      ensures rec.manual ==> rec.ec2.writes == old(rec.ec2.writes) && rec.ec2.tables == old(rec.ec2.tables) &&
                             rec.ownedTables == old(rec.ownedTables)
      ensures rec.OnlyOwnClaims(old(rec.ec2.tables), rec.ec2.tables)
      ensures serving && !err && !rec.manual ==> PointsHome()
      ensures serving ==> OwnedAfter(old(rec.ownedTables), rec.ownedTables, old(rec.ec2.tables), err)
      ensures Asked(az, old(mgr.server.past + mgr.server.talk), mgr.server.past + mgr.server.talk)
      ensures old(mgr.server.world) == [] ==>
                && mgr.server.world == [] && mgr.server.clock == old(mgr.server.clock)
                && OwnEnsured(old(mgr.server.leases), mgr.server.leases, mgr.server.clock, serving)
      ensures old(mgr.server.world) == [] && old(rec.ec2.script) == [] ==> !err
      ensures old(rec.ec2.script) == [] ==> rec.ec2.script == []
    {
      var held;
      held, err := EnsureOwnLease();
      if err {
        return false, true;
      }
      if !held {
        return false, false;
      }
      ghost var tables := rec.ec2.tables;
      err := rec.ClaimOwnRouteTables();
      HomeAfterClaim(tables, err);
      R.ClaimedAzIsOurs(tables, az, rec.instance);
      return true, err;
    }

    /** Every table of the own AZ points at this instance. */
    ghost predicate PointsHome()
      reads rec.ec2
    {
      forall t :: t in rec.ec2.tables && t.az == az ==> t.instanceId == rec.instance
    }

    lemma HomeAfterClaim(tables: seq<RouteTable>, err: bool)
      requires Valid() && DistinctIds(tables)
      requires !err && !rec.manual && InAz(tables, az) != [] ==>
                 rec.ec2.tables == Retarget(tables, R.ClaimGoal(InAz(tables, az), rec.instance))
      requires !err && InAz(tables, az) == [] ==> rec.ec2.tables == tables
      ensures !err && !rec.manual ==> PointsHome()
    {
      R.ClaimedAzIsOurs(tables, az, rec.instance);
      InAzExact(tables, az);
      if !err && !rec.manual {
        forall t | t in rec.ec2.tables && t.az == az ensures t.instanceId == rec.instance {
          var i :| 0 <= i < |rec.ec2.tables| && rec.ec2.tables[i] == t;
        }
      }
    }

    /** The lease loop's step for the own AZ: renews or takes the Lease, whatever the books and the mode, and
        claims at once what it holds without having claimed it.
        Without an error it ends not holding the Lease, or in manual mode, or with recorded tables, or with
        nothing to discover. With tables already recorded, or in manual mode, it makes no EC2 call. When
        nobody interferes, the Lease ends up renewed to this instant if this agent may have it; if nothing
        fails either, a standby with no recorded tables then has every table of the AZ pointing at it. */
    method RenewOwnLease() returns (err: bool)
      requires Valid()
      modifies mgr.server, rec`ownedTables, rec`originalNatGW, rec`rtbVpcID, rec.ec2
      ensures Valid() && (HoldsOwnLease() || LacksOwnLease())
      ensures Asked(az, old(mgr.server.past + mgr.server.talk), mgr.server.past + mgr.server.talk)
      ensures !err ==> mgr.Completed(L.Acquire, az, podName, L.NotHeld) || rec.manual || rec.ownedTables != [] ||
                       InAz(rec.ec2.tables, az) == []
      ensures if HoldsOwnLease() && !rec.manual && old(rec.ownedTables) == [] then
                rec.OwnAsked(old(rec.ec2.tables), old(rec.ec2.script), old(rec.ec2.writes), rec.ec2.writes, err)
              else
                rec.ec2.calls == old(rec.ec2.calls) && rec.ec2.tables == old(rec.ec2.tables) &&
                rec.ec2.writes == old(rec.ec2.writes) && rec.ownedTables == old(rec.ownedTables) &&
                err == mgr.Completed(L.Acquire, az, podName, L.Error)
      ensures old(mgr.server.world) == [] ==>
                && mgr.server.world == [] && mgr.server.clock == old(mgr.server.clock)
                && OwnEnsured(old(mgr.server.leases), mgr.server.leases, mgr.server.clock, HoldsOwnLease())
      ensures old(mgr.server.world) == [] && old(rec.ec2.script) == [] && !rec.manual &&
              old(rec.ownedTables) == [] && HoldsOwnLease() ==>
                !err && PointsHome() && rec.ownedTables == R.Ids(InAz(rec.ec2.tables, az))
    {
      var held;
      held, err := EnsureOwnLease();
      assert held == HoldsOwnLease();
      if err {
        return true;
      }
      if !held || !rec.OwnClaimPending() {
        return false;
      }
      ghost var tables := rec.ec2.tables;
      err := rec.ClaimOwnRouteTables();
      HomeAfterClaim(tables, err);
      R.ClaimedAzIsOurs(tables, az, rec.instance);
    }

    /** Any run of plain renewals makes no EC2 call. */
    method RenewRepeatedly(ticks: nat)
      requires Valid() && !rec.OwnClaimPending()
      modifies mgr.server, rec`ownedTables, rec`originalNatGW, rec`rtbVpcID, rec.ec2
      ensures Valid() && rec.ec2.calls == old(rec.ec2.calls) && rec.ownedTables == old(rec.ownedTables)
    {
      for i := 0 to ticks
        invariant Valid() && rec.ec2.calls == old(rec.ec2.calls) && rec.ownedTables == old(rec.ownedTables)
      {
        var _ := RenewOwnLease();
      }
    }

    /** Stands in for a dead AZ: only after committing that AZ's Lease itself, and only if not draining; then it
        always asks for the Lease. Tables whose claim fails are left out of the books, and are not tried again
        while any table of the AZ is covered. */
    method Takeover(deadAZ: string, draining: bool) returns (acquired: bool, ghost claimed: seq<string>)
      requires Valid() && deadAZ != az
      modifies mgr.server, this`won, rec`foreignOwnedTables, rec.ec2
      ensures Valid()
      ensures if draining then !acquired && mgr.server.past + mgr.server.talk == old(mgr.server.past + mgr.server.talk)
              else old(mgr.server.past + mgr.server.talk) < mgr.server.past + mgr.server.talk &&
                   (mgr.Completed(L.Acquire, deadAZ, podName, L.Held) <==> acquired) &&
                   mgr.Ended(L.Acquire, deadAZ, podName)
      ensures won == if acquired then old(won) + {deadAZ} else old(won)
      ensures !acquired ==> claimed == [] && rec.ec2.tables == old(rec.ec2.tables) &&
                            rec.ec2.calls == old(rec.ec2.calls) && rec.ec2.writes == old(rec.ec2.writes) &&
                            rec.ec2.script == old(rec.ec2.script)
      ensures acquired ==> StoodIn(deadAZ, old(rec.ec2.tables), old(rec.ec2.script), old(rec.ec2.writes),
                                   rec.ec2.writes, claimed)
      ensures rec.foreignOwnedTables == old(rec.foreignOwnedTables) + map id | id in claimed :: deadAZ
      ensures forall id :: id in claimed ==> id in R.Ids(InAz(old(rec.ec2.tables), deadAZ))
      ensures OnlyStandIn(old(rec.ec2.tables), rec.ec2.tables, deadAZ, claimed)
      ensures rec.manual ==> claimed == [] && rec.ec2.tables == old(rec.ec2.tables) &&
                             rec.ec2.writes == old(rec.ec2.writes)
      ensures old(rec.ec2.script) == [] ==> rec.ec2.script == []
      ensures acquired && old(rec.ec2.script) == [] && !rec.manual ==>
                claimed == R.Ids(InAz(old(rec.ec2.tables), deadAZ))
      ensures old(mgr.server.world) == [] ==>
                && acquired == (!draining && MayTake(LeaseOf(old(mgr.server.leases), deadAZ), deadAZ,
                                                     mgr.Me(podName), old(mgr.server.clock)))
                && mgr.server.world == [] && mgr.server.clock == old(mgr.server.clock)
                && (acquired || mgr.server.leases == old(mgr.server.leases))
                && OnlyLeaseOf(deadAZ, old(mgr.server.leases), mgr.server.leases)
    {
      claimed := [];
      NothingMoved(rec.ec2.tables, deadAZ);
      assert rec.foreignOwnedTables + map[] == rec.foreignOwnedTables;
      if draining {
        return false, [];
      }
      var err;
      acquired, err := AcquireFor(deadAZ);
      if err || !acquired {
        return false, [];
      }
      won := won + {deadAZ};
      claimed := StandIn(deadAZ);
      return true, claimed;
    }

    /** The Acquire of a takeover. */
    method AcquireFor(deadAZ: string) returns (acquired: bool, err: bool)
      requires Valid()
      modifies mgr.server
      ensures Valid() && !(acquired && err)
      ensures mgr.Completed(L.Acquire, deadAZ, podName, if acquired then L.Held else if err then L.Error else L.NotHeld)
      ensures old(mgr.server.past + mgr.server.talk) < mgr.server.past + mgr.server.talk
      ensures old(mgr.server.world) == [] ==>
                && acquired == MayTake(LeaseOf(old(mgr.server.leases), deadAZ), deadAZ, mgr.Me(podName),
                                       old(mgr.server.clock))
                && mgr.server.world == [] && mgr.server.clock == old(mgr.server.clock)
                && (acquired || mgr.server.leases == old(mgr.server.leases))
                && OnlyLeaseOf(deadAZ, old(mgr.server.leases), mgr.server.leases)
    {
      ghost var quiet, leases := mgr.server.world == [], mgr.server.leases;
      acquired, err := mgr.Acquire(deadAZ, podName);
      ghost var verdict := if acquired then L.Held else if err then L.Error else L.NotHeld;
      mgr.CompletedAsked(L.Acquire, deadAZ, podName, verdict);
      if quiet {
        mgr.CompletedAlone(L.Acquire, deadAZ, podName, verdict);
        OneLeasePut(deadAZ, leases, LeaseOf(mgr.server.leases, deadAZ));
        Puts(leases, LeaseName(deadAZ), None, LeaseOf(leases, deadAZ));
      }
    }

    /** What a takeover does once it has the Lease: in auto mode, if the discovery succeeds, it asks for a claim
        of every table of the AZ, in order, and `claimed` are those whose claim succeeds. */
    ghost predicate StoodIn(deadAZ: string, tables: seq<RouteTable>, script: seq<Ec2.Turn>, before: seq<Write>,
                            after: seq<Write>, claimed: seq<string>)
    {
      if Upcoming(script).fault != Calm then claimed == [] && after == before
      else var found := InAz(tables, deadAZ);
           claimed == Booked(found, |found|, After(script, 1)) && after == before + ClaimsOf(found)
    }

    method StandIn(deadAZ: string) returns (ghost claimed: seq<string>)
      requires Valid() && deadAZ in won
      modifies rec`foreignOwnedTables, rec.ec2
      ensures Valid()
      ensures rec.foreignOwnedTables == old(rec.foreignOwnedTables) + map id | id in claimed :: deadAZ
      ensures StoodIn(deadAZ, old(rec.ec2.tables), old(rec.ec2.script), old(rec.ec2.writes), rec.ec2.writes, claimed)
      ensures forall id :: id in claimed ==> id in R.Ids(InAz(old(rec.ec2.tables), deadAZ))
      ensures OnlyStandIn(old(rec.ec2.tables), rec.ec2.tables, deadAZ, claimed)
      ensures rec.manual ==> claimed == [] && rec.ec2.tables == old(rec.ec2.tables) &&
                             rec.ec2.writes == old(rec.ec2.writes)
      ensures old(rec.ec2.script) == [] ==> rec.ec2.script == []
      ensures old(rec.ec2.script) == [] && !rec.manual ==> claimed == R.Ids(InAz(old(rec.ec2.tables), deadAZ))
    {
      claimed := [];
      NothingMoved(rec.ec2.tables, deadAZ);
      assert rec.foreignOwnedTables + map[] == rec.foreignOwnedTables;
      var failed, tables := rec.ec2.DiscoverRouteTables(deadAZ);
      if failed {
        return;
      }
      rec.DiscoveredAreTagged(rec.ec2.tables, deadAZ);
      BookedFound(tables, |tables|, rec.ec2.script);
      assert tables[..|tables|] == tables;
      var mine := ClaimAll(deadAZ, tables);
      claimed := mine;
      Book(deadAZ, mine);
      if rec.manual { assert ClaimsOf(tables) == []; }
    }

    /** Registers what a takeover has claimed. */
    method Book(deadAZ: string, mine: seq<string>)
      requires Valid() && deadAZ in won && rec.Tagged(mine, deadAZ)
      modifies rec`foreignOwnedTables
      ensures Valid()
      ensures rec.foreignOwnedTables == old(rec.foreignOwnedTables) + map id | id in mine :: deadAZ
    {
      ValuesGrow(rec.foreignOwnedTables, mine, deadAZ);
      if |mine| > 0 {
        rec.AddForeignTables(deadAZ, mine);
      }
    }

    lemma ValuesGrow(books: map<string, string>, claimed: seq<string>, deadAZ: string)
      ensures (books + map id | id in claimed :: deadAZ).Values <= books.Values + {deadAZ}
    {
    }

    /** Every table is as before or, if it is one of the dead AZ's, points at this instance; the claimed ones do. */
    ghost predicate OnlyStandIn(before: seq<RouteTable>, after: seq<RouteTable>, deadAZ: string, claimed: seq<string>) {
      |after| == |before| && forall i :: 0 <= i < |before| ==>
        && (after[i] == before[i] ||
            (before[i].az == deadAZ && after[i] == Routed(before[i], ToInstance(rec.instance))))
        && (before[i].id in claimed ==> after[i] == Routed(before[i], ToInstance(rec.instance)))
    }

    lemma NothingMoved(tables: seq<RouteTable>, deadAZ: string)
      ensures OnlyStandIn(tables, tables, deadAZ, [])
    {
    }

    lemma OneMoved(before: seq<RouteTable>, mid: seq<RouteTable>, after: seq<RouteTable>, deadAZ: string,
                   claimed: seq<string>, id: string, ok: bool)
      requires OnlyStandIn(before, mid, deadAZ, claimed) && DistinctIds(before)
      requires exists t :: t in before && t.id == id && t.az == deadAZ
      requires after == Retarget(mid, map[id := ToInstance(rec.instance)]) || (!ok && after == mid)
      ensures OnlyStandIn(before, after, deadAZ, if ok then claimed + [id] else claimed)
    {
      var t :| t in before && t.id == id && t.az == deadAZ;
      forall i | 0 <= i < |before|
        ensures after[i] == before[i] ||
                  (before[i].az == deadAZ && after[i] == Routed(before[i], ToInstance(rec.instance)))
        ensures before[i].id in claimed || (ok && before[i].id == id) ==>
                  after[i] == Routed(before[i], ToInstance(rec.instance))
      {
        assert mid[i].id == before[i].id;
        if before[i].id == id { R.OneTablePerId(before, i, t); }
      }
    }

    /** One claim of every table, in order; none in manual mode. */
    function ClaimsOf(tables: seq<RouteTable>): seq<Write> {
      if rec.manual then []
      else seq(|tables|, i requires 0 <= i < |tables| => Write(tables[i].id, ToInstance(rec.instance)))
    }

    /** Of the first `n` tables those whose claim is not a failure, if the script answers the claims. */
    function Booked(tables: seq<RouteTable>, n: nat, script: seq<Ec2.Turn>): seq<string>
      requires n <= |tables|
    {
      if rec.manual || n == 0 then []
      else Booked(tables, n - 1, script) + if ClaimSucceeds(script, n - 1) then [tables[n - 1].id] else []
    }

    predicate ClaimSucceeds(script: seq<Ec2.Turn>, j: nat) {
      Upcoming(After(script, j)).fault == Calm
    }

    lemma {:induction false} BookedExact(tables: seq<RouteTable>, n: nat, script: seq<Ec2.Turn>, id: string)
      requires n <= |tables| && !rec.manual
      ensures id in Booked(tables, n, script) <==>
              exists j :: 0 <= j < n && tables[j].id == id && ClaimSucceeds(script, j)
    {
      if n == 0 {
      } else {
        BookedExact(tables, n - 1, script, id);
      }
    }

    /** Only discovered tables are booked, and all of them if nothing fails. */
    lemma {:induction false} BookedFound(tables: seq<RouteTable>, n: nat, script: seq<Ec2.Turn>)
      requires n <= |tables|
      ensures forall id :: id in Booked(tables, n, script) ==> id in R.Ids(tables[..n])
      ensures !rec.manual && script == [] ==> Booked(tables, n, script) == R.Ids(tables[..n])
    {
      if n == 0 {
      } else {
        BookedFound(tables, n - 1, script);
        R.IdsGrow(tables, n - 1);
      }
    }

    /** What the claim loop has done after `n` tables. */
    ghost predicate ClaimedSome(tables: seq<RouteTable>, n: nat, script: seq<Ec2.Turn>, claimed: seq<string>,
                                before: seq<Write>, after: seq<Write>, left: seq<Ec2.Turn>)
      requires n <= |tables|
    {
      && claimed == Booked(tables, n, script) && after == before + ClaimsOf(tables[..n])
      && left == After(script, if rec.manual then 0 else n)
    }

    lemma OneMoreTable(tables: seq<RouteTable>, n: nat, script: seq<Ec2.Turn>, claimed: seq<string>, before: seq<Write>,
                       after: seq<Write>, left: seq<Ec2.Turn>, ok: bool)
      requires n < |tables| && ClaimedSome(tables, n, script, claimed, before, after, left)
      requires ok == (!rec.manual && Upcoming(left).fault == Calm)
      ensures var next := if rec.manual then [] else [Write(tables[n].id, ToInstance(rec.instance))];
              ClaimedSome(tables, n + 1, script, if ok then claimed + [tables[n].id] else claimed, before, after + next,
                          if rec.manual then left else After(left, 1))
    {
      var next := if rec.manual then [] else [Write(tables[n].id, ToInstance(rec.instance))];
      assert ClaimsOf(tables[..n + 1]) == ClaimsOf(tables[..n]) + next;
      AfterMore(script, n, 1);
    }

    /** What the claims of the first `n` tables have done to the account. */
    ghost predicate ReachedGoal(was: seq<RouteTable>, now: seq<RouteTable>, tables: seq<RouteTable>, n: nat,
                                script: seq<Ec2.Turn>)
      requires n <= |tables|
    {
      now == if rec.manual then was else Retarget(was, TakeoverGoal(tables, n, rec.instance, script))
    }

    lemma OneMoreReached(was: seq<RouteTable>, mid: seq<RouteTable>, now: seq<RouteTable>, tables: seq<RouteTable>,
                         n: nat, script: seq<Ec2.Turn>)
      requires n < |tables| && ReachedGoal(was, mid, tables, n, script)
      requires now == if rec.manual || Upcoming(After(script, n)).fault == Lost then mid
                      else Retarget(mid, map[tables[n].id := ToInstance(rec.instance)])
      ensures ReachedGoal(was, now, tables, n + 1, script)
    {
      RetargetTwice(was, TakeoverGoal(tables, n, rec.instance, script), tables[n].id, ToInstance(rec.instance));
    }

    /** The claim loop of a takeover: it asks for a claim of every table, in order and whatever became of
        the ones before, and books exactly those that succeed. */
    method ClaimAll(deadAZ: string, tables: seq<RouteTable>) returns (claimed: seq<string>)
      requires rec.ec2.Valid() && tables == InAz(rec.ec2.tables, deadAZ)
      modifies rec.ec2
      ensures rec.ec2.Valid() && OnlyStandIn(old(rec.ec2.tables), rec.ec2.tables, deadAZ, claimed)
      ensures claimed == Booked(tables, |tables|, old(rec.ec2.script))
      ensures rec.ec2.writes == old(rec.ec2.writes) + ClaimsOf(tables)
      ensures rec.ec2.script == After(old(rec.ec2.script), if rec.manual then 0 else |tables|)
      ensures !rec.manual ==>
                rec.ec2.tables == Retarget(old(rec.ec2.tables),
                                           TakeoverGoal(tables, |tables|, rec.instance, old(rec.ec2.script)))
      ensures rec.manual ==> rec.ec2.tables == old(rec.ec2.tables)
    {
      ghost var was, script, asked := rec.ec2.tables, rec.ec2.script, rec.ec2.writes;
      InAzExact(was, deadAZ);
      AfterMore(script, 0, 0);
      R.RetargetNone(was);
      claimed := [];
      NothingMoved(was, deadAZ);
      for i := 0 to |tables|
        invariant rec.ec2.Valid() && OnlyStandIn(was, rec.ec2.tables, deadAZ, claimed)
        invariant ClaimedSome(tables, i, script, claimed, asked, rec.ec2.writes, rec.ec2.script)
        invariant ReachedGoal(was, rec.ec2.tables, tables, i, script)
      {
        ghost var writes, left, mid := rec.ec2.writes, rec.ec2.script, rec.ec2.tables;
        var ok := TryClaim(deadAZ, tables[i], was, claimed);
        OneMoreReached(was, mid, rec.ec2.tables, tables, i, script);
        OneMoreTable(tables, i, script, claimed, asked, writes, left, ok);
        if ok {
          claimed := claimed + [tables[i].id];
        }
      }
      assert tables[..|tables|] == tables;
    }

    /** One turn of that loop; in manual mode it only logs. `was` and `claimed` say what the loop has done. */
    method TryClaim(deadAZ: string, t: RouteTable, ghost was: seq<RouteTable>, ghost claimed: seq<string>)
        returns (ok: bool)
      requires rec.ec2.Valid() && DistinctIds(was) && t in was && t.az == deadAZ
      requires OnlyStandIn(was, rec.ec2.tables, deadAZ, claimed)
      modifies rec.ec2
      ensures rec.ec2.Valid() && OnlyStandIn(was, rec.ec2.tables, deadAZ, if ok then claimed + [t.id] else claimed)
      ensures rec.ec2.writes ==
                old(rec.ec2.writes) + if rec.manual then [] else [Write(t.id, ToInstance(rec.instance))]
      ensures ok == (!rec.manual && Upcoming(old(rec.ec2.script)).fault == Calm)
      ensures rec.ec2.tables == if rec.manual || Upcoming(old(rec.ec2.script)).fault == Lost then old(rec.ec2.tables)
                                else Retarget(old(rec.ec2.tables), map[t.id := ToInstance(rec.instance)])
      ensures rec.ec2.script == if rec.manual then old(rec.ec2.script) else After(old(rec.ec2.script), 1)
    {
      if rec.manual {
        return false;
      }
      ghost var mid := rec.ec2.tables;
      var err := rec.ec2.Upsert(t.id, ToInstance(rec.instance));
      OneMoved(was, mid, rec.ec2.tables, deadAZ, claimed, t.id, !err);
      return !err;
    }

    /** One tick of the lease loop: unless draining, it asks for the own Lease and for that of every covered AZ.
        A failover Lease that turns out to be held by somebody else is yielded with all its tables; one that
        cannot be read is kept. When nobody interferes, the others are renewed, and so is the own Lease if this
        agent may have it, and its tables are claimed if they are not yet. */
    method LeaseTick(draining: bool)
      requires Valid()
      modifies mgr.server, rec, rec.ec2
      ensures Valid()
      ensures forall id :: id in rec.foreignOwnedTables ==>
                id in old(rec.foreignOwnedTables) && rec.foreignOwnedTables[id] == old(rec.foreignOwnedTables)[id]
      ensures draining ==> rec.foreignOwnedTables == old(rec.foreignOwnedTables) &&
                           rec.ownedTables == old(rec.ownedTables) &&
                           mgr.server.past + mgr.server.talk == old(mgr.server.past + mgr.server.talk) &&
                           rec.ec2.calls == old(rec.ec2.calls)
      ensures draining || rec.manual ==>
                rec.ec2.writes == old(rec.ec2.writes) && rec.ec2.tables == old(rec.ec2.tables)
      ensures !draining ==> AllAsked({az} + old(rec.foreignOwnedTables).Values,
                                     old(mgr.server.past + mgr.server.talk), mgr.server.past + mgr.server.talk)
      ensures !draining && old(mgr.server.world) == [] ==>
                forall id :: id in old(rec.foreignOwnedTables) ==>
                  (id in rec.foreignOwnedTables <==>
                   !SomebodyElses(LeaseOf(old(mgr.server.leases), old(rec.foreignOwnedTables)[id])))
      ensures !draining && old(mgr.server.world) == [] ==>
                forall a :: a in rec.foreignOwnedTables.Values ==>
                  KeptAlive(LeaseOf(mgr.server.leases, a), old(mgr.server.clock))
      ensures !draining && old(mgr.server.world) == [] && old(MayHold()) ==>
                KeptAlive(LeaseOf(mgr.server.leases, az), old(mgr.server.clock))
      ensures !draining && old(mgr.server.world) == [] && old(rec.ec2.script) == [] && !rec.manual &&
              old(rec.ownedTables) == [] && old(MayHold()) ==>
                PointsHome() && rec.ownedTables == R.Ids(InAz(rec.ec2.tables, az))
    {
      if draining {
        return;
      }
      ghost var quiet, leases, tracked := mgr.server.world == [], mgr.server.leases, rec.foreignOwnedTables;
      ghost var sent := mgr.server.past + mgr.server.talk;
      var _ := RenewOwnLease();
      ghost var mid, asked := mgr.server.leases, mgr.server.past + mgr.server.talk;
      OnlyOwnMoved(leases, mid, quiet);
      ghost var yielded := RenewForeignLeases();
      TickAsked(sent, asked, mgr.server.past + mgr.server.talk, tracked.Values);
      if quiet {
        forall id | id in tracked
          ensures id in rec.foreignOwnedTables <==> !SomebodyElses(LeaseOf(leases, tracked[id]))
        {
          assert LeaseOf(mid, tracked[id]) == LeaseOf(leases, tracked[id]);
          assert RenewedAt(tracked[id], mid, mgr.server.leases, mgr.server.clock, tracked.Values, yielded);
        }
        forall a | a in rec.foreignOwnedTables.Values
          ensures KeptAlive(LeaseOf(mgr.server.leases, a), mgr.server.clock)
        {
          assert RenewedAt(a, mid, mgr.server.leases, mgr.server.clock, tracked.Values, yielded);
        }
        assert RenewedAt(az, mid, mgr.server.leases, mgr.server.clock, tracked.Values, yielded);
      }
    }

    /** This agent may take its own Lease now. */
    ghost predicate MayHold()
      reads mgr.server
    {
      MayTake(LeaseOf(mgr.server.leases, az), az, mgr.Me(podName), mgr.server.clock)
    }

    lemma OnlyOwnMoved(was: map<string, Lease>, now: map<string, Lease>, quiet: bool)
      requires quiet ==> now == Put(was, LeaseName(az), LeaseOf(now, az))
      ensures quiet ==> OnlyLeaseOf(az, was, now)
    {
      if quiet { OneLeasePut(az, was, LeaseOf(now, az)); }
    }

    lemma TickAsked(before: seq<L.Exchange>, mid: seq<L.Exchange>, after: seq<L.Exchange>, azs: set<string>)
      requires Asked(az, before, mid) && AllAsked(azs, mid, after)
      ensures AllAsked({az} + azs, before, after)
    {
      StillAsked(az, before, mid, after);
      forall a | a in azs ensures Asked(a, before, after) {
        AskedLater(a, before, mid, after);
      }
    }

    predicate HeldByMe(l: Option<Lease>) {
      l.Some? && HeldBy(l.value, podName)
    }

    predicate SomebodyElses(l: Option<Lease>) {
      l.Some? && !HeldBy(l.value, podName)
    }

    predicate KeptAlive(l: Option<Lease>, now: int) {
      HeldByMe(l) && l.value.renewTime == Some(now)
    }

    /** What renewing the Leases of `azs` means for the Lease of `a`: somebody else's is yielded, any other is
        renewed or created, and the Leases of further AZs are left alone. */
    ghost predicate RenewedAt(a: string, was: map<string, Lease>, now: map<string, Lease>, clock: int,
                              azs: set<string>, yielded: set<string>) {
      if a !in azs then a !in yielded && LeaseOf(now, a) == LeaseOf(was, a)
      else if SomebodyElses(LeaseOf(was, a)) then a in yielded
      else a !in yielded && KeptAlive(LeaseOf(now, a), clock)
    }

    ghost predicate AllRenewed(was: map<string, Lease>, now: map<string, Lease>, clock: int, azs: set<string>,
                               yielded: set<string>) {
      forall a :: RenewedAt(a, was, now, clock, azs, yielded)
    }

    lemma OneMoreRenewed(was: map<string, Lease>, mid: map<string, Lease>, now: map<string, Lease>, clock: int,
                         azs: set<string>, yielded: set<string>, other: string, kept: bool)
      requires AllRenewed(was, mid, clock, azs, yielded) && other !in azs
      requires OnlyLeaseOf(other, mid, now) && kept == !SomebodyElses(LeaseOf(mid, other))
      requires kept ==> KeptAlive(LeaseOf(now, other), clock)
      ensures AllRenewed(was, now, clock, azs + {other}, if kept then yielded else yielded + {other})
    {
      var azs', yielded' := azs + {other}, if kept then yielded else yielded + {other};
      forall a ensures RenewedAt(a, was, now, clock, azs', yielded') {
        assert RenewedAt(a, was, mid, clock, azs, yielded);
      }
    }

    /** Keeps the failover Leases alive, asking for every one, and yields any that the original owner took back. */
    method RenewForeignLeases() returns (ghost yielded: set<string>)
      requires Valid()
      modifies mgr.server, rec`foreignOwnedTables
      ensures Valid() && rec.foreignOwnedTables == Without(old(rec.foreignOwnedTables), yielded)
      ensures AllAsked(old(rec.foreignOwnedTables).Values,
                       old(mgr.server.past + mgr.server.talk), mgr.server.past + mgr.server.talk)
      ensures old(mgr.server.world) == [] ==>
                mgr.server.clock == old(mgr.server.clock) &&
                AllRenewed(old(mgr.server.leases), mgr.server.leases, mgr.server.clock,
                           old(rec.foreignOwnedTables).Values, yielded)
    {
      ghost var quiet, leases, tracked := mgr.server.world == [], mgr.server.leases, rec.foreignOwnedTables;
      ghost var clock, done: set<string> := mgr.server.clock, {};
      ghost var sent := mgr.server.past + mgr.server.talk;
      var azs := rec.ForeignAZs();
      yielded := {};
      for i := 0 to |azs|
        invariant Valid() && rec.foreignOwnedTables == Without(tracked, yielded)
        invariant forall a :: a in done <==> a in azs[..i]
        invariant AllAsked(done, sent, mgr.server.past + mgr.server.talk)
        invariant quiet ==> mgr.server.world == [] && mgr.server.clock == clock &&
                            AllRenewed(leases, mgr.server.leases, clock, done, yielded)
      {
        var other := azs[i];
        assert azs[..i + 1] == azs[..i] + [other] && other !in azs[..i];
        ghost var mid, asked := mgr.server.leases, mgr.server.past + mgr.server.talk;
        WithoutTwice(tracked, yielded, {});
        WithoutTwice(tracked, yielded, {other});
        var kept := RenewForeign(other);
        OneMoreAsked(done, sent, asked, mgr.server.past + mgr.server.talk, other);
        if quiet {
          OneMoreRenewed(leases, mid, mgr.server.leases, clock, done, yielded, other, kept);
        }
        done := done + {other};
        if !kept {
          yielded := yielded + {other};
        }
      }
      assert azs[..|azs|] == azs;
      assert done == tracked.Values;
    }

    ghost function Without(m: map<string, string>, azs: set<string>): map<string, string> {
      map id | id in m && m[id] !in azs :: m[id]
    }

    lemma WithoutTwice(m: map<string, string>, azs: set<string>, more: set<string>)
      ensures Without(Without(m, azs), more) == Without(m, azs + more) && Without(m, {}) == m
    {
    }

    /** Renews one failover Lease and yields the AZ if somebody else holds it, or a Renew otherwise finds it lost;
        an error keeps it. */
    method RenewForeign(other: string) returns (kept: bool)
      requires Valid() && other != az
      modifies mgr.server, rec`foreignOwnedTables
      ensures Valid()
      ensures rec.foreignOwnedTables == Without(old(rec.foreignOwnedTables), if kept then {} else {other})
      ensures mgr.Ended(L.Renew, other, podName) && (kept <==> !mgr.Completed(L.Renew, other, podName, L.NotHeld))
      ensures kept <==> !V.RenewRefused(mgr.server.talk, podName)
      ensures Asked(other, old(mgr.server.past + mgr.server.talk), mgr.server.past + mgr.server.talk)
      ensures old(mgr.server.world) == [] ==>
                && mgr.server.world == [] && mgr.server.clock == old(mgr.server.clock)
                && kept == !SomebodyElses(LeaseOf(old(mgr.server.leases), other))
                && (kept ==> KeptAlive(LeaseOf(mgr.server.leases, other), mgr.server.clock))
                && OnlyLeaseOf(other, old(mgr.server.leases), mgr.server.leases)
    {
      ghost var leases := mgr.server.leases;
      var ok, err := RenewLeaseOf(other);
      mgr.RenewExplained(other, podName, if ok then L.Held else if err then L.Error else L.NotHeld);
      OneLeasePut(other, leases, LeaseOf(mgr.server.leases, other));
      if err {
        return true;
      }
      if !ok {
        var _ := rec.ReleaseForeignAZ(other);
        return false;
      }
      return true;
    }

    /** One tick of the reconcile loop, the data plane being applied: serves the own AZ or drops its
        tables, gives up covered tables that were reclaimed, and takes over the AZs of expired Leases that
        it does not cover yet. `listing` is what the List of the Leases returns (a failed List is like an
        empty one), `now` the clock read then. Unless draining it asks for its own Lease. In manual mode, and
        while draining, it writes no route. When nobody interferes and nothing fails, an agent that may
        hold its own Lease has renewed it by the end of the tick, with its AZ's tables pointing at it, and every
        listed expired AZ whose Lease it may take is covered already or is one of `taken`, the AZs taken over in
        this tick; and every table of those points at it then. */
    method ReconcileTick(draining: bool, listing: seq<(string, Lease)>, now: int)
      returns (serving: bool, ghost taken: set<string>)
      requires Valid()
      modifies this, mgr.server, rec, rec.ec2
      ensures Valid() && won == old(won) + taken && (forall a :: a in taken ==> a in ExpiredAZs(listing, az, now))
      ensures if serving then OwnedOrKept(old(rec.ownedTables), rec.ownedTables, old(rec.ec2.tables))
              else rec.ownedTables == []
      ensures draining ==> !serving && taken == {} &&
                           mgr.server.past + mgr.server.talk == old(mgr.server.past + mgr.server.talk)
      ensures draining || rec.manual ==>
                rec.ec2.writes == old(rec.ec2.writes) && rec.ec2.tables == old(rec.ec2.tables)
      ensures !draining ==> Asked(az, old(mgr.server.past + mgr.server.talk), mgr.server.past + mgr.server.talk)
      ensures old(rec.ec2.script) == [] ==>
                Watched(old(rec.foreignOwnedTables), rec.foreignOwnedTables, old(rec.ec2.tables), taken)
      ensures !draining && old(mgr.server.world) == [] && old(MayHold()) ==>
                serving && KeptAlive(LeaseOf(mgr.server.leases, az), old(mgr.server.clock)) &&
                (old(rec.ec2.script) == [] ==>
                   OwnedAfter(old(rec.ownedTables), rec.ownedTables, old(rec.ec2.tables), false) &&
                   (!rec.manual ==> PointsHome()))
      ensures !draining && old(mgr.server.world) == [] ==>
                Swept(ExpiredAZs(listing, az, now), old(mgr.server.leases), old(mgr.server.clock),
                      rec.foreignOwnedTables.Values + taken)
      ensures old(rec.ec2.script) == [] && !rec.manual ==> AllHere(rec.ec2.tables, taken)
    {
      serving := ServeOrStandBy(draining);
      ghost var tables, books := rec.ec2.tables, rec.foreignOwnedTables;
      ghost var asked := mgr.server.past + mgr.server.talk;
      taken := WatchAndSweep(draining, listing, now);
      if !draining {
        StillAsked(az, old(mgr.server.past + mgr.server.talk), asked, mgr.server.past + mgr.server.talk);
      }
      WatchedAsBefore(books, rec.foreignOwnedTables, old(rec.ec2.tables), tables, taken);
    }

    /** The first half of the tick: serves the own AZ, or drops its tables. */
    method ServeOrStandBy(draining: bool) returns (serving: bool)
      requires Valid()
      modifies mgr.server, rec`ownedTables, rec`originalNatGW, rec`rtbVpcID, rec.ec2
      ensures Valid() && rec.OnlyOwnClaims(old(rec.ec2.tables), rec.ec2.tables)
      ensures if serving then HoldsOwnLease() && OwnedOrKept(old(rec.ownedTables), rec.ownedTables, old(rec.ec2.tables))
              else rec.ownedTables == []
      ensures !draining && old(mgr.server.world) == [] && old(rec.ec2.script) == [] && serving ==>
                OwnedAfter(old(rec.ownedTables), rec.ownedTables, old(rec.ec2.tables), false)
      ensures draining ==> !serving && rec.ec2.script == old(rec.ec2.script) &&
                           mgr.server.past + mgr.server.talk == old(mgr.server.past + mgr.server.talk)
      ensures draining || rec.manual ==>
                rec.ec2.writes == old(rec.ec2.writes) && rec.ec2.tables == old(rec.ec2.tables)
      ensures !draining ==> Asked(az, old(mgr.server.past + mgr.server.talk), mgr.server.past + mgr.server.talk)
      ensures old(rec.ec2.script) == [] ==> rec.ec2.script == []
      ensures !draining && old(mgr.server.world) == [] && old(rec.ec2.script) == [] && serving && !rec.manual ==>
                PointsHome()
      ensures !draining && old(mgr.server.world) == [] ==>
                && mgr.server.world == [] && mgr.server.clock == old(mgr.server.clock)
                && OwnEnsured(old(mgr.server.leases), mgr.server.leases, mgr.server.clock, serving)
                && OnlyLeaseOf(az, old(mgr.server.leases), mgr.server.leases)
    {
      serving := false;
      if !draining {
        ghost var leases := mgr.server.leases;
        var err;
        serving, err := ServeOwnAZ();
        OneLeasePut(az, leases, LeaseOf(mgr.server.leases, az));
      }
      if !serving {
        var _ := rec.DropOwnTables();
      }
    }

    /** What becomes of the books in a tick whose discoveries succeed: an entry whose table was reclaimed is
        gone, unless its AZ has been taken over again; all others stay, and their AZs are not taken over again;
        new ones are of AZs taken over. */
    ghost predicate Watched(before: map<string, string>, after: map<string, string>, tables: seq<RouteTable>,
                            taken: set<string>) {
      && (forall id :: id in before ==>
            if R.Reclaimed(tables, before.Values, rec.instance, id) then id in after ==> after[id] in taken
            else id in after && after[id] == before[id] && before[id] !in taken)
      && forall id :: id in after && id !in before ==> after[id] in taken
    }

    lemma WatchedAfter(before: map<string, string>, left: map<string, string>, after: map<string, string>,
                       tables: seq<RouteTable>, taken: set<string>)
      requires left == map id | id in before && !R.Reclaimed(tables, before.Values, rec.instance, id) :: before[id]
      requires MoreBooks(left, after, taken) && taken !! left.Values
      ensures Watched(before, after, tables, taken)
    {
    }

    /** The books after the watch and the sweep, in terms of the routes before the own AZ was claimed. */
    lemma WatchedAsBefore(before: map<string, string>, after: map<string, string>, was: seq<RouteTable>,
                          tables: seq<RouteTable>, taken: set<string>)
      requires rec.az !in before.Values && rec.OnlyOwnClaims(was, tables)
      ensures Watched(before, after, tables, taken) <==> Watched(before, after, was, taken)
    {
      forall id ensures R.Reclaimed(tables, before.Values, rec.instance, id) <==>
                          R.Reclaimed(was, before.Values, rec.instance, id)
      {
        ReclaimedAsBefore(before.Values, was, tables, id);
      }
    }

    /** Claims of the own AZ do not show in what is reclaimed elsewhere. */
    lemma ReclaimedAsBefore(azs: set<string>, was: seq<RouteTable>, now: seq<RouteTable>, id: string)
      requires rec.az !in azs && rec.OnlyOwnClaims(was, now)
      ensures R.Reclaimed(now, azs, rec.instance, id) <==> R.Reclaimed(was, azs, rec.instance, id)
    {
      forall i | 0 <= i < |was| && (was[i].az in azs || now[i].az in azs) ensures now[i] == was[i] {
      }
      if R.Reclaimed(now, azs, rec.instance, id) {
        var t :| t in now && t.az in azs && t.id == id && t.instanceId != rec.instance;
        var i :| 0 <= i < |now| && now[i] == t;
        assert was[i] in was && was[i] == t;
      }
      if R.Reclaimed(was, azs, rec.instance, id) {
        var t :| t in was && t.az in azs && t.id == id && t.instanceId != rec.instance;
        var i :| 0 <= i < |was| && was[i] == t;
        assert now[i] in now && now[i] == t;
      }
    }

    /** Takeovers leave every entry of the books, and add only entries of the AZs taken over. */
    ghost predicate MoreBooks(before: map<string, string>, after: map<string, string>, taken: set<string>) {
      && (forall id :: id in before ==> id in after && after[id] == before[id])
      && forall id :: id in after && id !in before ==> after[id] in taken
    }

    lemma ForeignOnly(listing: seq<(string, Lease)>, now: int)
      ensures az !in ExpiredAZs(listing, az, now)
    {
      ExpiredAZsExact(listing, az, now, az);
    }

    /** The second half: watches over the covered tables, then lists the expired AZs and covers them, unless
        draining. */
    method WatchAndSweep(draining: bool, listing: seq<(string, Lease)>, now: int) returns (ghost taken: set<string>)
      requires Valid()
      modifies mgr.server, this`won, rec`foreignOwnedTables, rec.ec2
      ensures Valid() && won == old(won) + taken && (forall a :: a in taken ==> a in ExpiredAZs(listing, az, now))
      ensures old(PointsHome()) ==> PointsHome()
      ensures old(mgr.server.past + mgr.server.talk) <= mgr.server.past + mgr.server.talk
      ensures draining ==> taken == {} && mgr.server.past + mgr.server.talk == old(mgr.server.past + mgr.server.talk)
      ensures draining || rec.manual ==>
                rec.ec2.writes == old(rec.ec2.writes) && rec.ec2.tables == old(rec.ec2.tables)
      ensures old(rec.ec2.script) == [] ==>
                Watched(old(rec.foreignOwnedTables), rec.foreignOwnedTables, old(rec.ec2.tables), taken)
      ensures old(mgr.server.world) == [] ==> LeaseOf(mgr.server.leases, az) == LeaseOf(old(mgr.server.leases), az)
      ensures !draining && old(mgr.server.world) == [] ==>
                Swept(ExpiredAZs(listing, az, now), old(mgr.server.leases), old(mgr.server.clock),
                      rec.foreignOwnedTables.Values + taken)
      ensures old(rec.ec2.script) == [] && !rec.manual ==> AllHere(rec.ec2.tables, taken)
    {
      ghost var tables, books := rec.ec2.tables, rec.foreignOwnedTables;
      var _, seen := rec.ReconcileForeign();
      ghost var left := rec.foreignOwnedTables;
      taken := {};
      if !draining {
        ForeignOnly(listing, now);
        var expired := ListExpiredAZs(listing, az, now);
        taken := CoverExpired(expired);
      }
      if seen == books.Values {
        WatchedAfter(books, left, rec.foreignOwnedTables, tables, taken);
      }
    }

    /** The last-resort sweep over the AZs of expired Leases. */
    method CoverExpired(expired: seq<string>) returns (ghost taken: set<string>)
      requires Valid() && az !in expired
      modifies mgr.server, this`won, rec`foreignOwnedTables, rec.ec2
      ensures Valid() && won == old(won) + taken && (forall a :: a in taken ==> a in expired)
      ensures old(PointsHome()) ==> PointsHome()
      ensures MoreBooks(old(rec.foreignOwnedTables), rec.foreignOwnedTables, taken)
      ensures taken !! old(rec.foreignOwnedTables).Values
      ensures old(mgr.server.past + mgr.server.talk) <= mgr.server.past + mgr.server.talk
      ensures rec.manual ==> rec.ec2.writes == old(rec.ec2.writes) && rec.ec2.tables == old(rec.ec2.tables)
      ensures old(mgr.server.world) == [] ==>
                Untaken(old(mgr.server.leases), mgr.server.leases, taken) &&
                Swept(expired, old(mgr.server.leases), old(mgr.server.clock), rec.foreignOwnedTables.Values + taken)
      ensures old(rec.ec2.script) == [] && !rec.manual ==> AllHere(rec.ec2.tables, taken)
    {
      ghost var quiet, leases, clock := mgr.server.world == [], mgr.server.leases, mgr.server.clock;
      ghost var whole, sent := rec.ec2.script == [] && !rec.manual, mgr.server.past + mgr.server.talk;
      taken := {};
      for i := 0 to |expired|
        invariant Valid() && won == old(won) + taken && (forall a :: a in taken ==> a in expired)
        invariant old(PointsHome()) ==> PointsHome()
        invariant MoreBooks(old(rec.foreignOwnedTables), rec.foreignOwnedTables, taken)
        invariant sent <= mgr.server.past + mgr.server.talk
        invariant old(rec.foreignOwnedTables).Values <= rec.foreignOwnedTables.Values
        invariant taken !! old(rec.foreignOwnedTables).Values
        invariant rec.manual ==> rec.ec2.writes == old(rec.ec2.writes) && rec.ec2.tables == old(rec.ec2.tables)
        invariant quiet ==> mgr.server.world == [] && mgr.server.clock == clock &&
                            Untaken(leases, mgr.server.leases, taken)
        invariant quiet ==> Swept(expired[..i], leases, clock, rec.foreignOwnedTables.Values + taken)
        invariant whole ==> rec.ec2.script == [] && AllHere(rec.ec2.tables, taken)
      {
        var a := expired[i];
        assert expired[..i + 1] == expired[..i] + [a];
        ghost var before := mgr.server.leases;
        ghost var acquired := CoverOne(a, taken);
        assert quiet ==> LeaseOf(before, a) == LeaseOf(leases, a) || a in taken;
        if acquired {
          taken := taken + {a};
        }
      }
      assert expired[..|expired|] == expired;
    }

    /** One turn of the sweep, after the AZs `taken` have been taken over: a covered AZ is left alone, and the
        Lease of any other is asked for. */
    method CoverOne(a: string, ghost taken: set<string>) returns (ghost acquired: bool)
      requires Valid() && a != az
      modifies mgr.server, this`won, rec`foreignOwnedTables, rec.ec2
      ensures Valid() && won == (if acquired then old(won) + {a} else old(won))
      ensures old(PointsHome()) ==> PointsHome()
      ensures MoreBooks(old(rec.foreignOwnedTables), rec.foreignOwnedTables, if acquired then {a} else {})
      ensures old(rec.foreignOwnedTables).Values <= rec.foreignOwnedTables.Values
      ensures old(mgr.server.past + mgr.server.talk) <= mgr.server.past + mgr.server.talk
      ensures if a in old(rec.foreignOwnedTables).Values then
                !acquired && rec.foreignOwnedTables == old(rec.foreignOwnedTables) &&
                rec.ec2.calls == old(rec.ec2.calls) &&
                mgr.server.past + mgr.server.talk == old(mgr.server.past + mgr.server.talk)
              else
                mgr.Ended(L.Acquire, a, podName) && (acquired <==> mgr.Completed(L.Acquire, a, podName, L.Held))
      ensures rec.manual ==> rec.ec2.writes == old(rec.ec2.writes) && rec.ec2.tables == old(rec.ec2.tables)
      ensures old(mgr.server.world) == [] ==>
                && mgr.server.world == [] && mgr.server.clock == old(mgr.server.clock)
                && (acquired || mgr.server.leases == old(mgr.server.leases))
                && OnlyLeaseOf(a, old(mgr.server.leases), mgr.server.leases)
                && (acquired || a in rec.foreignOwnedTables.Values ||
                    !MayTake(LeaseOf(old(mgr.server.leases), a), a, mgr.Me(podName), old(mgr.server.clock)))
      ensures old(rec.ec2.script) == [] ==> rec.ec2.script == []
      ensures old(rec.ec2.script) == [] && !rec.manual && AllHere(old(rec.ec2.tables), taken) ==>
                AllHere(rec.ec2.tables, if acquired then taken + {a} else taken)
    {
      var covers := rec.CoversAZ(a);
      if covers {
        return false;
      }
      ghost var tables, books := rec.ec2.tables, rec.foreignOwnedTables;
      var won, claimed := Takeover(a, false);
      HomeStays(tables, rec.ec2.tables, a, claimed);
      StillCovered(books, rec.foreignOwnedTables, a, claimed);
      if AllHere(tables, taken) {
        MoreHere(tables, rec.ec2.tables, taken, a, claimed);
      }
      return won;
    }

    /** Every table of these AZs points at this instance. */
    ghost predicate AllHere(tables: seq<RouteTable>, azs: set<string>) {
      forall i :: 0 <= i < |tables| && tables[i].az in azs ==> tables[i].instanceId == rec.instance
    }

    /** A takeover leaves the tables that point here, and adds its AZ's if it claims them all. */
    lemma MoreHere(before: seq<RouteTable>, after: seq<RouteTable>, azs: set<string>, deadAZ: string,
                   claimed: seq<string>)
      requires OnlyStandIn(before, after, deadAZ, claimed) && AllHere(before, azs)
      ensures AllHere(after, azs)
      ensures claimed == R.Ids(InAz(before, deadAZ)) ==> AllHere(after, azs + {deadAZ})
    {
      if claimed == R.Ids(InAz(before, deadAZ)) {
        InAzExact(before, deadAZ);
        forall i | 0 <= i < |before| && before[i].az == deadAZ ensures before[i].id in claimed {
          assert before[i] in before;
          var k :| 0 <= k < |InAz(before, deadAZ)| && InAz(before, deadAZ)[k] == before[i];
          assert claimed[k] == before[i].id;
        }
      }
    }

    /** The Lease of an AZ that was not taken over is as it was. */
    ghost predicate Untaken(was: map<string, Lease>, now: map<string, Lease>, taken: set<string>) {
      forall a :: a !in taken ==> LeaseOf(now, a) == LeaseOf(was, a)
    }

    /** Those of the AZs whose Lease this agent may take are covered. */
    ghost predicate Swept(azs: seq<string>, was: map<string, Lease>, clock: int, covered: set<string>) {
      forall a :: a in azs && MayTake(LeaseOf(was, a), a, mgr.Me(podName), clock) ==> a in covered
    }

    lemma HomeStays(before: seq<RouteTable>, after: seq<RouteTable>, deadAZ: string, claimed: seq<string>)
      requires OnlyStandIn(before, after, deadAZ, claimed) && deadAZ != az
      ensures (forall t :: t in before && t.az == az ==> t.instanceId == rec.instance) ==>
                forall t :: t in after && t.az == az ==> t.instanceId == rec.instance
    {
      forall t | t in after && t.az == az ensures t in before {
        var i :| 0 <= i < |after| && after[i] == t;
        assert before[i] in before;
      }
    }

    /** New entries replace none of another AZ. */
    lemma StillCovered(before: map<string, string>, after: map<string, string>, deadAZ: string, claimed: seq<string>)
      requires after == before + map id | id in claimed :: deadAZ
      requires forall id :: id in before ==> id in rec.ec2.tags && rec.ec2.tags[id] == before[id]
      requires forall id :: id in after ==> id in rec.ec2.tags && rec.ec2.tags[id] == after[id]
      ensures MoreBooks(before, after, {deadAZ}) && before.Values <= after.Values
    {
      forall a | a in before.Values ensures a in after.Values {
        var id :| id in before && before[id] == a;
        assert after[id] == a;
      }
    }
  }
}

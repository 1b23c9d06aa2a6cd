/** What the verdict of a Lease call says about its requests and their answers, and what a call writes. */
module LeaseVerdicts {
  import opened Wrappers
  import opened Leases
  import opened LeaseCalls

  // ---- Errors ----

  /** A call ends in an error exactly if its last request failed, or was an Update that found no Lease. Lost
      races are not errors. */
  lemma ErrorExactly(cs: seq<Call>, xs: seq<Exchange>)
    requires Conversation(cs, xs) && ClockNeverRunsBack(xs) && cs[|xs|].phase.Returned?
    ensures xs != []
    ensures var x := xs[|xs| - 1];
            cs[|xs|].phase.verdict == Error <==> x.response == Failed || (x.request.Update? && x.response == NotFound)
  {
    var n := |xs| - 1;
    var x := xs[n];
    CopyWasServed(cs, xs, n, x.clock);
    assert Turnaround(cs[n], x, cs[n + 1]);
  }

  // ---- Refusals ----

  function Updates(xs: seq<Exchange>): seq<Exchange> {
    if xs == [] then []
    else Updates(xs[..|xs| - 1]) + if xs[|xs| - 1].request.Update? then [xs[|xs| - 1]] else []
  }

  predicate AllConflicts(us: seq<Exchange>) {
    forall i :: 0 <= i < |us| ==> us[i].response.Conflict?
  }

  lemma OneMoreRequest(xs: seq<Exchange>, x: Exchange)
    ensures Updates(xs + [x]) == Updates(xs) + if x.request.Update? then [x] else []
  {
    assert (xs + [x])[..|xs|] == xs;
  }

  /** Why a Renew may give (false, nil): it lost the race to create the Lease; or a Get found no Lease any more
      or one of somebody else; or three Updates went out and every one met a conflict, though the Lease still
      names the caller. */
  predicate RenewRefused(xs: seq<Exchange>, holder: string) {
    && xs != []
    && var x := xs[|xs| - 1];
       || (x.request.Create? && x.response.AlreadyExists?)
       || (x.request.Get? && x.response.Found? && !HeldBy(x.response.lease, holder))
       || (x.request.Get? && x.response.NotFound?)
       || (x.request.Get? && x.response.Found? && MetConflicts(xs, 3))
  }

  /** Exactly `n` Updates went out, and every one met a conflict. */
  predicate MetConflicts(xs: seq<Exchange>, n: nat) {
    |Updates(xs)| == n && AllConflicts(Updates(xs))
  }

  lemma OneMoreConflict(xs: seq<Exchange>, x: Exchange, n: nat)
    requires MetConflicts(xs, n)
    ensures !x.request.Update? ==> MetConflicts(xs + [x], n)
    ensures x.request.Update? && x.response.Conflict? ==> MetConflicts(xs + [x], n + 1)
  {
    OneMoreRequest(xs, x);
  }

  /** How far a Renew has come. */
  predicate RenewIsAt(c: Call, xs: seq<Exchange>) {
    match c.phase
    case Writing(l) => HeldBy(l, c.me.holder) && c.attempt < 3 && MetConflicts(xs, c.attempt)
    case Rereading => c.attempt < 3 && MetConflicts(xs, c.attempt + 1)
    case Returned(v) => v == NotHeld <==> RenewRefused(xs, c.me.holder)
    case Checking(_) => false
    case Removing(_) => false
    case Creating => c.attempt == 0 && MetConflicts(xs, 0) && xs != [] && xs[|xs| - 1].response.NotFound?
    case _ => c.attempt == 0 && MetConflicts(xs, 0)
  }

  lemma RenewGoesOn(c: Call, xs: seq<Exchange>, x: Exchange, d: Call)
    requires c.op == Renew && RenewIsAt(c, xs) && Turnaround(c, x, d)
    ensures RenewIsAt(d, xs + [x])
  {
    assert (xs + [x])[|xs|] == x;
    OneMoreConflict(xs, x, if c.phase.Rereading? then c.attempt + 1 else c.attempt);
    if d.phase.Returned? {
      RenewReturns(c, xs, x, d);
    }
  }

  lemma RenewReturns(c: Call, xs: seq<Exchange>, x: Exchange, d: Call)
    requires c.op == Renew && RenewIsAt(c, xs) && Turnaround(c, x, d) && d.phase.Returned?
    ensures d.phase.verdict == NotHeld <==> RenewRefused(xs + [x], c.me.holder)
  {
  }

  lemma {:induction false} RenewFollowed(cs: seq<Call>, xs: seq<Exchange>, n: nat)
    requires Conversation(cs, xs) && cs[0].op == Renew && n <= |xs|
    ensures SameCaller(cs[0], cs[n]) && RenewIsAt(cs[n], xs[..n])
  {
    if n == 0 {
      assert xs[..0] == [];
    } else {
      RenewFollowed(cs, xs, n - 1);
      assert Turnaround(cs[n - 1], xs[n - 1], cs[n]);
      RenewGoesOn(cs[n - 1], xs[..n - 1], xs[n - 1], cs[n]);
      assert xs[..n] == xs[..n - 1] + [xs[n - 1]];
    }
  }

  /** A Renew gives (false, nil) for those reasons and no other. */
  lemma RenewRefusedExactly(cs: seq<Call>, xs: seq<Exchange>)
    requires Conversation(cs, xs) && cs[0].op == Renew && cs[|xs|].phase.Returned?
    ensures cs[|xs|].phase.verdict == NotHeld <==> RenewRefused(xs, cs[0].me.holder)
  {
    RenewFollowed(cs, xs, |xs|);
    assert xs[..|xs|] == xs;
  }

  /** The request was answered as it should, and the Lease named `holder`. */
  predicate Steady(x: Exchange, holder: string) {
    x.fault == Calm && x.before.Some? && HeldBy(x.before.value, holder)
  }

  lemma SteadyAnswer(x: Exchange, holder: string)
    requires Served(x) && Steady(x, holder)
    ensures x.response != Failed && !x.response.NotFound?
    ensures x.response.Found? ==> HeldBy(x.response.lease, holder)
    ensures x.request.Update? ==> x.response.Done? || x.response.Conflict?
  {
  }

  /** Conflicts alone do not cost a healthy agent its Lease: while the Lease keeps naming the caller and no
      request fails, a Renew holds it, unless three Updates in a row have met a conflict. */
  lemma RenewSurvivesConflicts(cs: seq<Call>, xs: seq<Exchange>)
    requires Conversation(cs, xs) && ClockNeverRunsBack(xs) && cs[0].op == Renew && cs[|xs|].phase.Returned?
    requires forall x :: x in xs ==> Steady(x, cs[0].me.holder)
    ensures cs[|xs|].phase.verdict == Held <==> !MetConflicts(xs, 3)
  {
    var holder := cs[0].me.holder;
    ErrorExactly(cs, xs);
    RenewRefusedExactly(cs, xs);
    var n := |xs| - 1;
    var x := xs[n];
    SteadyAnswer(x, holder);
    NoCreation(cs, xs);
    if MetConflicts(xs, 3) {
      LastUpdateConflicts(cs, xs);
    }
  }

  /** A Renew that finds a Lease creates none. */
  lemma NoCreation(cs: seq<Call>, xs: seq<Exchange>)
    requires Conversation(cs, xs) && cs[0].op == Renew && xs != []
    requires forall x :: x in xs ==> Steady(x, cs[0].me.holder)
    ensures !xs[|xs| - 1].request.Create?
  {
    var n := |xs| - 1;
    RenewFollowed(cs, xs, n);
    assert Turnaround(cs[n], xs[n], cs[n + 1]);
    if cs[n].phase.Creating? {
      assert Turnaround(cs[n - 1], xs[n - 1], cs[n]) && xs[..n][n - 1] == xs[n - 1];
      SteadyAnswer(xs[n - 1], cs[0].me.holder);
    }
  }

  lemma HeldIsDone(c: Call, x: Exchange, d: Call)
    requires Turnaround(c, x, d) && d.phase == Returned(Held)
    ensures x.response.Done? && (x.request.Create? || x.request.Update?)
  {
  }

  /** A call whose Updates all met conflicts does not hold the Lease, if it did not create it. */
  lemma LastUpdateConflicts(cs: seq<Call>, xs: seq<Exchange>)
    requires Conversation(cs, xs) && xs != [] && AllConflicts(Updates(xs)) && !xs[|xs| - 1].request.Create?
    ensures cs[|xs|].phase != Returned(Held)
  {
    var n := |xs| - 1;
    if cs[|xs|].phase == Returned(Held) {
      HeldIsDone(cs[n], xs[n], cs[n + 1]);
      LastUpdate(xs);
    }
  }

  lemma LastUpdate(xs: seq<Exchange>)
    requires xs != [] && xs[|xs| - 1].request.Update? && AllConflicts(Updates(xs))
    ensures xs[|xs| - 1].response.Conflict?
  {
    assert Updates(xs)[|Updates(xs)| - 1] == xs[|xs| - 1];
  }

  /** Why an Acquire may give (false, nil): it lost the race to create or to write the Lease; or the Lease it
      read was, by a clock read afterwards, not one that it may take. */
  predicate AcquireRefused(xs: seq<Exchange>, az: string, me: Ident) {
    && xs != []
    && var x := xs[|xs| - 1];
       || (x.request.Create? && x.response.AlreadyExists?)
       || (x.request.Update? && x.response.Conflict?)
       || (x.request.ReadClock? && |xs| > 1 && xs[|xs| - 2].request.Get? && xs[|xs| - 2].response.Found? &&
           !MayAcquire(xs[|xs| - 2].response.lease, az, me, x.clock))
  }

  /** Why a Release gives nil: there was nothing of its own to delete, or it has asked for the deletion. */
  predicate ReleaseDone(xs: seq<Exchange>, holder: string) {
    && xs != []
    && var x := xs[|xs| - 1];
       || (x.request.Get? && x.response.NotFound?)
       || (x.request.Get? && x.response.Found? && !HeldBy(x.response.lease, holder))
       || (x.request.Delete? && x.response != Failed)
  }

  /** A phase and the request that led to it. */
  predicate CameFrom(c: Call, xs: seq<Exchange>) {
    match c.phase
    case Checking(l) => c.op == Acquire && xs != [] && xs[|xs| - 1].request.Get? && xs[|xs| - 1].response == Found(l) &&
                        !HeldBy(l, c.me.holder)
    case Returned(v) =>
      (c.op == Acquire ==> (v == NotHeld <==> AcquireRefused(xs, c.az, c.me))) &&
      (c.op == Release ==> (v == NotHeld <==> ReleaseDone(xs, c.me.holder)))
    case _ => true
  }

  lemma OneCameFrom(c: Call, xs: seq<Exchange>, x: Exchange, d: Call)
    requires WellPhased(c) && CameFrom(c, xs) && Turnaround(c, x, d)
    ensures CameFrom(d, xs + [x])
  {
    assert (xs + [x])[|xs|] == x && (xs != [] ==> (xs + [x])[|xs| - 1] == xs[|xs| - 1]);
  }

  lemma StageIsSound(cs: seq<Call>, xs: seq<Exchange>, n: nat)
    requires Conversation(cs, xs) && ClockNeverRunsBack(xs) && n < |xs|
    ensures WellPhased(cs[n]) && Turnaround(cs[n], xs[n], cs[n + 1]) && SameCaller(cs[n], cs[n + 1])
  {
    CopyWasServed(cs, xs, n, xs[n].clock);
    OneReaction(cs[n], xs[n]);
  }

  lemma {:induction false} AllCameFrom(cs: seq<Call>, xs: seq<Exchange>, n: nat)
    requires Conversation(cs, xs) && ClockNeverRunsBack(xs) && n <= |xs|
    ensures SameCaller(cs[0], cs[n]) && CameFrom(cs[n], xs[..n])
  {
    if n == 0 {
    } else {
      AllCameFrom(cs, xs, n - 1);
      StageIsSound(cs, xs, n - 1);
      OneCameFrom(cs[n - 1], xs[..n - 1], xs[n - 1], cs[n]);
      assert xs[..n] == xs[..n - 1] + [xs[n - 1]];
    }
  }

  /** Each operation reports (false, nil), or nil for a Release, exactly for its reasons. */
  predicate Refused(op: Op, xs: seq<Exchange>, az: string, me: Ident) {
    match op
    case Renew => RenewRefused(xs, me.holder)
    case Acquire => AcquireRefused(xs, az, me)
    case Release => ReleaseDone(xs, me.holder)
  }

  lemma RefusedExactly(cs: seq<Call>, xs: seq<Exchange>)
    requires Conversation(cs, xs) && ClockNeverRunsBack(xs) && cs[|xs|].phase.Returned?
    ensures cs[|xs|].phase.verdict == NotHeld <==> Refused(cs[0].op, xs, cs[0].az, cs[0].me)
  {
    if cs[0].op == Renew {
      RenewRefusedExactly(cs, xs);
    } else {
      AllCameFrom(cs, xs, |xs|);
      assert xs[..|xs|] == xs;
    }
  }

  // ---- What is written ----

  /** The instant that a call writes as renew time is the one it read first, retries included. */
  lemma {:induction false} NowIsFirstReading(cs: seq<Call>, xs: seq<Exchange>, n: nat)
    requires Conversation(cs, xs) && 0 < n <= |xs|
    ensures SameCaller(cs[0], cs[n]) && (cs[0].op != Release ==> cs[n].now == xs[0].clock && !cs[n].phase.Starting?)
  {
    assert Turnaround(cs[n - 1], xs[n - 1], cs[n]);
    if n == 1 {
    } else {
      NowIsFirstReading(cs, xs, n - 1);
    }
  }

  /** What a call of `me` that began at instant `t` leaves: a new Lease; or the one before, taken or kept by
      the caller, renewed at `t` with its TTL and its label, if it has a home AZ, and otherwise as it was. */
  predicate Wrote(me: Ident, t: int, before: Option<Lease>, after: Lease, version: nat) {
    match before
    case None => after == Lease(Some(me.holder), Some(t), Some(me.durSecs), me.homeAZ, true, version)
    case Some(l) =>
      && after.holder == Some(me.holder) && after.renewTime == Some(t) && after.durationSecs == Some(me.durSecs)
      && after.homeLabel == (if me.homeAZ == "" then l.homeLabel else me.homeAZ)
      && after.managed == l.managed && after.version == version
  }

  /** Every change that is no deletion writes exactly that. */
  lemma ChangeWrote(cs: seq<Call>, xs: seq<Exchange>, i: nat)
    requires Conversation(cs, xs) && Consistent(xs) && i < |xs| && Changes(xs[i]) && xs[i].after.Some?
    ensures Wrote(cs[0].me, xs[0].clock, xs[i].before, xs[i].after.value, xs[i].next)
  {
    CopyIsCurrent(cs, xs, i);
    ChangesAreLicensed(cs, xs, i);
    if i == 0 {
    } else {
      NowIsFirstReading(cs, xs, i);
    }
  }
}

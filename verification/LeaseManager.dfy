/** The Lease manager of one agent (internal/lease/lease.go) and the API server it talks to while
    every other client of the server does as it likes. */
module LeaseManager {
  import opened Wrappers
  import opened Leases
  import opened LeaseCalls
  import opened LeaseVerdicts
  import RenewInterval

  /** Another client stores this Lease, or deletes it. */
  datatype Edit = Edit(key: string, lease: Option<Lease>)

  /** What happens before the next request is served, and how it is answered. */
  datatype Turn = Turn(delay: nat, others: seq<Edit>, fault: Fault)

  ghost predicate Extends(a: map<nat, Lease>, b: map<nat, Lease>) {
    forall v :: v in a ==> v in b && b[v] == a[v]
  }

  /** The server when a call begins; `alone` says that nobody else will act from then on and no request will fail. */
  datatype Opening = Opening(leases: map<string, Lease>, next: nat, clock: int, alone: bool)

  function NextAfter(x: Exchange): nat {
    if Changes(x) then x.next + 1 else x.next
  }

  /** Nothing but these requests happened: each was served, on what the one before it left. */
  ghost predicate Alone(xs: seq<Exchange>, cur: Option<Lease>, next: nat, clock: int) {
    forall i {:trigger xs[i]} :: 0 <= i < |xs| ==>
      xs[i].fault == Calm && xs[i].clock == clock &&
      (i == 0 ==> xs[i].before == cur && xs[i].next == next) &&
      (i > 0 ==> xs[i].before == xs[i - 1].after) &&
      (i > 0 ==> xs[i].next == NextAfter(xs[i - 1]))
  }

  lemma Puts(m: map<string, Lease>, k: string, a: Option<Lease>, b: Option<Lease>)
    ensures Put(Put(m, k, a), k, b) == Put(m, k, b)
    ensures Lookup(Put(m, k, a), k) == a
    ensures Put(m, k, Lookup(m, k)) == m
  {
  }

  /** What an undisturbed call leaves of the Lease, and its verdict. */
  function AloneOutcome(op: Op, cur: Option<Lease>, az: string, me: Ident, next: nat, now: int)
      : (Option<Lease>, Verdict)
  {
    match op
    case Renew =>
      if cur.None? then (Some(Fresh(me, now).(version := next)), Held)
      else if HeldBy(cur.value, me.holder) then (Some(Refreshed(cur.value, me, now).(version := next)), Held)
      else (cur, NotHeld)
    case Acquire =>
      if cur.None? then (Some(Fresh(me, now).(version := next)), Held)
      else if MayAcquire(cur.value, az, me, now) then (Some(Claimed(cur.value, me, now).(version := next)), Held)
      else (cur, NotHeld)
    case Release =>
      (if cur.Some? && HeldBy(cur.value, me.holder) then None else cur, NotHeld)
  }

  /** Runs a call against a Lease that nobody else touches, for at most `steps` requests. */
  function RunAlone(c: Call, cur: Option<Lease>, next: nat, clock: int, steps: nat): (Option<Lease>, Verdict)
    decreases steps
  {
    if c.phase.Returned? then (cur, c.phase.verdict)
    else if steps == 0 then (cur, Error)
    else
      var (after, r) := Effect(cur, next, clock, RequestOf(c));
      RunAlone(React(c, r), after, if after != cur then next + 1 else next, clock, steps - 1)
  }

  /** The conversation leaves the Lease, and gives the verdict, as `out` says. */
  ghost predicate EndsAs(cs: seq<Call>, xs: seq<Exchange>, out: (Option<Lease>, Verdict)) {
    |cs| == |xs| + 1 && xs != [] && out.0 == xs[|xs| - 1].after && cs[|xs|].phase == Returned(out.1)
  }

  lemma OneTurn(c: Call, x: Exchange, d: Call, steps: nat)
    requires Turnaround(c, x, d) && x.fault == Calm
    ensures RunAlone(c, x.before, x.next, x.clock, steps + 1) == RunAlone(d, x.after, NextAfter(x), x.clock, steps)
  {
  }

  lemma {:induction false} RunFollows(cs: seq<Call>, xs: seq<Exchange>, cur: Option<Lease>, next: nat, clock: int,
                                      k: nat, steps: nat, out: (Option<Lease>, Verdict))
    requires Conversation(cs, xs) && Alone(xs, cur, next, clock) && cs[|xs|].phase.Returned?
    requires xs != [] && k < |xs| <= k + steps
    requires out == RunAlone(cs[k], xs[k].before, xs[k].next, clock, steps)
    ensures EndsAs(cs, xs, out)
    decreases steps
  {
    var x, d := xs[k], cs[k + 1];
    assert x.fault == Calm && x.clock == clock;
    OneTurn(cs[k], x, d, steps - 1);
    if k + 1 == |xs| {
    } else {
      var y := xs[k + 1];
      assert y.before == x.after && y.next == NextAfter(x);
      RunFollows(cs, xs, cur, next, clock, k + 1, steps - 1, out);
    }
  }

  lemma AloneRun(cs: seq<Call>, xs: seq<Exchange>, cur: Option<Lease>, next: nat, clock: int)
    requires Conversation(cs, xs) && Alone(xs, cur, next, clock) && cs[|xs|].phase.Returned?
    ensures EndsAs(cs, xs, AloneOutcome(cs[0].op, cur, cs[0].az, cs[0].me, next, clock))
  {
    assert xs != [] && xs[0].before == cur && xs[0].next == next;
    var out := AloneOutcome(cs[0].op, cur, cs[0].az, cs[0].me, next, clock);
    RunsTo(cs[0], cur, next, clock, |xs|);
    RunFollows(cs, xs, cur, next, clock, 0, |xs| + 4, out);
  }

  lemma RunsTo(c: Call, cur: Option<Lease>, next: nat, clock: int, n: nat)
    requires c == Begin(c.op, c.az, c.me)
    ensures RunAlone(c, cur, next, clock, n + 4) == AloneOutcome(c.op, cur, c.az, c.me, next, clock)
  {
    if c.op == Release {
      AfterRead(c, cur, next, clock, n + 1);
    } else {
      AfterRead(c.(now := clock, phase := Reading), cur, next, clock, n);
    }
  }

  /** An undisturbed call that is about to write succeeds. */
  lemma Finish(c: Call, cur: Option<Lease>, next: nat, clock: int, n: nat)
    requires c.phase.Returned? || (c.phase.Creating? && cur.None?) ||
             ((c.phase.Writing? || c.phase.Removing?) && cur == Some(c.phase.base))
    ensures RunAlone(c, cur, next, clock, n + 1) ==
            match c.phase
            case Creating => (Some(Fresh(c.me, c.now).(version := next)), Held)
            case Writing(l) =>
              var mine := if c.op == Renew then Refreshed(l, c.me, c.now) else Claimed(l, c.me, c.now);
              (Some(mine.(version := next)), Held)
            case Removing(_) => (None, NotHeld)
            case Returned(v) => (cur, v)
            case _ => (cur, Error)
  {
    if !c.phase.Returned? {
      var (after, r) := Effect(cur, next, clock, RequestOf(c));
      var d := React(c, r);
      assert RunAlone(d, after, if after != cur then next + 1 else next, clock, n) == (after, d.phase.verdict);
    }
  }

  lemma AfterRead(c: Call, cur: Option<Lease>, next: nat, clock: int, n: nat)
    requires c.phase == Reading && (c.op == Release || c.now == clock)
    ensures RunAlone(c, cur, next, clock, n + 3) == AloneOutcome(c.op, cur, c.az, c.me, next, clock)
  {
    var d := AfterGet(c, if cur.Some? then Found(cur.value) else NotFound);
    assert RunAlone(c, cur, next, clock, n + 3) == RunAlone(d, cur, next, clock, n + 2);
    if d.phase.Checking? {
      var e := React(d, Time(clock));
      assert RunAlone(d, cur, next, clock, n + 2) == RunAlone(e, cur, next, clock, n + 1);
      Finish(e, cur, next, clock, n);
    } else {
      Finish(d, cur, next, clock, n + 1);
    }
  }

  ghost predicate Last(xs: seq<Exchange>, l: Option<Lease>) {
    forall i {:trigger xs[i]} :: 0 <= i == |xs| - 1 ==> xs[i].after == l
  }

  /** Only the requests `xs`, all on `key`, have changed the server since it looked like `o`. */
  ghost predicate Undisturbed(o: Opening, key: string, xs: seq<Exchange>, leases: map<string, Lease>, next: nat) {
    && Alone(xs, Lookup(o.leases, key), o.next, o.clock)
    && leases == Put(o.leases, key, Lookup(leases, key))
    && (xs == [] ==> leases == o.leases && next == o.next)
    && (forall i {:trigger xs[i]} :: 0 <= i == |xs| - 1 ==> next == NextAfter(xs[i]))
  }

  lemma UndisturbedExtends(o: Opening, key: string, xs: seq<Exchange>, leases: map<string, Lease>, next: nat,
                           x: Exchange)
    requires Undisturbed(o, key, xs, leases, next) && Last(xs, Lookup(leases, key))
    requires x.before == Lookup(leases, key) && x.next == next && x.clock == o.clock && x.fault == Calm
    ensures Undisturbed(o, key, xs + [x], Put(leases, key, x.after), if Changes(x) then next + 1 else next)
  {
    var ys := xs + [x];
    assert forall i :: 0 <= i < |xs| ==> ys[i] == xs[i];
    assert xs != [] ==> xs[|xs| - 1].after == x.before;
    Puts(o.leases, key, x.before, x.after);
    Puts(leases, key, x.after, x.after);
  }

  /** After request `x` it is the last one, and if nobody else acts then still nobody else has. */
  lemma Delivered(o: Opening, key: string, xs: seq<Exchange>, leases: map<string, Lease>, next: nat, x: Exchange)
    requires x.before == Lookup(leases, key) && x.next == next
    requires o.alone ==>
               Undisturbed(o, key, xs, leases, next) && Last(xs, x.before) && x.clock == o.clock && x.fault == Calm
    ensures var now := Put(leases, key, x.after);
            Lookup(now, key) == x.after && Last(xs + [x], x.after) &&
            (o.alone ==> Undisturbed(o, key, xs + [x], now, NextAfter(x)))
  {
    Puts(leases, key, x.after, x.after);
    if o.alone {
      UndisturbedExtends(o, key, xs, leases, next, x);
    }
  }

  /** A write that took effect stores a version of its own. */
  lemma Stored(cur: Option<Lease>, next: nat, clock: int, q: Request, f: Fault)
    ensures var after := Respond(cur, next, clock, q, f).0; after != cur && after.Some? ==> after.value.version == next
  {
  }

  class ApiServer {
    var leases: map<string, Lease>
    var next: nat                         // the version the next write gets
    var clock: int
    var world: seq<Turn>                  // arbitrary; once it is used up, the client is alone and no request fails
    ghost var revisions: map<nat, Lease>  // every version ever stored
    ghost var past: seq<Exchange>         // every request of this client's earlier calls
    ghost var talk: seq<Exchange>         // the requests of its current call
    ghost var stages: seq<Call>           // and the stages it has gone through
    ghost var opening: Opening

    ghost predicate Valid()
      reads this
    {
      && StoreValid()
      && WireValid(past + talk)
      && Conversation(stages, talk) && SameCaller(Begun(), At())
      && Last(talk, Lookup(leases, LeaseName(Begun().az)))
      && (opening.alone ==>
            world == [] && clock == opening.clock && Undisturbed(opening, LeaseName(Begun().az), talk, leases, next))
    }

    /** The current call when it began. */
    ghost function Begun(): Call
      reads this`stages
      requires stages != []
    {
      stages[0]
    }

    /** How far the current call has come. */
    ghost function At(): Call
      reads this`stages
      requires stages != []
    {
      stages[|stages| - 1]
    }

    ghost predicate StoreValid()
      reads this`leases, this`next, this`revisions
    {
      && (forall k :: k in leases ==> leases[k].version in revisions && revisions[leases[k].version] == leases[k])
      && (forall v :: v in revisions ==> v < next)
    }

    ghost predicate WireValid(xs: seq<Exchange>)
      reads this`revisions, this`clock
    {
      && (forall i :: 0 <= i < |xs| ==> Served(xs[i]) && xs[i].clock <= clock && Known(xs[i].before))
      && ClockNeverRunsBack(xs)
    }

    ghost predicate Known(l: Option<Lease>)
      reads this`revisions
    {
      l.Some? ==> l.value.version in revisions && revisions[l.value.version] == l.value
    }

    constructor (now: int, world: seq<Turn>)
      ensures Valid() && leases == map[] && past + talk == [] && clock == now && this.world == world
    {
      leases, next, clock, this.world := map[], 0, now, world;
      revisions, past, talk := map[], [], [];
      stages := [Begin(Release, "", Ident("", "", 0))];
      opening := Opening(map[], 0, now, false);
    }

    /** A call begins. */
    ghost method Open(c: Call)
      requires Valid()
      requires c == Begin(c.op, c.az, c.me)
      modifies this`past, this`talk, this`stages, this`opening
      ensures Valid() && talk == [] && past == old(past + talk) && stages == [c]
      ensures opening == Opening(leases, next, clock, world == [])
    {
      past, talk, stages := past + talk, [], [c];
      opening := Opening(leases, next, clock, world == []);
      assert past + talk == past;
    }

    lemma TalkConsistent()
      requires WireValid(past + talk)
      ensures Consistent(talk)
    {
      var xs, m := past + talk, |past|;
      assert forall i :: 0 <= i < |talk| ==> talk[i] == xs[m + i];
      forall i, j | 0 <= i < |talk| && 0 <= j < |talk| ensures SameVersionSameLease(talk[i].before, talk[j].before) {
        assert Known(xs[m + i].before) && Known(xs[m + j].before);
      }
      forall i, j | 0 <= i <= j < |talk| ensures talk[i].clock <= talk[j].clock {
        assert xs[m + i].clock <= xs[m + j].clock;
      }
    }

    /** Stores a new version, or deletes. */
    method Commit(key: string, after: Option<Lease>)
      requires StoreValid()
      requires after.Some? ==> after.value.version == next
      modifies this`leases, this`next, this`revisions
      ensures StoreValid() && leases == Put(old(leases), key, after) && next == old(next) + 1
      ensures Extends(old(revisions), revisions)
    {
      leases := Put(leases, key, after);
      if after.Some? { revisions := revisions[next := after.value]; }
      next := next + 1;
    }

    method Others(edits: seq<Edit>)
      requires StoreValid()
      modifies this`leases, this`next, this`revisions
      ensures StoreValid() && Extends(old(revisions), revisions)
      ensures edits == [] ==> leases == old(leases) && next == old(next)
    {
      for i := 0 to |edits|
        invariant StoreValid() && Extends(old(revisions), revisions)
        invariant edits == [] ==> leases == old(leases) && next == old(next)
      {
        var e := edits[i];
        Commit(e.key, if e.lease.Some? then Some(e.lease.value.(version := next)) else None);
      }
    }

    /** Time passes and the others act, as scripted for this turn. */
    method WorldActs() returns (fault: Fault)
      requires StoreValid() && WireValid(past + talk)
      modifies this`leases, this`next, this`revisions, this`clock, this`world
      ensures StoreValid() && WireValid(past + talk) && clock >= old(clock)
      ensures old(world) == [] ==>
                fault == Calm && world == [] && clock == old(clock) && leases == old(leases) && next == old(next)
    {
      fault := Calm;
      if world != [] {
        var turn := world[0];
        world := world[1..];
        clock := clock + turn.delay;
        fault := turn.fault;
        Others(turn.others);
      }
    }

    /** One request of the current call, served after everything the others did first. */
    method Send(key: string, q: Request) returns (r: Response)
      requires Valid() && !At().phase.Returned? && q == RequestOf(At()) && key == LeaseName(Begun().az)
      modifies this
      ensures Valid() && past == old(past) && opening == old(opening)
      ensures Begun() == old(Begun()) && At() == React(old(At()), r)
      ensures q.ReadClock? ==> r == Time(clock)
    {
      var fault := WorldActs();
      r := Deliver(key, q, fault);
    }

    method Deliver(key: string, q: Request, fault: Fault) returns (r: Response)
      requires StoreValid() && WireValid(past + talk) && Conversation(stages, talk) && SameCaller(Begun(), At())
      requires opening.alone ==>
                 && Last(talk, Lookup(leases, LeaseName(Begun().az)))
                 && fault == Calm && world == [] && clock == opening.clock
                 && Undisturbed(opening, key, talk, leases, next)
      requires !At().phase.Returned? && q == RequestOf(At()) && key == LeaseName(Begun().az)
      modifies this`leases, this`next, this`revisions, this`talk, this`stages
      ensures Valid() && Begun() == old(Begun()) && At() == React(old(At()), r)
      ensures q.ReadClock? ==> r == Time(clock)
    {
      var before := Lookup(leases, key);
      var (after, answer) := Respond(before, next, clock, q, fault);
      r := answer;
      assert Known(before);
      Stored(before, next, clock, q, fault);
      ghost var x := Exchange(key, q, before, next, clock, fault, after, r);
      Delivered(opening, key, talk, leases, next, x);
      Record(x);
      Store(key, before, after);
    }

    method Store(key: string, before: Option<Lease>, after: Option<Lease>)
      requires StoreValid() && WireValid(past + talk) && before == Lookup(leases, key)
      requires after != before && after.Some? ==> after.value.version == next
      modifies this`leases, this`next, this`revisions
      ensures StoreValid() && WireValid(past + talk)
      ensures leases == Put(old(leases), key, after) && next == if after != before then old(next) + 1 else old(next)
    {
      if after != before {
        Commit(key, after);
      } else {
        assert leases == Put(leases, key, after);
      }
    }

    ghost method Record(x: Exchange)
      requires WireValid(past + talk) && Conversation(stages, talk)
      requires Served(x) && x.clock == clock && Known(x.before)
      requires !At().phase.Returned? && x.request == RequestOf(At()) && x.key == LeaseName(At().az)
      modifies this`talk, this`stages
      ensures WireValid(past + talk) && Conversation(stages, talk)
      ensures talk == old(talk) + [x] && Begun() == old(Begun()) && At() == React(old(At()), x.response)
      ensures SameCaller(old(At()), At())
    {
      assert past + (talk + [x]) == (past + talk) + [x];
      stages := stages + [React(At(), x.response)];
      talk := talk + [x];
    }
  }

  /** How one attempt of a Renew ends: with a verdict, or with a copy to try again on. */
  datatype Attempt = Settled(ok: bool, err: bool) | Conflicted(latest: Lease)

  class Manager {
    const server: ApiServer
    const leaseDuration: int
    const homeAZ: string

    constructor (server: ApiServer, leaseDuration: int, homeAZ: string)
      ensures this.server == server && this.leaseDuration == leaseDuration && this.homeAZ == homeAZ
    {
      this.server, this.leaseDuration, this.homeAZ := server, leaseDuration, homeAZ;
    }

    function Me(holder: string): Ident {
      Ident(holder, homeAZ, RenewInterval.DurSecs(leaseDuration))
    }

    /** The last call of this client was `op`, it ran to its end as its automaton does, and ended with `v`. */
    ghost predicate Completed(op: Op, az: string, holder: string, v: Verdict)
      reads server
    {
      && server.Valid() && server.Begun() == Begin(op, az, Me(holder)) && server.At().phase == Returned(v)
    }

    /** The last call of this client was `op`, and it ran to its end. */
    ghost predicate Ended(op: Op, az: string, holder: string)
      reads server
    {
      server.stages != [] && server.At().phase.Returned? && Completed(op, az, holder, server.At().phase.verdict)
    }

    /** A completed call is honest. Held: exactly its last request changed something, and the Lease now
        names `holder`. NotHeld from Renew or Acquire: nothing changed. An error: at most the last
        request changed something. Renew and Release change no existing Lease that names someone else,
        and Acquire none that is live, names someone else and is not a foreign stand-in's. */
    lemma CompletedIsHonest(op: Op, az: string, holder: string, v: Verdict)
      requires Completed(op, az, holder, v)
      ensures server.talk != []
      ensures v == Held ==> op != Op.Release && Changes(server.talk[|server.talk| - 1]) &&
                            LeaseName(az) in server.leases && HeldBy(server.leases[LeaseName(az)], holder)
      ensures v == NotHeld && op != Op.Release ==> forall x :: x in server.talk ==> !Changes(x)
      ensures forall i :: 0 <= i < |server.talk| && Changes(server.talk[i]) ==>
                i == |server.talk| - 1 && server.talk[i].key == LeaseName(az) &&
                (op == Op.Release <==> server.talk[i].after.None?) &&
                (server.talk[i].before.Some? ==>
                   if op == Op.Acquire then MayAcquire(server.talk[i].before.value, az, Me(holder),
                                                       server.talk[i].clock)
                   else HeldBy(server.talk[i].before.value, holder))
    {
      server.TalkConsistent();
      var cs, xs := server.stages, server.talk;
      VerdictIsHonest(cs, xs);
      forall i | 0 <= i < |xs| && Changes(xs[i])
        ensures i == |xs| - 1 && xs[i].key == LeaseName(az) && (op == Op.Release <==> xs[i].after.None?)
        ensures xs[i].before.Some? ==>
                  if op == Op.Acquire then MayAcquire(xs[i].before.value, az, Me(holder), xs[i].clock)
                  else HeldBy(xs[i].before.value, holder)
      {
        ChangesAreLicensed(cs, xs, i);
        CopyIsCurrent(cs, xs, i);
      }
      assert xs[|xs| - 1].after == Lookup(server.leases, LeaseName(az));
    }

    /** A call that nobody interferes with does exactly what its operation says. */
    lemma CompletedAlone(op: Op, az: string, holder: string, v: Verdict)
      requires Completed(op, az, holder, v) && server.opening.alone
      ensures server.world == [] && server.clock == server.opening.clock
      ensures var o := server.opening;
              var cur := Lookup(o.leases, LeaseName(az));
              var (after, verdict) := AloneOutcome(op, cur, az, Me(holder), o.next, o.clock);
              v == verdict && server.leases == Put(o.leases, LeaseName(az), after)
    {
      var o := server.opening;
      AloneRun(server.stages, server.talk, Lookup(o.leases, LeaseName(az)), o.next, o.clock);
      assert server.talk[|server.talk| - 1].after == Lookup(server.leases, LeaseName(az));
    }

    /** Why a completed call ended as it did: with a refusal exactly for its operation's reasons, with an error
        exactly if its last request failed or found the Lease to update gone. */
    lemma CompletedExplained(op: Op, az: string, holder: string, v: Verdict)
      requires Completed(op, az, holder, v)
      ensures v == NotHeld <==> Refused(op, server.talk, az, Me(holder))
      ensures server.talk != []
      ensures var x := server.talk[|server.talk| - 1];
              v == Error <==> x.response == Failed || (x.request.Update? && x.response.NotFound?)
    {
      server.TalkConsistent();
      RefusedExactly(server.stages, server.talk);
      ErrorExactly(server.stages, server.talk);
    }

    /** A completed call has asked about its Lease. */
    lemma CompletedAsked(op: Op, az: string, holder: string, v: Verdict)
      requires Completed(op, az, holder, v)
      ensures server.talk != [] && server.talk[0].key == LeaseName(az)
    {
      assert |server.stages| > 1;
      assert Turnaround(server.stages[0], server.talk[0], server.stages[1]);
    }

    lemma RenewExplained(az: string, holder: string, v: Verdict)
      requires Completed(Op.Renew, az, holder, v)
      ensures v == NotHeld <==> RenewRefused(server.talk, holder)
    {
      RenewRefusedExactly(server.stages, server.talk);
    }

    /** A Renew during which no request fails and the Lease keeps naming the caller holds it, however many
        others write it meanwhile, unless three Updates have met a conflict. */
    lemma RenewSurvives(az: string, holder: string, v: Verdict)
      requires Completed(Op.Renew, az, holder, v) && forall x :: x in server.talk ==> Steady(x, holder)
      ensures v == Held <==> !MetConflicts(server.talk, 3)
    {
      server.TalkConsistent();
      RenewSurvivesConflicts(server.stages, server.talk);
    }

    /** A call that holds the Lease leaves it renewed at the first instant it read, for the configured
        duration in whole seconds, and labelled with this agent's home AZ if it has one. */
    lemma CompletedWrote(op: Op, az: string, holder: string)
      requires Completed(op, az, holder, Held)
      ensures server.talk != [] && LeaseName(az) in server.leases
      ensures var l, x := server.leases[LeaseName(az)], server.talk[|server.talk| - 1];
              && Wrote(Me(holder), server.talk[0].clock, x.before, l, x.next)
              && (leaseDuration > 0 ==>
                    l.durationSecs.Some? &&
                    leaseDuration - SECOND < l.durationSecs.value * SECOND <= leaseDuration)
              && (homeAZ != "" ==> l.homeLabel == homeAZ)
    {
      server.TalkConsistent();
      VerdictIsHonest(server.stages, server.talk);
      ChangeWrote(server.stages, server.talk, |server.talk| - 1);
      assert server.talk[|server.talk| - 1].after == Lookup(server.leases, LeaseName(az));
      if leaseDuration > 0 { RenewInterval.WholeSeconds(leaseDuration); }
    }

    function SetHomeAZ(l: Lease, az: string): Lease {
      if az == "" then l else l.(homeLabel := az)
    }

    /** Creates the Lease for az, or extends it if this agent holds it; never steals one. */
    method Renew(az: string, holder: string) returns (ok: bool, err: bool)
      requires server.Valid()
      modifies server
      ensures server.past == old(server.past + server.talk)
      ensures server.opening ==
                Opening(old(server.leases), old(server.next), old(server.clock), old(server.world) == [])
      ensures !(ok && err) && Completed(Op.Renew, az, holder, if ok then Held else if err then Error else NotHeld)
    {
      server.Open(Begin(Op.Renew, az, Me(holder)));
      ghost var past, opening := server.past, server.opening;
      var name := LeaseName(az);
      var tick := server.Send(name, ReadClock);
      var now := tick.t;
      var durSecs := RenewInterval.DurSecs(leaseDuration);

      var got := server.Send(name, Get);
      if got.NotFound? {
        var created := server.Send(name, Create(Fresh(Me(holder), now)));
        return created.Done?, !created.Done? && !created.AlreadyExists?;
      }
      if !got.Found? {
        return false, true;
      }
      var existing := got.lease;
      if existing.holder.None? || existing.holder.value != holder {
        return false, false;
      }
      for attempt := 0 to 3
        invariant server.Valid() && server.past == past && server.opening == opening
        invariant server.Begun() == Begin(Op.Renew, az, Me(holder)) && HeldBy(existing, holder)
        invariant attempt < 3 ==> server.At() == Call(Op.Renew, az, Me(holder), now, attempt, Writing(existing))
        invariant attempt == 3 ==> server.At().phase == Returned(NotHeld)
      {
        var tried := Refresh(existing, az, holder, now, durSecs, attempt);
        if tried.Settled? {
          return tried.ok, tried.err;
        }
        existing := tried.latest;
      }
      return false, false;
    }

    /** One attempt of a Renew: writes the refreshed copy, and after a conflict reads it again. */
    method Refresh(l: Lease, az: string, holder: string, now: int, durSecs: int, ghost attempt: nat)
        returns (tried: Attempt)
      requires server.Valid() && server.Begun() == Begin(Op.Renew, az, Me(holder)) && attempt < 3
      requires server.At() == Call(Op.Renew, az, Me(holder), now, attempt, Writing(l)) && durSecs == Me(holder).durSecs
      modifies server
      ensures server.past == old(server.past) && server.opening == old(server.opening)
      ensures match tried
              case Settled(ok, err) =>
                !(ok && err) && Completed(Op.Renew, az, holder, if ok then Held else if err then Error else NotHeld)
              case Conflicted(latest) =>
                && server.Valid() && server.Begun() == Begin(Op.Renew, az, Me(holder)) && HeldBy(latest, holder)
                && if attempt == 2 then server.At().phase == Returned(NotHeld)
                   else server.At() == Call(Op.Renew, az, Me(holder), now, attempt + 1, Writing(latest))
    {
      var name := LeaseName(az);
      var refreshed := l.(renewTime := Some(now), durationSecs := Some(durSecs));
      refreshed := SetHomeAZ(refreshed, homeAZ);
      var updated := server.Send(name, Update(refreshed));
      if updated.Done? {
        return Settled(true, false);
      }
      if !updated.Conflict? {
        return Settled(false, true);
      }
      var latest := server.Send(name, Get);
      if latest.NotFound? {
        return Settled(false, false);
      }
      if !latest.Found? {
        return Settled(false, true);
      }
      if latest.lease.holder.None? || latest.lease.holder.value != holder {
        return Settled(false, false);
      }
      return Conflicted(latest.lease);
    }

    /** Takes the Lease for az when it is absent, expired, or held by a stand-in while this agent runs in az. */
    method Acquire(az: string, holder: string) returns (ok: bool, err: bool)
      requires server.Valid()
      modifies server
      ensures server.past == old(server.past + server.talk)
      ensures server.opening ==
                Opening(old(server.leases), old(server.next), old(server.clock), old(server.world) == [])
      ensures !(ok && err) && Completed(Op.Acquire, az, holder, if ok then Held else if err then Error else NotHeld)
    {
      server.Open(Begin(Op.Acquire, az, Me(holder)));
      var name := LeaseName(az);
      var tick := server.Send(name, ReadClock);
      var now := tick.t;
      var durSecs := RenewInterval.DurSecs(leaseDuration);

      var got := server.Send(name, Get);
      if got.NotFound? {
        var created := server.Send(name, Create(Fresh(Me(holder), now)));
        return created.Done?, !created.Done? && !created.AlreadyExists?;
      }
      if !got.Found? {
        return false, true;
      }
      var existing := got.lease;
      if existing.holder.Some? && existing.holder.value == holder {
        ok, err := Write(existing, az, holder, now, durSecs);
        return;
      }
      var later := server.Send(name, ReadClock);
      var expired := IsExpired(existing, later.t);
      var heldByForeignFailover := homeAZ == az && existing.homeLabel != "" && existing.homeLabel != az;
      if !expired && !heldByForeignFailover {
        return false, false;
      }
      ok, err := Write(existing, az, holder, now, durSecs);
    }

    /** The compare-and-set of an Acquire; a conflict is a clean loss. */
    method Write(l: Lease, az: string, holder: string, now: int, durSecs: int) returns (ok: bool, err: bool)
      requires server.Valid() && server.Begun() == Begin(Op.Acquire, az, Me(holder))
      requires server.At() == Call(Op.Acquire, az, Me(holder), now, 0, Writing(l)) && durSecs == Me(holder).durSecs
      modifies server
      ensures server.past == old(server.past) && server.opening == old(server.opening)
      ensures !(ok && err) && Completed(Op.Acquire, az, holder, if ok then Held else if err then Error else NotHeld)
    {
      var mine := l.(holder := Some(holder));
      mine := mine.(renewTime := Some(now));
      mine := mine.(durationSecs := Some(durSecs));
      mine := SetHomeAZ(mine, homeAZ);
      var updated := server.Send(LeaseName(az), Update(mine));
      return updated.Done?, !updated.Done? && !updated.Conflict?;
    }

    /** Deletes the Lease for az if `holder` holds it; losing a race is no error. */
    method Release(az: string, holder: string) returns (err: bool)
      requires server.Valid()
      modifies server
      ensures server.past == old(server.past + server.talk)
      ensures server.opening ==
                Opening(old(server.leases), old(server.next), old(server.clock), old(server.world) == [])
      ensures Completed(Op.Release, az, holder, if err then Error else NotHeld)
    {
      server.Open(Begin(Op.Release, az, Me(holder)));
      var name := LeaseName(az);
      var got := server.Send(name, Get);
      if got.NotFound? {
        return false;
      }
      if !got.Found? {
        return true;
      }
      var existing := got.lease;
      if existing.holder.None? || existing.holder.value != holder {
        return false;
      }
      var deleted := server.Send(name, Delete(existing.version));
      return !deleted.Done? && !deleted.NotFound? && !deleted.Conflict?;
    }
  }
}

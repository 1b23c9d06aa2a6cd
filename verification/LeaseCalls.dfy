/** Renew, Acquire and Release as automata that talk to the API server one request at a time, and
    the server's answer to one request on one Lease. The step-level protocol runs these automata
    interleaved; the methods of LeaseManager are proved to follow them. */
module LeaseCalls {
  import opened Wrappers
  import opened Leases

  datatype Op = Renew | Acquire | Release

  /** Held is (true, nil), NotHeld is (false, nil) or a nil error from Release, Error is any error. */
  datatype Verdict = Held | NotHeld | Error

  datatype Request = ReadClock | Get | Create(lease: Lease) | Update(lease: Lease) | Delete(version: nat)

  datatype Response = Time(t: int) | Found(lease: Lease) | Done | NotFound | AlreadyExists | Conflict | Failed

  datatype Phase =
    | Starting                 // about to read the clock
    | Reading                  // about to Get
    | Checking(seen: Lease)    // Acquire, before its second clock reading
    | Creating
    | Writing(base: Lease)     // about to Update the copy `base`
    | Rereading                // Renew, after a conflict
    | Removing(base: Lease)
    | Returned(verdict: Verdict)

  datatype Call = Call(op: Op, az: string, me: Ident, now: int, attempt: nat, phase: Phase)

  const RENEW_ATTEMPTS := 3

  function Begin(op: Op, az: string, me: Ident): Call {
    Call(op, az, me, 0, 0, if op == Release then Reading else Starting)
  }

  function Give(c: Call, v: Verdict): Call {
    c.(phase := Returned(v))
  }

  function RequestOf(c: Call): Request
    requires !c.phase.Returned?
  {
    match c.phase
    case Starting => ReadClock
    case Reading => Get
    case Checking(_) => ReadClock
    case Creating => Create(Fresh(c.me, c.now))
    case Writing(base) => Update(if c.op == Renew then Refreshed(base, c.me, c.now) else Claimed(base, c.me, c.now))
    case Rereading => Get
    case Removing(base) => Delete(base.version)
  }

  function React(c: Call, r: Response): Call
    requires !c.phase.Returned?
  {
    match c.phase
    case Starting => if r.Time? then c.(now := r.t, phase := Reading) else Give(c, Error)
    case Reading => AfterGet(c, r)
    case Checking(seen) =>
      if !r.Time? then Give(c, Error)
      else if IsExpired(seen, r.t) || HeldByForeignFailover(seen, c.az, c.me.homeAZ) then c.(phase := Writing(seen))
      else Give(c, NotHeld)
    case Creating => Give(c, if r.Done? then Held else if r.AlreadyExists? then NotHeld else Error)
    case Writing(_) =>
      if r.Done? then Give(c, Held)
      else if !r.Conflict? then Give(c, Error)
      else if c.op == Renew then c.(phase := Rereading)
      else Give(c, NotHeld)
    case Rereading =>
      if r.NotFound? then Give(c, NotHeld)
      else if !r.Found? then Give(c, Error)
      else if !HeldBy(r.lease, c.me.holder) || c.attempt + 1 >= RENEW_ATTEMPTS then Give(c, NotHeld)
      else c.(attempt := c.attempt + 1, phase := Writing(r.lease))
    case Removing(_) => Give(c, if r.Done? || r.NotFound? || r.Conflict? then NotHeld else Error)
  }

  function AfterGet(c: Call, r: Response): Call {
    match c.op
    case Renew =>
      if r.NotFound? then c.(phase := Creating)
      else if !r.Found? then Give(c, Error)
      else if HeldBy(r.lease, c.me.holder) then c.(phase := Writing(r.lease))
      else Give(c, NotHeld)
    case Acquire =>
      if r.NotFound? then c.(phase := Creating)
      else if !r.Found? then Give(c, Error)
      else if HeldBy(r.lease, c.me.holder) then c.(phase := Writing(r.lease))
      else c.(phase := Checking(r.lease))
    case Release =>
      if r.NotFound? then Give(c, NotHeld)
      else if !r.Found? then Give(c, Error)
      else if HeldBy(r.lease, c.me.holder) then c.(phase := Removing(r.lease))
      else Give(c, NotHeld)
  }

  // ---- The server ----

  /** Compare-and-set on resourceVersion; `next` is the version a write would get. */
  function Effect(cur: Option<Lease>, next: nat, clock: int, q: Request): (Option<Lease>, Response) {
    match q
    case ReadClock => (cur, Time(clock))
    case Get => (cur, if cur.Some? then Found(cur.value) else NotFound)
    case Create(l) => if cur.Some? then (cur, AlreadyExists) else (Some(l.(version := next)), Done)
    case Update(l) =>
      if cur.None? then (cur, NotFound)
      else if cur.value.version != l.version then (cur, Conflict)
      else (Some(l.(version := next)), Done)
    case Delete(v) =>
      if cur.None? then (cur, NotFound)
      else if cur.value.version != v then (cur, Conflict)
      else (None, Done)
  }

  /** The clock is local: reading it cannot fail. */
  function Respond(cur: Option<Lease>, next: nat, clock: int, q: Request, f: Fault): (Option<Lease>, Response) {
    var (after, r) := Effect(cur, next, clock, q);
    if q.ReadClock? || f == Calm then (after, r)
    else (if f == Lost then cur else after, Failed)
  }

  // ---- Conversations ----

  /** One request as the server saw it. */
  datatype Exchange = Exchange(key: string, request: Request, before: Option<Lease>, next: nat, clock: int,
                               fault: Fault, after: Option<Lease>, response: Response)

  predicate Served(x: Exchange) {
    && (x.after, x.response) == Respond(x.before, x.next, x.clock, x.request, x.fault)
    && (x.before.Some? ==> x.before.value.version < x.next)
  }

  /** Request `x` is the one that `c` sends next, and its response takes `c` to `d`. */
  predicate Turnaround(c: Call, x: Exchange, d: Call) {
    && Served(x) && !c.phase.Returned? && x.request == RequestOf(c) && x.key == LeaseName(c.az)
    && d == React(c, x.response)
  }

  /** The requests `xs` take a call through the stages `cs`. */
  ghost predicate Conversation(cs: seq<Call>, xs: seq<Exchange>) {
    && |cs| == |xs| + 1
    && cs[0] == Begin(cs[0].op, cs[0].az, cs[0].me)
    && forall i {:trigger xs[i]} :: 0 <= i < |xs| ==> Turnaround(cs[i], xs[i], cs[i + 1])
  }

  predicate Changes(x: Exchange) {
    x.before != x.after
  }

  /** Two reads of one version of one Lease agree, as resourceVersions promise. */
  ghost predicate VersionsIdentify(xs: seq<Exchange>) {
    forall i, j {:trigger xs[i], xs[j]} :: 0 <= i < |xs| && 0 <= j < |xs| ==>
        SameVersionSameLease(xs[i].before, xs[j].before)
  }

  predicate SameVersionSameLease(a: Option<Lease>, b: Option<Lease>) {
    a.Some? && b.Some? && a.value.version == b.value.version ==> a == b
  }

  ghost predicate Consistent(xs: seq<Exchange>) {
    VersionsIdentify(xs) && ClockNeverRunsBack(xs)
  }

  ghost predicate ClockNeverRunsBack(xs: seq<Exchange>) {
    forall i, j {:trigger xs[i], xs[j]} :: 0 <= i <= j < |xs| ==> xs[i].clock <= xs[j].clock
  }

  ghost predicate SeenIn(xs: seq<Exchange>, n: nat, l: Lease) {
    exists i :: 0 <= i < n <= |xs| && xs[i].before == Some(l)
  }

  /** Each operation visits only its own phases. */
  predicate WellPhased(c: Call) {
    match c.phase
    case Checking(_) => c.op == Acquire
    case Rereading => c.op == Renew
    case Removing(_) => c.op == Release
    case Returned(v) => c.op == Release ==> v != Held
    case Reading => true
    case _ => c.op != Release
  }

  /** Why the call may write the copy it holds: it may still at every later instant. */
  predicate Licensed(c: Call, now: int) {
    match c.phase
    case Writing(l) => if c.op == Renew then HeldBy(l, c.me.holder) else MayAcquire(l, c.az, c.me, now)
    case Removing(l) => HeldBy(l, c.me.holder)
    case _ => true
  }

  /** The copy that the call holds came from one of its first `n` requests. */
  ghost predicate CopySeen(c: Call, xs: seq<Exchange>, n: nat) {
    match c.phase
    case Writing(l) => SeenIn(xs, n, l)
    case Removing(l) => SeenIn(xs, n, l)
    case Checking(l) => SeenIn(xs, n, l)
    case _ => true
  }

  predicate SameCaller(c: Call, d: Call) {
    c.op == d.op && c.az == d.az && c.me == d.me
  }

  lemma OneReaction(c: Call, x: Exchange)
    requires !c.phase.Returned? && WellPhased(c) && Served(x) && x.request == RequestOf(c)
    requires Licensed(c, x.clock)
    ensures var d := React(c, x.response); SameCaller(c, d) && WellPhased(d) && Licensed(d, x.clock)
    ensures var d := React(c, x.response);
            (d.phase.Writing? && !c.phase.Checking? ==> x.before == Some(d.phase.base)) &&
            (d.phase.Writing? && c.phase.Checking? ==> d.phase.base == c.phase.seen) &&
            (d.phase.Removing? ==> x.before == Some(d.phase.base)) &&
            (d.phase.Checking? ==> x.before == Some(d.phase.seen))
  {
  }

  /** A change ends its call, and the verdict tells about it. */
  lemma WriteEndsCall(c: Call, x: Exchange)
    requires !c.phase.Returned? && WellPhased(c) && Served(x) && x.request == RequestOf(c)
    ensures Changes(x) ==> React(c, x.response).phase.Returned?
    ensures React(c, x.response).phase == Returned(Held) ==> Changes(x) && x.after.Some?
    ensures React(c, x.response).phase == Returned(NotHeld) && c.op != Release ==> !Changes(x)
  {
  }

  lemma {:induction false} CopyWasServed(cs: seq<Call>, xs: seq<Exchange>, n: nat, now: int)
    requires Conversation(cs, xs) && ClockNeverRunsBack(xs) && n <= |xs|
    requires n > 0 ==> xs[n - 1].clock <= now
    ensures SameCaller(cs[0], cs[n]) && WellPhased(cs[n]) && Licensed(cs[n], now) && CopySeen(cs[n], xs, n)
  {
    if n == 0 {
    } else {
      var x := xs[n - 1];
      CopyWasServed(cs, xs, n - 1, x.clock);
      OneReaction(cs[n - 1], x);
      assert forall l :: SeenIn(xs, n - 1, l) ==> SeenIn(xs, n, l);
      assert forall l :: x.before == Some(l) ==> SeenIn(xs, n, l);
    }
  }

  /** When request `i` goes out, the copy it writes is what the server holds, if their versions agree. */
  lemma CopyIsCurrent(cs: seq<Call>, xs: seq<Exchange>, i: nat)
    requires Conversation(cs, xs) && Consistent(xs) && i < |xs|
    ensures SameCaller(cs[0], cs[i]) && WellPhased(cs[i]) && Licensed(cs[i], xs[i].clock)
    ensures Turnaround(cs[i], xs[i], cs[i + 1])
    ensures cs[i].phase.Writing? || cs[i].phase.Removing? ==> SameVersionSameLease(xs[i].before, Some(cs[i].phase.base))
  {
    CopyWasServed(cs, xs, i, xs[i].clock);
    var at := cs[i];
    if at.phase.Writing? || at.phase.Removing? {
      var j :| 0 <= j < i && xs[j].before == Some(at.phase.base);
      assert SameVersionSameLease(xs[i].before, xs[j].before);
    }
  }

  /** The verdict of a call is honest, whatever other clients did in between and whatever faults
      hit its requests: Held means that this call made exactly one change, its last request, and the
      version it stored names the caller; NotHeld from Renew or Acquire means that it changed
      nothing; and an error leaves at most one change. */
  lemma VerdictIsHonest(cs: seq<Call>, xs: seq<Exchange>)
    requires Conversation(cs, xs) && Consistent(xs) && cs[|xs|].phase.Returned?
    ensures xs != [] && SameCaller(cs[0], cs[|xs|])
    ensures forall i :: 0 <= i < |xs| && Changes(xs[i]) ==> i == |xs| - 1
    ensures cs[|xs|].phase == Returned(Held) ==>
              cs[0].op != Release && Changes(xs[|xs| - 1]) && xs[|xs| - 1].after.Some? &&
              HeldBy(xs[|xs| - 1].after.value, cs[0].me.holder)
    ensures cs[|xs|].phase == Returned(NotHeld) && cs[0].op != Release ==>
              forall i :: 0 <= i < |xs| ==> !Changes(xs[i])
  {
    forall i | 0 <= i < |xs| && Changes(xs[i]) ensures i == |xs| - 1 {
      CopyIsCurrent(cs, xs, i);
      WriteEndsCall(cs[i], xs[i]);
      if i + 1 < |xs| {
        CopyIsCurrent(cs, xs, i + 1);
      }
    }
    var n := |xs| - 1;
    CopyIsCurrent(cs, xs, n);
    WriteEndsCall(cs[n], xs[n]);
    CopyWasServed(cs, xs, n + 1, xs[n].clock);
    if Changes(xs[n]) { ChangesAreLicensed(cs, xs, n); }
  }

  /** A Renew never changes the holder of an existing Lease, not even after its conflict retries; an
      Acquire changes it only if, at the moment it commits, the Lease names the caller, is expired or
      is held by a foreign stand-in in the caller's own AZ; a Release deletes only what names the caller. */
  lemma ChangesAreLicensed(cs: seq<Call>, xs: seq<Exchange>, i: nat)
    requires Conversation(cs, xs) && Consistent(xs) && i < |xs| && Changes(xs[i])
    ensures xs[i].before.Some? && cs[0].op != Acquire ==> HeldBy(xs[i].before.value, cs[0].me.holder)
    ensures xs[i].before.Some? && cs[0].op == Acquire ==>
              MayAcquire(xs[i].before.value, cs[0].az, cs[0].me, xs[i].clock)
    ensures cs[0].op == Release <==> xs[i].after.None?
    ensures xs[i].after.Some? ==> HeldBy(xs[i].after.value, cs[0].me.holder)
  {
    CopyIsCurrent(cs, xs, i);
  }
}

/** The dashboard's collector (internal/collector/collector.go): it compares each scrape of the agents with
    the last one and keeps a bounded log of what changed. */
module Collector {
  import opened Wrappers

  /** A sample of kube_nat_failover_total: `from` is "" without the label, `value` None without a counter. */
  datatype Sample = Sample(from: string, value: Option<real>)

  datatype Snap = Snap(az: string, instanceId: string, peerUp: bool, rulePresent: bool, tables: seq<string>,
                       samples: seq<Sample>, load: Load)

  datatype Load = Load(tx: real, rx: real, conntrack: real)

  datatype AgentState = AgentState(peerUp: bool, rulePresent: bool, tables: seq<string>)

  datatype Entry =
    | Appeared(az: string, instanceId: string)
    | Vanished(az: string)
    | PeerUp(az: string)
    | PeerDown(az: string)
    | RouteUpdate(az: string, added: seq<string>, removed: seq<string>)
    | Regained(az: string, tables: seq<string>)
    | Failover(az: string, from: string)
    | Manual(az: string, claimed: bool)   // added by the dashboard's route claim and release handlers

  datatype Takeover = Takeover(from: string, to: string)

  datatype Snapshot = Snapshot(agents: seq<Snap>, history: seq<Load>, failovers: seq<Takeover>, events: seq<Entry>)

  // ---- Bounded logs ----

  const MAX_EVENTS := 100
  const MAX_HISTORY := 60

  function Last<T>(s: seq<T>, n: nat): seq<T> {
    if |s| > n then s[|s| - n..] else s
  }

  /** The log kept is the end of the whole one, as long as the bound allows. */
  lemma LastIsEnd<T>(s: seq<T>, n: nat)
    ensures |Last(s, n)| == if |s| > n then n else |s|
    ensures s == s[..|s| - |Last(s, n)|] + Last(s, n)
  {
  }

  lemma LastOfAppend<T>(s: seq<T>, x: T, n: nat)
    requires n > 0
    ensures Last(Last(s, n) + [x], n) == Last(s + [x], n)
  {
  }

  // ---- Differences of route table lists ----

  function Elements(xs: seq<string>): set<string> {
    set x | x in xs
  }

  function Without(xs: seq<string>, ys: seq<string>): seq<string> {
    if xs == [] then []
    else
      var rest := Without(xs[..|xs| - 1], ys);
      var x := xs[|xs| - 1];
      if x in ys then rest else rest + [x]
  }

  lemma {:induction false} WithoutExact(xs: seq<string>, ys: seq<string>)
    ensures Elements(Without(xs, ys)) == Elements(xs) - Elements(ys)
  {
    if xs == [] {
    } else {
      var n := |xs| - 1;
      WithoutExact(xs[..n], ys);
      assert xs == xs[..n] + [xs[n]];
      assert Elements(xs) == Elements(xs[..n]) + {xs[n]};
      var rest := Without(xs[..n], ys);
      assert Elements(rest + [xs[n]]) == Elements(rest) + {xs[n]};
    }
  }

  method DiffStringSet(prev: seq<string>, curr: seq<string>) returns (added: seq<string>, removed: seq<string>)
    ensures added == Without(curr, prev) && removed == Without(prev, curr)
  {
    var prevSet, currSet := {}, {};
    for i := 0 to |prev|
      invariant prevSet == Elements(prev[..i])
    {
      assert prev[..i + 1] == prev[..i] + [prev[i]];
      prevSet := prevSet + {prev[i]};
    }
    for i := 0 to |curr|
      invariant currSet == Elements(curr[..i])
    {
      assert curr[..i + 1] == curr[..i] + [curr[i]];
      currSet := currSet + {curr[i]};
    }
    assert prev[..|prev|] == prev && curr[..|curr|] == curr;
    added, removed := [], [];
    for i := 0 to |curr|
      invariant added == Without(curr[..i], prev)
    {
      assert curr[..i + 1][..i] == curr[..i];
      if curr[i] !in prevSet {
        added := added + [curr[i]];
      }
    }
    for i := 0 to |prev|
      invariant removed == Without(prev[..i], curr)
    {
      assert prev[..i + 1][..i] == prev[..i];
      if prev[i] !in currSet {
        removed := removed + [prev[i]];
      }
    }
    assert curr[..|curr|] == curr && prev[..|prev|] == prev;
  }

  /** What was added and removed leads from one set to the other, and is nothing only for equal sets. */
  lemma DiffMeans(prev: seq<string>, curr: seq<string>)
    ensures var added, removed := Without(curr, prev), Without(prev, curr);
            && Elements(curr) == (Elements(prev) - Elements(removed)) + Elements(added)
            && (added == [] && removed == [] <==> Elements(prev) == Elements(curr))
  {
    WithoutExact(curr, prev);
    WithoutExact(prev, curr);
    var added, removed := Without(curr, prev), Without(prev, curr);
    assert added != [] ==> added[0] in Elements(added);
    assert removed != [] ==> removed[0] in Elements(removed);
  }

  // ---- What the full log tells about one AZ ----

  /** `peer` is the last peer event; `gained` and `dropped` are the net effect of the route updates. */
  datatype View = View(present: bool, peer: Option<bool>, covered: bool, gained: set<string>, dropped: set<string>)

  function Tell(v: View, e: Entry, az: string): View {
    if e.Failover? then (if e.from == az then v.(covered := true) else v)
    else if e.az != az then v
    else match e
         case Appeared(_, _) => v.(present := true)
         case Vanished(_) => v.(present := false)
         case PeerUp(_) => v.(peer := Some(true))
         case PeerDown(_) => v.(peer := Some(false))
         case RouteUpdate(_, added, removed) =>
           v.(gained := (v.gained - Elements(removed)) + Elements(added), dropped := v.dropped + Elements(removed))
         case Regained(_, _) => v.(covered := false)
         case _ => v
  }

  function Told(log: seq<Entry>, az: string): View {
    if log == [] then View(false, None, false, {}, {})
    else Tell(Told(log[..|log| - 1], az), log[|log| - 1], az)
  }

  /** Whether an entry makes sense after what the log told so far about its AZ. */
  predicate Sensible(v: View, e: Entry) {
    match e
    case Appeared(_, _) => !v.present
    case Vanished(_) => v.present
    case PeerUp(_) => v.peer != Some(true)
    case PeerDown(_) => v.peer != Some(false)
    case RouteUpdate(_, added, removed) => added != [] || removed != []
    case Regained(_, tables) => v.covered && tables != []
    case _ => true
  }

  predicate SensibleAt(log: seq<Entry>, i: int)
    requires 0 <= i < |log|
  {
    Sensible(Told(log[..i], log[i].az), log[i])
  }

  predicate Coherent(log: seq<Entry>) {
    forall i :: 0 <= i < |log| ==> SensibleAt(log, i)
  }

  /** What the collector remembers from scrape to scrape; `firsts` is each AZ's first observation. */
  datatype Memory = Memory(seen: set<string>, states: map<string, AgentState>, covered: set<string>,
                           firsts: map<string, AgentState>)
  {
    /** After a snapshot, but for what it tells about coverage. */
    function Knowing(snap: Snap): Memory {
      this.(seen := seen + {snap.az}, states := states[snap.az := StateOf(snap)],
            firsts := if snap.az in states then firsts else firsts[snap.az := StateOf(snap)])
    }
  }

  ghost predicate Agrees(v: View, m: Memory, az: string)
    requires m.firsts.Keys == m.states.Keys
  {
    && (v.present <==> az in m.seen)
    && (v.covered <==> az in m.covered)
    && if az in m.states then
         && m.states[az].peerUp == (if v.peer.Some? then v.peer.value else m.firsts[az].peerUp)
         && Elements(m.states[az].tables) == (Elements(m.firsts[az].tables) - v.dropped) + v.gained
       else
         v.peer.None? && v.gained == {} && v.dropped == {}
  }

  /** The log's account of an AZ, replayed from the first observation, is what the collector remembers. */
  ghost predicate AgreesOn(log: seq<Entry>, m: Memory, az: string)
    requires m.firsts.Keys == m.states.Keys
  {
    Agrees(Told(log, az), m, az)
  }

  ghost predicate Shows(log: seq<Entry>, m: Memory) {
    && Coherent(log)
    && m.firsts.Keys == m.states.Keys
    && forall az :: AgreesOn(log, m, az)
  }

  lemma CoherentAppend(log: seq<Entry>, e: Entry)
    requires Coherent(log) && Sensible(Told(log, e.az), e)
    ensures Coherent(log + [e])
  {
    var longer := log + [e];
    forall i | 0 <= i < |longer| ensures SensibleAt(longer, i) {
      if i < |log| {
        assert SensibleAt(log, i);
        assert longer[..i] == log[..i] && longer[i] == log[i];
      } else {
        assert longer[..i] == log;
      }
    }
  }

  lemma ShowsAppended(log: seq<Entry>, e: Entry, was: Memory, now: Memory)
    requires Shows(log, was) && Sensible(Told(log, e.az), e) && now.firsts.Keys == now.states.Keys
    requires forall az :: AgreesOn(log, was, az) ==> Agrees(Tell(Told(log, az), e, az), now, az)
    ensures Shows(log + [e], now)
  {
    CoherentAppend(log, e);
    assert (log + [e])[..|log|] == log;
    forall az ensures AgreesOn(log + [e], now, az) {
      assert AgreesOn(log, was, az);
    }
  }

  lemma AppearanceShown(log: seq<Entry>, m: Memory, az: string, instanceId: string)
    requires Shows(log, m) && az !in m.seen
    ensures Shows(log + [Appeared(az, instanceId)], m.(seen := m.seen + {az}))
  {
    assert AgreesOn(log, m, az);
    ShowsAppended(log, Appeared(az, instanceId), m, m.(seen := m.seen + {az}));
  }

  lemma VanishingShown(log: seq<Entry>, m: Memory, az: string)
    requires Shows(log, m) && az in m.seen
    ensures Shows(log + [Vanished(az)], m.(seen := m.seen - {az}))
  {
    assert AgreesOn(log, m, az);
    ShowsAppended(log, Vanished(az), m, m.(seen := m.seen - {az}));
  }

  lemma PeerChangeShown(log: seq<Entry>, m: Memory, az: string)
    requires Shows(log, m) && az in m.states
    ensures var s := m.states[az];
            Shows(log + [if s.peerUp then PeerDown(az) else PeerUp(az)],
                  m.(states := m.states[az := s.(peerUp := !s.peerUp)]))
  {
    var s := m.states[az];
    assert AgreesOn(log, m, az);
    var e := if s.peerUp then PeerDown(az) else PeerUp(az);
    ShowsAppended(log, e, m, m.(states := m.states[az := s.(peerUp := !s.peerUp)]));
  }

  lemma RouteChangeShown(log: seq<Entry>, m: Memory, az: string, tables: seq<string>, added: seq<string>,
                         removed: seq<string>)
    requires Shows(log, m) && az in m.states && (added != [] || removed != [])
    requires Elements(tables) == (Elements(m.states[az].tables) - Elements(removed)) + Elements(added)
    ensures Shows(log + [RouteUpdate(az, added, removed)],
                  m.(states := m.states[az := m.states[az].(tables := tables)]))
  {
    assert AgreesOn(log, m, az);
    ShowsAppended(log, RouteUpdate(az, added, removed), m,
                  m.(states := m.states[az := m.states[az].(tables := tables)]));
  }

  lemma RegainingShown(log: seq<Entry>, m: Memory, az: string, tables: seq<string>)
    requires Shows(log, m) && az in m.covered && tables != []
    ensures Shows(log + [Regained(az, tables)], m.(covered := m.covered - {az}))
  {
    assert AgreesOn(log, m, az);
    ShowsAppended(log, Regained(az, tables), m, m.(covered := m.covered - {az}));
  }

  lemma FailoverShown(log: seq<Entry>, m: Memory, from: string, to: string)
    requires Shows(log, m)
    ensures Shows(log + [Failover(to, from)], m.(covered := m.covered + {from}))
  {
    ShowsAppended(log, Failover(to, from), m, m.(covered := m.covered + {from}));
  }

  /** A first observation, or one without a change, needs no entry. */
  lemma SameShown(log: seq<Entry>, was: Memory, now: Memory)
    requires Shows(log, was) && now.seen == was.seen && now.covered == was.covered && now.firsts.Keys == now.states.Keys
    requires forall az :: az in was.states ==>
      az in now.states && now.firsts[az] == was.firsts[az] && now.states[az].peerUp == was.states[az].peerUp &&
      Elements(now.states[az].tables) == Elements(was.states[az].tables)
    requires forall az :: az in now.states && az !in was.states ==> now.firsts[az] == now.states[az]
    ensures Shows(log, now)
  {
    forall az ensures AgreesOn(log, now, az) {
      assert AgreesOn(log, was, az);
    }
  }

  // ---- What a coherent log means for a reader of the events ----

  predicate TouchesPresence(e: Entry, az: string) {
    (e.Appeared? || e.Vanished?) && e.az == az
  }

  predicate TouchesPeer(e: Entry, az: string) {
    (e.PeerUp? || e.PeerDown?) && e.az == az
  }

  predicate Covers(e: Entry, az: string) {
    e.Failover? && e.from == az
  }

  lemma {:induction false} Persists(log: seq<Entry>, az: string, i: nat, j: nat)
    requires i <= j <= |log|
    ensures (forall k :: i <= k < j ==> !TouchesPresence(log[k], az)) ==>
              Told(log[..j], az).present == Told(log[..i], az).present
    ensures (forall k :: i <= k < j ==> !TouchesPeer(log[k], az)) ==> Told(log[..j], az).peer == Told(log[..i], az).peer
    ensures (forall k :: i <= k < j ==> !Covers(log[k], az)) && Told(log[..j], az).covered ==>
              Told(log[..i], az).covered
    decreases j
  {
    if i == j {
    } else {
      Persists(log, az, i, j - 1);
      assert log[..j][..j - 1] == log[..j - 1];
    }
  }

  lemma After(log: seq<Entry>, i: nat, az: string)
    requires i < |log|
    ensures Told(log[..i + 1], az) == Tell(Told(log[..i], az), log[i], az)
  {
    assert log[..i + 1][..i] == log[..i];
  }

  /** Per AZ, appearances and losses strictly alternate, starting with an appearance. */
  lemma AppearancesAlternate(log: seq<Entry>, az: string, i: nat, j: nat)
    requires Coherent(log) && i < j < |log| && TouchesPresence(log[i], az) && TouchesPresence(log[j], az)
    requires forall k :: i < k < j ==> !TouchesPresence(log[k], az)
    ensures log[i].Appeared? != log[j].Appeared?
  {
    After(log, i, az);
    Persists(log, az, i + 1, j);
    assert SensibleAt(log, j);
  }

  lemma AppearanceComesFirst(log: seq<Entry>, az: string, j: nat)
    requires Coherent(log) && j < |log| && TouchesPresence(log[j], az)
    requires forall k :: 0 <= k < j ==> !TouchesPresence(log[k], az)
    ensures log[j].Appeared?
  {
    Persists(log, az, 0, j);
    assert SensibleAt(log, j);
  }

  /** Per AZ, the peer events strictly alternate. */
  lemma PeerEventsAlternate(log: seq<Entry>, az: string, i: nat, j: nat)
    requires Coherent(log) && i < j < |log| && TouchesPeer(log[i], az) && TouchesPeer(log[j], az)
    requires forall k :: i < k < j ==> !TouchesPeer(log[k], az)
    ensures log[i].PeerUp? != log[j].PeerUp?
  {
    After(log, i, az);
    Persists(log, az, i + 1, j);
    assert SensibleAt(log, j);
  }

  /** Control is only regained after a failover from that AZ that came after the last time it was. */
  lemma RegainedAfterFailover(log: seq<Entry>, az: string, j: nat)
    requires Coherent(log) && j < |log| && log[j].Regained? && log[j].az == az
    ensures exists k :: 0 <= k < j && Covers(log[k], az)
    ensures forall i :: 0 <= i < j && log[i].Regained? && log[i].az == az ==>
              exists k :: i < k < j && Covers(log[k], az)
  {
    assert SensibleAt(log, j);
    Persists(log, az, 0, j);
    forall i | 0 <= i < j && log[i].Regained? && log[i].az == az ensures exists k :: i < k < j && Covers(log[k], az) {
      After(log, i, az);
      Persists(log, az, i + 1, j);
    }
  }

  function Replay(log: seq<Entry>, az: string, tables: set<string>): set<string> {
    if log == [] then tables
    else
      var before := Replay(log[..|log| - 1], az, tables);
      var e := log[|log| - 1];
      if e.RouteUpdate? && e.az == az then (before - Elements(e.removed)) + Elements(e.added) else before
  }

  lemma {:induction false} ReplayIsNet(log: seq<Entry>, az: string, tables: set<string>)
    ensures Replay(log, az, tables) == (tables - Told(log, az).dropped) + Told(log, az).gained
  {
    if log == [] {
    } else {
      ReplayIsNet(log[..|log| - 1], az, tables);
    }
  }

  /** Replaying an AZ's route updates from its first observation gives its current route tables. */
  lemma ReplayGivesCurrent(log: seq<Entry>, m: Memory, az: string)
    requires Shows(log, m) && az in m.states
    ensures Replay(log, az, Elements(m.firsts[az].tables)) == Elements(m.states[az].tables)
  {
    ReplayIsNet(log, az, Elements(m.firsts[az].tables));
    assert AgreesOn(log, m, az);
  }

  /** The last failover from the AZ came after the last time that control was regained. */
  ghost predicate CoveredIn(log: seq<Entry>, az: string) {
    exists i :: 0 <= i < |log| && CoveredSince(log, az, i)
  }

  ghost predicate CoveredSince(log: seq<Entry>, az: string, i: int)
    requires 0 <= i < |log|
  {
    Covers(log[i], az) && forall j :: i < j < |log| ==> !(log[j].Regained? && log[j].az == az)
  }

  /** That is when the log counts an AZ as covered. */
  lemma {:induction false} CoveredMeans(log: seq<Entry>, az: string)
    ensures Told(log, az).covered <==> CoveredIn(log, az)
  {
    if log == [] {
    } else {
      var n := |log| - 1;
      CoveredMeans(log[..n], az);
      assert Covers(log[n], az) ==> CoveredSince(log, az, n);
      forall i | 0 <= i < n
        ensures CoveredSince(log, az, i) <==>
                CoveredSince(log[..n], az, i) && !(log[n].Regained? && log[n].az == az)
      {
        assert forall j :: 0 <= j < n ==> log[..n][j] == log[j];
      }
      if Told(log, az).covered && !Covers(log[n], az) {
        var i :| 0 <= i < n && CoveredSince(log[..n], az, i);
        assert CoveredSince(log, az, i);
      }
    }
  }

  /** The route tables that the log shows for an observed AZ before entry `k`. */
  function ShownBefore(log: seq<Entry>, firsts: map<string, AgentState>, k: int, az: string): set<string>
    requires 0 <= k <= |log| && az in firsts
  {
    Replay(log[..k], az, Elements(firsts[az].tables))
  }

  /** If entry `k` says that control was regained, it directly follows the route update that gave the AZ these
      tables when it had none. */
  ghost predicate RegainedRightly(log: seq<Entry>, firsts: map<string, AgentState>, k: int)
    requires 0 <= k < |log|
  {
    log[k].Regained? ==>
      && k > 0 && log[k - 1] == RouteUpdate(log[k].az, log[k].tables, [])
      && log[k].az in firsts && ShownBefore(log, firsts, k - 1, log[k].az) == {}
  }

  /** If entry `k` is a route update that gives a covered AZ tables when it had none, the next entry says that
      control was regained. */
  ghost predicate RegainNoted(log: seq<Entry>, firsts: map<string, AgentState>, k: int)
    requires 0 <= k < |log|
  {
    log[k].RouteUpdate? ==>
      && log[k].az in firsts
      && (log[k].added != [] && ShownBefore(log, firsts, k, log[k].az) == {} && Told(log[..k], log[k].az).covered ==>
            k + 1 < |log| && log[k + 1] == Regained(log[k].az, log[k].added))
  }

  /** Control counts as regained exactly when a covered AZ gets tables after having had none. */
  ghost predicate RegainsExact(log: seq<Entry>, firsts: map<string, AgentState>) {
    forall k :: 0 <= k < |log| ==> RegainedRightly(log, firsts, k) && RegainNoted(log, firsts, k)
  }

  predicate AboutRoutes(e: Entry) {
    e.RouteUpdate? || e.Regained?
  }

  ghost predicate MoreFirsts(firsts: map<string, AgentState>, more: map<string, AgentState>) {
    forall az :: az in firsts ==> az in more && more[az] == firsts[az]
  }

  /** Entries that are already there keep their meaning as the log grows. */
  lemma RegainsStay(log: seq<Entry>, firsts: map<string, AgentState>, firsts': map<string, AgentState>,
                    more: seq<Entry>, k: int)
    requires RegainsExact(log, firsts) && MoreFirsts(firsts, firsts') && 0 <= k < |log|
    ensures RegainedRightly(log + more, firsts', k) && RegainNoted(log + more, firsts', k)
  {
    var longer := log + more;
    assert RegainedRightly(log, firsts, k) && RegainNoted(log, firsts, k);
    assert longer[..k] == log[..k];
    if k > 0 { assert longer[..k - 1] == log[..k - 1]; }
  }

  /** Entries about other things need nothing. */
  lemma RegainsKept(log: seq<Entry>, firsts: map<string, AgentState>, firsts': map<string, AgentState>,
                    more: seq<Entry>)
    requires RegainsExact(log, firsts) && MoreFirsts(firsts, firsts')
    requires forall e :: e in more ==> !AboutRoutes(e)
    ensures RegainsExact(log + more, firsts')
  {
    var longer := log + more;
    forall k | 0 <= k < |longer| ensures RegainedRightly(longer, firsts', k) && RegainNoted(longer, firsts', k) {
      if k < |log| {
        RegainsStay(log, firsts, firsts', more, k);
      } else {
        assert longer[k] == more[k - |log|] && more[k - |log|] in more;
      }
    }
  }

  /** Nor does a route update that leaves control where it was. */
  lemma UpdateKeepsRegains(log: seq<Entry>, firsts: map<string, AgentState>, e: Entry)
    requires RegainsExact(log, firsts) && e.RouteUpdate? && e.az in firsts
    requires e.added == [] || ShownBefore(log, firsts, |log|, e.az) != {} || !Told(log, e.az).covered
    ensures RegainsExact(log + [e], firsts)
  {
    var longer := log + [e];
    assert longer[..|log|] == log && log[..|log|] == log;
    forall k | 0 <= k < |longer| ensures RegainedRightly(longer, firsts, k) && RegainNoted(longer, firsts, k) {
      if k < |log| {
        RegainsStay(log, firsts, firsts, [e], k);
      }
    }
  }

  /** The two entries of an AZ that regains control. */
  lemma RegainAppended(log: seq<Entry>, firsts: map<string, AgentState>, az: string, tables: seq<string>)
    requires RegainsExact(log, firsts) && az in firsts && ShownBefore(log, firsts, |log|, az) == {}
    ensures RegainsExact(log + [RouteUpdate(az, tables, []), Regained(az, tables)], firsts)
  {
    var more := [RouteUpdate(az, tables, []), Regained(az, tables)];
    var longer := log + more;
    assert longer[..|log|] == log && log[..|log|] == log;
    forall k | 0 <= k < |longer| ensures RegainedRightly(longer, firsts, k) && RegainNoted(longer, firsts, k) {
      if k < |log| {
        RegainsStay(log, firsts, firsts, more, k);
      }
    }
  }

  // ---- Failover detection ----

  /** A counter value that was scraped; the key is that of failoverCounters. */
  datatype Reading = Reading(key: string, value: real)

  function KeyOf(from: string, to: string): string {
    from + "/" + to
  }

  lemma KeysDistinct(from: string, to: string, from': string, to': string)
    requires '/' !in from && '/' !in from' && KeyOf(from, to) == KeyOf(from', to')
    ensures from == from' && to == to'
  {
    var key := KeyOf(from, to);
    assert key[|from|] == '/' && key[|from'|] == '/';
    assert forall i :: 0 <= i < |from| ==> key[i] == from[i] != '/';
    assert forall i :: 0 <= i < |from'| ==> key[i] == from'[i] != '/';
    assert from == key[..|from|] && to == key[|from| + 1..] && to' == key[|from'| + 1..];
  }

  datatype Mark = Mark(peak: Option<real>, records: nat)

  function Raise(mark: Mark, value: real): Mark {
    if mark.peak.None? then Mark(Some(value), mark.records)
    else if value > mark.peak.value then Mark(Some(value), mark.records + 1)
    else mark
  }

  function HighWater(readings: seq<Reading>, key: string): Mark {
    if readings == [] then Mark(None, 0)
    else
      var mark := HighWater(readings[..|readings| - 1], key);
      var r := readings[|readings| - 1];
      if r.key == key then Raise(mark, r.value) else mark
  }

  ghost predicate IsPeak(readings: seq<Reading>, key: string, value: real) {
    && Reading(key, value) in readings
    && forall i :: 0 <= i < |readings| && readings[i].key == key ==> readings[i].value <= value
  }

  /** A reading above every earlier one of its key, of which there is at least one. */
  ghost predicate IsNewMaximum(before: seq<Reading>, r: Reading) {
    exists v :: IsPeak(before, r.key, v) && v < r.value
  }

  ghost function NewMaxima(readings: seq<Reading>, key: string): set<int> {
    set i | 0 <= i < |readings| && readings[i].key == key && IsNewMaximum(readings[..i], readings[i])
  }

  lemma NewMaximaGrow(readings: seq<Reading>, r: Reading)
    ensures NewMaxima(readings + [r], r.key) ==
              NewMaxima(readings, r.key) + if IsNewMaximum(readings, r) then {|readings|} else {}
    ensures forall key :: key != r.key ==> NewMaxima(readings + [r], key) == NewMaxima(readings, key)
  {
    var more := readings + [r];
    assert more[..|readings|] == readings;
    assert forall i :: 0 <= i < |readings| ==> more[..i] == readings[..i];
  }

  /** The mark's peak is the maximum ever read, counter resets included. */
  lemma {:induction false} PeakIsMaximum(readings: seq<Reading>, key: string)
    ensures var peak := HighWater(readings, key).peak;
            if peak.Some? then IsPeak(readings, key, peak.value) else forall r :: r in readings ==> r.key != key
  {
    if readings == [] {
    } else {
      var n := |readings| - 1;
      PeakIsMaximum(readings[..n], key);
      assert readings == readings[..n] + [readings[n]];
    }
  }

  /** The mark's records count the strict new maxima after the first reading. */
  lemma {:induction false} RecordsAreNewMaxima(readings: seq<Reading>, key: string)
    ensures HighWater(readings, key).records == |NewMaxima(readings, key)|
  {
    if readings == [] {
    } else {
      var n := |readings| - 1;
      var init, r := readings[..n], readings[n];
      assert readings == init + [r];
      RecordsAreNewMaxima(init, key);
      NewMaximaGrow(init, r);
      PeakIsMaximum(init, key);
      if r.key == key {
        OnePeak(init, r);
      }
    }
  }

  lemma OnePeak(readings: seq<Reading>, r: Reading)
    ensures IsNewMaximum(readings, r) <==>
              HighWater(readings, r.key).peak.Some? && HighWater(readings, r.key).peak.value < r.value
  {
    PeakIsMaximum(readings, r.key);
  }

  function Tally(takeovers: seq<Takeover>, key: string): nat {
    if takeovers == [] then 0
    else
      var t := takeovers[|takeovers| - 1];
      Tally(takeovers[..|takeovers| - 1], key) + if KeyOf(t.from, t.to) == key then 1 else 0
  }

  /** As long as no AZ is named with a slash, a key's takeovers are those of its pair of AZs. */
  lemma {:induction false} TallyIsExact(takeovers: seq<Takeover>, from: string, to: string)
    requires '/' !in from && forall t :: t in takeovers ==> '/' !in t.from
    ensures Tally(takeovers, KeyOf(from, to)) == multiset(takeovers)[Takeover(from, to)]
  {
    if takeovers == [] {
    } else {
      var n := |takeovers| - 1;
      var t := takeovers[n];
      assert takeovers == takeovers[..n] + [t];
      TallyIsExact(takeovers[..n], from, to);
      if KeyOf(t.from, t.to) == KeyOf(from, to) {
        KeysDistinct(t.from, t.to, from, to);
      }
    }
  }

  predicate Counts(readings: seq<Reading>, counters: map<string, real>, takeovers: seq<Takeover>, key: string) {
    var mark := HighWater(readings, key);
    && (key in counters <==> mark.peak.Some?)
    && (key in counters ==> counters[key] == mark.peak.value)
    && Tally(takeovers, key) == mark.records
  }

  /** Each stored counter is the maximum ever read, and each strict new maximum made one failover record. */
  ghost predicate Tallied(readings: seq<Reading>, counters: map<string, real>, takeovers: seq<Takeover>) {
    forall key :: Counts(readings, counters, takeovers, key)
  }

  lemma TalliedByOne(readings: seq<Reading>, counters: map<string, real>, takeovers: seq<Takeover>, from: string,
                     to: string, value: real)
    requires Tallied(readings, counters, takeovers)
    ensures var key := KeyOf(from, to);
            var raised := key !in counters || value > counters[key];
            Tallied(readings + [Reading(key, value)], if raised then counters[key := value] else counters,
              if raised && key in counters then takeovers + [Takeover(from, to)] else takeovers)
  {
    var key := KeyOf(from, to);
    var more, t := readings + [Reading(key, value)], Takeover(from, to);
    assert more[..|readings|] == readings && (takeovers + [t])[..|takeovers|] == takeovers;
    assert Counts(readings, counters, takeovers, key);
    var raised := key !in counters || value > counters[key];
    var counters' := if raised then counters[key := value] else counters;
    var takeovers' := if raised && key in counters then takeovers + [t] else takeovers;
    forall k ensures Counts(more, counters', takeovers', k) {
      assert Counts(readings, counters, takeovers, k);
    }
  }

  // ---- What one scrape reports ----

  function StateOf(snap: Snap): AgentState {
    AgentState(snap.peerUp, snap.rulePresent, snap.tables)
  }

  function ArrivalNews(snap: Snap, m: Memory): seq<Entry> {
    if snap.az in m.seen then [] else [Appeared(snap.az, snap.instanceId)]
  }

  function PeerNews(snap: Snap, m: Memory): seq<Entry> {
    if snap.az !in m.states || m.states[snap.az].peerUp == snap.peerUp then []
    else [if snap.peerUp then PeerUp(snap.az) else PeerDown(snap.az)]
  }

  function RouteNews(snap: Snap, m: Memory): seq<Entry> {
    if snap.az !in m.states then []
    else
      var prev := m.states[snap.az].tables;
      var added, removed := Without(snap.tables, prev), Without(prev, snap.tables);
      if added == [] && removed == [] then [] else [RouteUpdate(snap.az, added, removed)]
  }

  predicate Regains(snap: Snap, m: Memory) {
    snap.az in m.covered && snap.az in m.states && |m.states[snap.az].tables| == 0 && |snap.tables| > 0
  }

  function RegainNews(snap: Snap, m: Memory): seq<Entry> {
    if Regains(snap, m) then [Regained(snap.az, snap.tables)] else []
  }

  function StillCovered(snap: Snap, m: Memory): set<string> {
    if Regains(snap, m) then m.covered - {snap.az} else m.covered
  }

  /** The changes an agent's snapshot shows, in the order in which they are logged. */
  function News(snap: Snap, m: Memory): seq<Entry> {
    ArrivalNews(snap, m) + PeerNews(snap, m) + RouteNews(snap, m) + RegainNews(snap, m)
  }

  lemma NewsInOrder(log: seq<Entry>, snap: Snap, m: Memory)
    ensures log + ArrivalNews(snap, m) + PeerNews(snap, m) + RouteNews(snap, m) + RegainNews(snap, m) ==
              log + News(snap, m)
  {
  }

  lemma PeerNewsShown(log: seq<Entry>, m: Memory, snap: Snap)
    requires Shows(log, m) && snap.az in m.states
    ensures Shows(log + PeerNews(snap, m), m.(states := m.states[snap.az := m.states[snap.az].(peerUp := snap.peerUp)]))
  {
    var s := m.states[snap.az];
    if s.peerUp == snap.peerUp {
      assert log + [] == log && m == m.(states := m.states[snap.az := s.(peerUp := snap.peerUp)]);
    } else {
      PeerChangeShown(log, m, snap.az);
    }
  }

  lemma RouteNewsShown(log: seq<Entry>, m: Memory, snap: Snap)
    requires Shows(log, m) && snap.az in m.states
    ensures Shows(log + RouteNews(snap, m),
                  m.(states := m.states[snap.az := m.states[snap.az].(tables := snap.tables)]))
  {
    var prev := m.states[snap.az].tables;
    var added, removed := Without(snap.tables, prev), Without(prev, snap.tables);
    DiffMeans(prev, snap.tables);
    if RouteNews(snap, m) == [] {
      assert log + [] == log;
      SameShown(log, m, m.(states := m.states[snap.az := m.states[snap.az].(tables := snap.tables)]));
    } else {
      RouteChangeShown(log, m, snap.az, snap.tables, added, removed);
    }
  }

  /** After its news the log shows an AZ as the snapshot does. */
  lemma NewsShown(log: seq<Entry>, m: Memory, snap: Snap)
    requires Shows(log, m)
    ensures Shows(log + News(snap, m), m.Knowing(snap).(covered := StillCovered(snap, m)))
  {
    var az := snap.az;
    var log1, m1 := log + ArrivalNews(snap, m), m.(seen := m.seen + {az});
    if az !in m.seen {
      AppearanceShown(log, m, az, snap.instanceId);
    } else {
      assert log1 == log && m1 == m;
    }
    NewsInOrder(log, snap, m);
    if az in m.states {
      var s := m.states[az];
      var log2, m2 := log1 + PeerNews(snap, m), m1.(states := m.states[az := s.(peerUp := snap.peerUp)]);
      PeerNewsShown(log1, m1, snap);
      var log3, m3 := log2 + RouteNews(snap, m), m2.(states := m2.states[az := m2.states[az].(tables := snap.tables)]);
      RouteNewsShown(log2, m2, snap);
      var m4 := m3.(states := m.states[az := StateOf(snap)]);
      SameShown(log3, m3, m4);
      assert m4 == m.Knowing(snap);
      if Regains(snap, m) {
        RegainingShown(log3, m4, az, snap.tables);
      } else {
        assert log3 + [] == log3;
      }
    } else {
      var m4 := m1.(states := m.states[az := StateOf(snap)], firsts := m.firsts[az := StateOf(snap)]);
      SameShown(log1, m1, m4);
      assert m4 == m.Knowing(snap);
      assert log + News(snap, m) == log1;
    }
  }

  lemma {:induction false} WithoutNothing(xs: seq<string>)
    ensures Without(xs, []) == xs && Without([], xs) == []
  {
    if xs == [] {
    } else {
      WithoutNothing(xs[..|xs| - 1]);
    }
  }

  /** Entries that are not about routes leave what the log shows of tables and coverage. */
  lemma {:induction false} RoutesUntouched(log: seq<Entry>, more: seq<Entry>, az: string, tables: set<string>)
    requires forall e :: e in more ==> !AboutRoutes(e) && !e.Failover?
    ensures Replay(log + more, az, tables) == Replay(log, az, tables)
    ensures Told(log + more, az).covered == Told(log, az).covered
  {
    if more == [] {
      assert log + more == log;
    } else {
      var n := |more| - 1;
      RoutesUntouched(log, more[..n], az, tables);
      assert (log + more)[..|log + more| - 1] == log + more[..n];
      assert more[n] in more;
    }
  }

  /** A snapshot's news records a regained control exactly when there is one. */
  lemma NewsRegains(log: seq<Entry>, m: Memory, snap: Snap)
    requires Shows(log, m) && RegainsExact(log, m.firsts)
    ensures RegainsExact(log + News(snap, m), m.Knowing(snap).firsts)
  {
    var quiet := ArrivalNews(snap, m) + PeerNews(snap, m);
    RegainsKept(log, m.firsts, m.Knowing(snap).firsts, quiet);
    if snap.az in m.states {
      ShownSoFar(log, m, snap);
      RouteNewsRegains(log + quiet, m, snap);
    } else {
      assert log + quiet + (RouteNews(snap, m) + RegainNews(snap, m)) == log + quiet;
    }
    assert log + News(snap, m) == log + quiet + (RouteNews(snap, m) + RegainNews(snap, m));
  }

  lemma ShownSoFar(log: seq<Entry>, m: Memory, snap: Snap)
    requires Shows(log, m) && snap.az in m.states
    ensures var log1 := log + (ArrivalNews(snap, m) + PeerNews(snap, m));
            && ShownBefore(log1, m.firsts, |log1|, snap.az) == Elements(m.states[snap.az].tables)
            && (Told(log1, snap.az).covered <==> snap.az in m.covered)
  {
    var quiet := ArrivalNews(snap, m) + PeerNews(snap, m);
    var log1 := log + quiet;
    RoutesUntouched(log, quiet, snap.az, Elements(m.firsts[snap.az].tables));
    ReplayGivesCurrent(log, m, snap.az);
    assert log1[..|log1|] == log1 && AgreesOn(log, m, snap.az);
  }

  lemma RouteNewsRegains(log: seq<Entry>, m: Memory, snap: Snap)
    requires snap.az in m.states && snap.az in m.firsts && RegainsExact(log, m.firsts)
    requires ShownBefore(log, m.firsts, |log|, snap.az) == Elements(m.states[snap.az].tables)
    requires Told(log, snap.az).covered <==> snap.az in m.covered
    ensures RegainsExact(log + (RouteNews(snap, m) + RegainNews(snap, m)), m.firsts)
  {
    var prev := m.states[snap.az].tables;
    WithoutNothing(snap.tables);
    if Regains(snap, m) {
      assert prev == [];
      RegainAppended(log, m.firsts, snap.az, snap.tables);
      assert RouteNews(snap, m) + RegainNews(snap, m) ==
             [RouteUpdate(snap.az, snap.tables, []), Regained(snap.az, snap.tables)];
    } else if RouteNews(snap, m) == [] {
      assert log + (RouteNews(snap, m) + RegainNews(snap, m)) == log;
    } else {
      assert prev != [] ==> prev[0] in Elements(prev);
      UpdateKeepsRegains(log, m.firsts, RouteNews(snap, m)[0]);
      assert RouteNews(snap, m) + RegainNews(snap, m) == [RouteNews(snap, m)[0]];
    }
  }

  function Scraped(samples: seq<Sample>, to: string): seq<Reading> {
    if samples == [] then []
    else
      var rest := Scraped(samples[..|samples| - 1], to);
      var x := samples[|samples| - 1];
      if x.from == "" || x.value.None? then rest else rest + [Reading(KeyOf(x.from, to), x.value.value)]
  }

  /** The readings of a scrape are those of its labelled counters. */
  lemma {:induction false} ScrapedExact(samples: seq<Sample>, to: string, r: Reading)
    ensures r in Scraped(samples, to) <==>
            exists x :: x in samples && x.from != "" && x.value == Some(r.value) && r.key == KeyOf(x.from, to)
  {
    if samples == [] {
    } else {
      var n := |samples| - 1;
      ScrapedExact(samples[..n], to, r);
      assert samples == samples[..n] + [samples[n]];
    }
  }

  /** The counters and the new failovers after these samples: a value above the stored one is a failover,
      a first one is only stored. */
  function Detected(samples: seq<Sample>, to: string, counters: map<string, real>): (map<string, real>, seq<Takeover>) {
    if samples == [] then (counters, [])
    else DetectedOne(Detected(samples[..|samples| - 1], to, counters), samples[|samples| - 1], to)
  }

  function DetectedOne(sofar: (map<string, real>, seq<Takeover>), x: Sample, to: string)
      : (map<string, real>, seq<Takeover>)
  {
    var key := KeyOf(x.from, to);
    if x.from == "" || x.value.None? || (key in sofar.0 && x.value.value <= sofar.0[key]) then sofar
    else (sofar.0[key := x.value.value], if key in sofar.0 then sofar.1 + [Takeover(x.from, to)] else sofar.1)
  }

  lemma DetectedFrom(sofar: (map<string, real>, seq<Takeover>), x: Sample, to: string)
    ensures DetectedOne(sofar, x, to).0 == DetectedOne((sofar.0, []), x, to).0
    ensures DetectedOne(sofar, x, to).1 == sofar.1 + DetectedOne((sofar.0, []), x, to).1
  {
  }

  function Froms(takeovers: seq<Takeover>): set<string> {
    set t | t in takeovers :: t.from
  }

  function AllScraped(agents: seq<Snap>): seq<Reading> {
    if agents == [] then []
    else AllScraped(agents[..|agents| - 1]) + Scraped(agents[|agents| - 1].samples, agents[|agents| - 1].az)
  }

  /** The pods that answered with an AZ label. */
  function Usable(pods: seq<Option<Snap>>): seq<Snap> {
    if pods == [] then []
    else
      var rest := Usable(pods[..|pods| - 1]);
      var pod := pods[|pods| - 1];
      if pod.None? || pod.value.az == "" then rest else rest + [pod.value]
  }

  lemma OneMoreCounts<T>(xs: seq<T>, x: T, y: T)
    ensures multiset(xs + [x])[y] == multiset(xs)[y] + if x == y then 1 else 0
  {
  }

  /** Each answer with an AZ label counts once. */
  lemma {:induction false} UsableExact(pods: seq<Option<Snap>>, snap: Snap)
    ensures multiset(Usable(pods))[snap] == if snap.az == "" then 0 else multiset(pods)[Some(snap)]
  {
    if pods == [] {
    } else {
      var n := |pods| - 1;
      UsableExact(pods[..n], snap);
      assert pods == pods[..n] + [pods[n]];
      OneMoreCounts(pods[..n], pods[n], Some(snap));
      if pods[n].Some? { OneMoreCounts(Usable(pods[..n]), pods[n].value, snap); }
    }
  }

  function AzsOf(agents: seq<Snap>): set<string> {
    set a | a in agents :: a.az
  }

  function Plus(a: Load, b: Load): Load {
    Load(a.tx + b.tx, a.rx + b.rx, a.conntrack + b.conntrack)
  }

  function Total(agents: seq<Snap>): Load {
    if agents == [] then Load(0.0, 0.0, 0.0) else Plus(Total(agents[..|agents| - 1]), agents[|agents| - 1].load)
  }

  function Sum(xs: seq<real>): real {
    if xs == [] then 0.0 else Sum(xs[..|xs| - 1]) + xs[|xs| - 1]
  }

  /** A chart point adds up the agents' loads, each kind for itself. */
  lemma {:induction false} TotalByKind(agents: seq<Snap>)
    ensures Total(agents).tx == Sum(seq(|agents|, i requires 0 <= i < |agents| => agents[i].load.tx))
    ensures Total(agents).rx == Sum(seq(|agents|, i requires 0 <= i < |agents| => agents[i].load.rx))
    ensures Total(agents).conntrack == Sum(seq(|agents|, i requires 0 <= i < |agents| => agents[i].load.conntrack))
  {
    if agents == [] {
    } else {
      var n := |agents| - 1;
      var init := agents[..n];
      TotalByKind(init);
      assert seq(n + 1, i requires 0 <= i < n + 1 => agents[i].load.tx)[..n] ==
             seq(n, i requires 0 <= i < n => init[i].load.tx);
      assert seq(n + 1, i requires 0 <= i < n + 1 => agents[i].load.rx)[..n] ==
             seq(n, i requires 0 <= i < n => init[i].load.rx);
      assert seq(n + 1, i requires 0 <= i < n + 1 => agents[i].load.conntrack)[..n] ==
             seq(n, i requires 0 <= i < n => init[i].load.conntrack);
    }
  }

  function Entries(takeovers: seq<Takeover>): seq<Entry> {
    seq(|takeovers|, i requires 0 <= i < |takeovers| => Failover(takeovers[i].to, takeovers[i].from))
  }

  lemma OneEntry(t: Takeover)
    ensures Entries([t]) == [Failover(t.to, t.from)] && Froms([t]) == {t.from}
  {
  }

  lemma FoundGrows(found: seq<Takeover>, more: seq<Takeover>)
    ensures Entries(found + more) == Entries(found) + Entries(more)
    ensures Froms(found + more) == Froms(found) + Froms(more)
  {
  }

  /** What one snapshot makes of the memory and the counters, and the entries it logs. */
  function Observed(snap: Snap, m: Memory, counters: map<string, real>): (Memory, map<string, real>, seq<Entry>) {
    var (cs, found) := Detected(snap.samples, snap.az, counters);
    (m.Knowing(snap).(covered := StillCovered(snap, m) + Froms(found)), cs, News(snap, m) + Entries(found))
  }

  lemma ObservedIs(snap: Snap, m: Memory, counters: map<string, real>, log: seq<Entry>, found: seq<Takeover>)
    requires found == Detected(snap.samples, snap.az, counters).1
    ensures var next := Observed(snap, m, counters);
            && next.0 == m.Knowing(snap).(covered := StillCovered(snap, m) + Froms(found))
            && next.1 == Detected(snap.samples, snap.az, counters).0
            && log + next.2 == log + News(snap, m) + Entries(found)
  {
  }

  /** The same for all snapshots of a round. */
  function Round(agents: seq<Snap>, m: Memory, counters: map<string, real>): (Memory, map<string, real>, seq<Entry>) {
    if agents == [] then (m, counters, [])
    else NextInRound(Round(agents[..|agents| - 1], m, counters), agents[|agents| - 1])
  }

  function NextInRound(sofar: (Memory, map<string, real>, seq<Entry>), snap: Snap)
      : (Memory, map<string, real>, seq<Entry>)
  {
    var next := Observed(snap, sofar.0, sofar.1);
    (next.0, next.1, sofar.2 + next.2)
  }

  ghost predicate InRound(agents: seq<Snap>, m: Memory, counters: map<string, real>, log: seq<Entry>,
                          now: Memory, counts: map<string, real>, longer: seq<Entry>) {
    var round := Round(agents, m, counters);
    now == round.0 && counts == round.1 && longer == log + round.2
  }

  lemma Associates(a: seq<Entry>, b: seq<Entry>, c: seq<Entry>)
    ensures a + (b + c) == a + b + c
  {
  }

  lemma RoundAppend(agents: seq<Snap>, snap: Snap, m: Memory, counters: map<string, real>)
    ensures Round(agents + [snap], m, counters) == NextInRound(Round(agents, m, counters), snap)
  {
    var more := agents + [snap];
    assert more[..|agents|] == agents && more[|agents|] == snap;
  }

  lemma OneMoreInRound(agents: seq<Snap>, snap: Snap, m: Memory, counters: map<string, real>, log: seq<Entry>,
                       now: Memory, counts: map<string, real>, longer: seq<Entry>)
    requires InRound(agents, m, counters, log, now, counts, longer)
    ensures var next := Observed(snap, now, counts);
            InRound(agents + [snap], m, counters, log, next.0, next.1, longer + next.2)
  {
    RoundAppend(agents, snap, m, counters);
    Associates(log, Round(agents, m, counters).2, Observed(snap, now, counts).2);
  }

  /** A round sees the AZs that answer, and remembers a state of each. */
  lemma {:induction false} RoundSees(agents: seq<Snap>, m: Memory, counters: map<string, real>)
    ensures var now := Round(agents, m, counters).0;
            now.seen == m.seen + AzsOf(agents) && now.states.Keys == m.states.Keys + AzsOf(agents)
  {
    if agents == [] {
    } else {
      var init, last := agents[..|agents| - 1], agents[|agents| - 1];
      assert agents == init + [last];
      OneMoreAgent(init, last, []);
      RoundSees(init, m, counters);
      RoundAppend(init, last, m, counters);
      NextSees(Round(init, m, counters), last, m, AzsOf(init));
    }
  }

  lemma NextSees(sofar: (Memory, map<string, real>, seq<Entry>), snap: Snap, m: Memory, azs: set<string>)
    requires sofar.0.seen == m.seen + azs && sofar.0.states.Keys == m.states.Keys + azs
    ensures var now := NextInRound(sofar, snap).0;
            now.seen == m.seen + (azs + {snap.az}) && now.states.Keys == m.states.Keys + (azs + {snap.az})
  {
    ObservedSees(snap, sofar.0, sofar.1);
  }

  lemma ObservedSees(snap: Snap, m: Memory, counters: map<string, real>)
    ensures Observed(snap, m, counters).0.seen == m.seen + {snap.az}
    ensures Observed(snap, m, counters).0.states.Keys == m.states.Keys + {snap.az}
  {
  }

  lemma OneMorePod(pods: seq<Option<Snap>>, n: nat)
    requires n < |pods|
    ensures Usable(pods[..n + 1]) ==
              Usable(pods[..n]) + if pods[n].None? || pods[n].value.az == "" then [] else [pods[n].value]
  {
    assert pods[..n + 1][..n] == pods[..n];
  }

  lemma OneMoreAgent(agents: seq<Snap>, snap: Snap, readings: seq<Reading>)
    ensures readings + AllScraped(agents + [snap]) == readings + AllScraped(agents) + Scraped(snap.samples, snap.az)
    ensures AzsOf(agents + [snap]) == AzsOf(agents) + {snap.az}
    ensures Total(agents + [snap]) == Plus(Total(agents), snap.load)
  {
    assert (agents + [snap])[..|agents|] == agents;
  }

  function Departures(azs: seq<string>): seq<Entry> {
    seq(|azs|, i requires 0 <= i < |azs| => Vanished(azs[i]))
  }

  ghost predicate IsSwept(seen: set<string>, current: set<string>, lost: seq<string>, left: set<string>) {
    Elements(lost) <= seen - current && left == seen - Elements(lost) && Distinct(lost)
  }

  lemma OneMoreSwept(seen: set<string>, current: set<string>, lost: seq<string>, left: set<string>, az: string)
    requires IsSwept(seen, current, lost, left) && az in left - current
    ensures IsSwept(seen, current, lost + [az], left - {az})
    ensures Departures(lost + [az]) == Departures(lost) + [Vanished(az)]
  {
    assert Elements(lost + [az]) == Elements(lost) + {az};
  }

  lemma AllSwept(seen: set<string>, current: set<string>, lost: seq<string>, left: set<string>)
    requires IsSwept(seen, current, lost, left) && left - current == {}
    ensures Elements(lost) == seen - current && left == seen * current
  {
    forall az | az in seen - current ensures az in Elements(lost) {
      assert az !in left - current;
    }
  }

  predicate Distinct(azs: seq<string>) {
    forall i, j :: 0 <= i < j < |azs| ==> azs[i] != azs[j]
  }

  lemma {:induction false} DeparturesShown(log: seq<Entry>, m: Memory, azs: seq<string>)
    requires Shows(log, m) && Distinct(azs) && Elements(azs) <= m.seen
    ensures Shows(log + Departures(azs), m.(seen := m.seen - Elements(azs)))
  {
    if azs == [] {
      assert log + Departures(azs) == log && m.(seen := m.seen - Elements(azs)) == m;
    } else {
      var init, az := azs[..|azs| - 1], azs[|azs| - 1];
      assert azs == init + [az] && Elements(azs) == Elements(init) + {az};
      DeparturesShown(log, m, init);
      var before, was := log + Departures(init), m.(seen := m.seen - Elements(init));
      assert before + [Vanished(az)] == log + Departures(azs);
      VanishingShown(before, was, az);
      assert was.(seen := was.seen - {az}) == m.(seen := m.seen - Elements(azs));
    }
  }

  class Collector {
    var history: seq<Load>
    var events: seq<Entry>
    var failovers: seq<Takeover>
    var seenAZs: set<string>
    var agentStates: map<string, AgentState>
    var failoverCounters: map<string, real>
    var coveredAZs: set<string>

    // everything there ever was
    ghost var log: seq<Entry>
    ghost var takeovers: seq<Takeover>
    ghost var points: seq<Load>
    ghost var readings: seq<Reading>
    ghost var known: Memory   // what Shows relates the log to: the fields and the first observations

    ghost predicate Valid()
      reads this
    {
      && events == Last(log, MAX_EVENTS) && failovers == Last(takeovers, MAX_EVENTS)
      && history == Last(points, MAX_HISTORY)
      && known.seen == seenAZs && known.states == agentStates && known.covered == coveredAZs
      && Shows(log, known) && RegainsExact(log, known.firsts)
      && Tallied(readings, failoverCounters, takeovers)
    }

    constructor ()
      ensures Valid() && log == [] && points == [] && readings == [] && known == Memory({}, map[], {}, map[])
    {
      history, events, failovers := [], [], [];
      seenAZs, agentStates, failoverCounters, coveredAZs := {}, map[], map[], {};
      log, takeovers, points, readings, known := [], [], [], [], Memory({}, map[], {}, map[]);
    }

    method AppendEvent(entry: Entry)
      requires events == Last(log, MAX_EVENTS)
      modifies `events, `log
      ensures log == old(log) + [entry] && events == Last(log, MAX_EVENTS)
    {
      LastOfAppend(log, entry, MAX_EVENTS);
      events := events + [entry];
      if |events| > 100 {
        events := events[|events| - 100..];
      }
      log := log + [entry];
    }

    method AppendFailover(f: Takeover)
      requires events == Last(log, MAX_EVENTS) && failovers == Last(takeovers, MAX_EVENTS)
      modifies `events, `failovers, `log, `takeovers
      ensures log == old(log) + [Failover(f.to, f.from)] && events == Last(log, MAX_EVENTS)
      ensures takeovers == old(takeovers) + [f] && failovers == Last(takeovers, MAX_EVENTS)
    {
      LastOfAppend(takeovers, f, MAX_EVENTS);
      takeovers := takeovers + [f];
      failovers := failovers + [f];
      if |failovers| > 100 {
        failovers := failovers[|failovers| - 100..];
      }
      AppendEvent(Failover(f.to, f.from));
    }

    /** A user-made entry of the dashboard. */
    method AddEvent(az: string, claimed: bool)
      requires Valid()
      modifies `events, `log
      ensures Valid() && log == old(log) + [Manual(az, claimed)]
    {
      ShowsAppended(log, Manual(az, claimed), known, known);
      RegainsKept(log, known.firsts, known.firsts, [Manual(az, claimed)]);
      AppendEvent(Manual(az, claimed));
    }

    /** `known` is already ahead of the states here, which are brought up to date last; `found` are the new
        failovers. */
    method DetectFailovers(samples: seq<Sample>, to: string) returns (ghost found: seq<Takeover>)
      requires events == Last(log, MAX_EVENTS) && failovers == Last(takeovers, MAX_EVENTS)
      requires Shows(log, known) && known.covered == coveredAZs && Tallied(readings, failoverCounters, takeovers)
      modifies `events, `failovers, `log, `takeovers, `failoverCounters, `coveredAZs, `readings, `known
      ensures events == Last(log, MAX_EVENTS) && failovers == Last(takeovers, MAX_EVENTS)
      ensures known == old(known).(covered := coveredAZs) && Shows(log, known) &&
                Tallied(readings, failoverCounters, takeovers)
      ensures readings == old(readings) + Scraped(samples, to)
      ensures (failoverCounters, found) == Detected(samples, to, old(failoverCounters))
      ensures takeovers == old(takeovers) + found && log == old(log) + Entries(found)
      ensures coveredAZs == old(coveredAZs) + Froms(found)
    {
      found := [];
      for n := 0 to |samples|
        invariant events == Last(log, MAX_EVENTS) && failovers == Last(takeovers, MAX_EVENTS)
        invariant known == old(known).(covered := coveredAZs) && Shows(log, known) &&
                  Tallied(readings, failoverCounters, takeovers)
        invariant readings == old(readings) + Scraped(samples[..n], to)
        invariant (failoverCounters, found) == Detected(samples[..n], to, old(failoverCounters))
        invariant takeovers == old(takeovers) + found && log == old(log) + Entries(found)
        invariant coveredAZs == old(coveredAZs) + Froms(found)
      {
        assert samples[..n + 1][..n] == samples[..n];
        DetectedFrom((failoverCounters, found), samples[n], to);
        ghost var more := DetectOne(samples[n], to);
        FoundGrows(found, more);
        found := found + more;
      }
      assert samples[..|samples|] == samples;
    }

    /** One sample. */
    method DetectOne(x: Sample, to: string) returns (ghost found: seq<Takeover>)
      requires events == Last(log, MAX_EVENTS) && failovers == Last(takeovers, MAX_EVENTS)
      requires Shows(log, known) && known.covered == coveredAZs && Tallied(readings, failoverCounters, takeovers)
      modifies `events, `failovers, `log, `takeovers, `failoverCounters, `coveredAZs, `readings, `known
      ensures events == Last(log, MAX_EVENTS) && failovers == Last(takeovers, MAX_EVENTS)
      ensures known == old(known).(covered := coveredAZs) && Shows(log, known) &&
                Tallied(readings, failoverCounters, takeovers)
      ensures readings == old(readings) +
                if x.from == "" || x.value.None? then [] else [Reading(KeyOf(x.from, to), x.value.value)]
      ensures failoverCounters == DetectedOne((old(failoverCounters), []), x, to).0
      ensures found == DetectedOne((old(failoverCounters), []), x, to).1
      ensures takeovers == old(takeovers) + found && log == old(log) + Entries(found)
      ensures coveredAZs == old(coveredAZs) + Froms(found)
    {
      found := [];
      assert Entries([]) == [] && Froms([]) == {};
      if x.from == "" || x.value.None? {
        return;
      }
      var key, val := KeyOf(x.from, to), x.value.value;
      TalliedByOne(readings, failoverCounters, takeovers, x.from, to, val);
      if key !in failoverCounters || val > failoverCounters[key] {
        if key in failoverCounters {
          FailoverShown(log, known, x.from, to);
          AppendFailover(Takeover(x.from, to));
          coveredAZs := coveredAZs + {x.from};
          known := known.(covered := coveredAZs);
          found := [Takeover(x.from, to)];
          OneEntry(Takeover(x.from, to));
        }
        failoverCounters := failoverCounters[key := val];
      }
      readings := readings + [Reading(key, val)];
    }

    /** One scraped agent. */
    method Observe(snap: Snap)
      requires Valid()
      modifies this
      ensures Valid()
      ensures history == old(history) && points == old(points)
      ensures readings == old(readings) + Scraped(snap.samples, snap.az)
      ensures var next := Observed(snap, old(known), old(failoverCounters));
              known == next.0 && failoverCounters == next.1 && log == old(log) + next.2
      ensures takeovers == old(takeovers) + Detected(snap.samples, snap.az, old(failoverCounters)).1
    {
      NewsRegains(log, known, snap);
      NoteNews(snap);
      ghost var log1 := log;
      ghost var found := DetectFailovers(snap.samples, snap.az);
      RegainsKept(log1, known.firsts, known.firsts, Entries(found));
      agentStates := agentStates[snap.az := StateOf(snap)];
      ObservedIs(snap, old(known), old(failoverCounters), old(log), found);
    }

    /** Logs how an agent's snapshot differs from what is remembered of its AZ. */
    method NoteNews(snap: Snap)
      requires events == Last(log, MAX_EVENTS) && Shows(log, known)
      requires known.seen == seenAZs && known.states == agentStates && known.covered == coveredAZs
      modifies `events, `log, `seenAZs, `coveredAZs, `known
      ensures events == Last(log, MAX_EVENTS) && log == old(log) + News(snap, old(known))
      ensures known == old(known).Knowing(snap).(covered := coveredAZs) && Shows(log, known)
      ensures seenAZs == known.seen && coveredAZs == StillCovered(snap, old(known))
    {
      NewsShown(log, known, snap);
      if snap.az !in seenAZs {
        seenAZs := seenAZs + {snap.az};
        AppendEvent(Appeared(snap.az, snap.instanceId));
      }
      assert seenAZs == known.seen + {snap.az};
      ghost var log1 := log;
      assert log1 == old(log) + ArrivalNews(snap, known);
      if snap.az in agentStates {
        NoteChanges(snap, agentStates[snap.az]);
      }
      NewsInOrder(old(log), snap, known);
      known := known.Knowing(snap).(covered := coveredAZs);
    }

    method NoteChanges(snap: Snap, prev: AgentState)
      requires events == Last(log, MAX_EVENTS)
      requires snap.az in known.states && known.states[snap.az] == prev && known.covered == coveredAZs
      modifies `events, `log, `coveredAZs
      ensures events == Last(log, MAX_EVENTS)
      ensures log == old(log) + PeerNews(snap, known) + RouteNews(snap, known) + RegainNews(snap, known)
      ensures coveredAZs == StillCovered(snap, known)
    {
      if !prev.peerUp && snap.peerUp {
        AppendEvent(PeerUp(snap.az));
      } else if prev.peerUp && !snap.peerUp {
        AppendEvent(PeerDown(snap.az));
      }
      assert log == old(log) + PeerNews(snap, known);
      var added, removed := DiffStringSet(prev.tables, snap.tables);
      if |added| > 0 || |removed| > 0 {
        AppendEvent(RouteUpdate(snap.az, added, removed));
      }
      assert log == old(log) + PeerNews(snap, known) + RouteNews(snap, known);
      if snap.az in coveredAZs && |prev.tables| == 0 && |snap.tables| > 0 {
        AppendEvent(Regained(snap.az, snap.tables));
        coveredAZs := coveredAZs - {snap.az};
      }
    }

    /** Stops the AZs that nobody answered for in this scrape from counting as seen; `lost` lists them in the
        order in which they are reported. */
    method Sweep(current: set<string>) returns (ghost lost: seq<string>)
      requires Valid()
      modifies `events, `log, `seenAZs, `known
      ensures Valid() && seenAZs == old(seenAZs) * current && known == old(known).(seen := seenAZs)
      ensures Distinct(lost) && Elements(lost) == old(seenAZs) - current && log == old(log) + Departures(lost)
    {
      lost := [];
      var gone := seenAZs - current;
      while gone != {}
        invariant events == Last(log, MAX_EVENTS) && log == old(log) + Departures(lost)
        invariant gone == seenAZs - current && IsSwept(known.seen, current, lost, seenAZs)
        modifies `events, `log, `seenAZs
        decreases gone
      {
        var az :| az in gone;
        OneMoreSwept(known.seen, current, lost, seenAZs, az);
        gone := gone - {az};
        lost := lost + [az];
        seenAZs := seenAZs - {az};
        AppendEvent(Vanished(az));
      }
      AllSwept(known.seen, current, lost, seenAZs);
      DeparturesShown(old(log), known, lost);
      RegainsKept(old(log), known.firsts, known.firsts, Departures(lost));
      known := known.(seen := known.seen - Elements(lost));
    }

    method Chart(point: Load)
      requires history == Last(points, MAX_HISTORY)
      modifies `history, `points
      ensures points == old(points) + [point] && history == Last(points, MAX_HISTORY)
    {
      LastOfAppend(points, point, MAX_HISTORY);
      history := history + [point];
      if |history| > 60 {
        history := history[|history| - 60..];
      }
      points := points + [point];
    }

    /** The scrapes of one round. */
    method Scrape(pods: seq<Option<Snap>>) returns (agents: seq<Snap>, total: Load, current: set<string>)
      requires Valid()
      modifies this
      ensures Valid()
      ensures agents == Usable(pods) && current == AzsOf(agents) && total == Total(agents)
      ensures InRound(agents, old(known), old(failoverCounters), old(log), known, failoverCounters, log)
      ensures readings == old(readings) + AllScraped(agents)
      ensures points == old(points) && old(takeovers) <= takeovers
    {
      agents, total, current := [], Load(0.0, 0.0, 0.0), {};
      for n := 0 to |pods|
        invariant Valid()
        invariant agents == Usable(pods[..n]) && current == AzsOf(agents) && total == Total(agents)
        invariant InRound(agents, old(known), old(failoverCounters), old(log), known, failoverCounters, log)
        invariant readings == old(readings) + AllScraped(agents)
        invariant points == old(points) && old(takeovers) <= takeovers
      {
        OneMorePod(pods, n);
        if pods[n].None? || pods[n].value.az == "" {
          continue;
        }
        var snap := pods[n].value;
        OneMoreAgent(agents, snap, old(readings));
        OneMoreInRound(agents, snap, old(known), old(failoverCounters), old(log), known, failoverCounters, log);
        current := current + {snap.az};
        Observe(snap);
        agents := agents + [snap];
        total := Plus(total, snap.load);
      }
      assert pods[..|pods|] == pods;
    }

    /** One round: None when the pods cannot be listed, which changes nothing. Otherwise it logs what the
        usable snapshots show, then each AZ that did not answer as lost, once; and exactly the AZs that
        answered are seen afterwards. */
    method Collect(pods: Option<seq<Option<Snap>>>) returns (r: Option<Snapshot>, ghost lost: seq<string>)
      requires Valid()
      modifies this
      ensures Valid() && Shows(log, known) && RegainsExact(log, known.firsts)
      ensures old(takeovers) <= takeovers
      ensures match pods
              case None =>
                r == None && log == old(log) && points == old(points) &&
                readings == old(readings) && known == old(known)
              case Some(ps) =>
                var agents := Usable(ps);
                var round := Round(agents, old(known), old(failoverCounters));
                && r == Some(Snapshot(agents, history, failovers, events))
                && known == round.0.(seen := AzsOf(agents)) && failoverCounters == round.1
                && log == old(log) + round.2 + Departures(lost)
                && Distinct(lost) && Elements(lost) == old(known).seen - AzsOf(agents)
                && readings == old(readings) + AllScraped(agents)
                && points == old(points) + [Total(agents)]
    {
      lost := [];
      if pods.None? {
        return None, lost;
      }
      var agents, total, current := Scrape(pods.value);
      RoundSees(agents, old(known), old(failoverCounters));
      lost := Sweep(current);
      Chart(total);
      return Some(Snapshot(agents, history, failovers, events)), lost;
    }
  }
}

/** The failure detector of a peer client (internal/peer/client.go), driven by any sequence of network
    events. */
module Peer {
  import opened Wire

  const MSG_PONG: byte := 2
  const MSG_STEP_DOWN: byte := 3

  /** What the next wait of the client ends with. A frame of nine bytes always decodes. */
  datatype Event = Cancel | DialFailed | DialOk | WriteFailed | ReadFailed | Got(kind: byte)

  datatype Outcome = Running | Cancelled | Dead | SteppedDown

  datatype State = Dialing(failures: nat) | InSession(failures: nat) | Over(outcome: Outcome)

  /** The client's reaction to one event; events that its current wait cannot end with change nothing. */
  function Next(limit: int, s: State, e: Event): State {
    match s
    case Dialing(f) =>
      (match e
       case Cancel => Over(Cancelled)
       case DialFailed => if f + 1 >= limit then Over(Dead) else Dialing(f + 1)
       case DialOk => InSession(0)
       case _ => s)
    case InSession(f) =>
      (match e
       case Cancel => if 1 >= limit then Over(Dead) else Over(Cancelled)
       case WriteFailed => AfterProbe(limit, f)
       case ReadFailed => AfterProbe(limit, f)
       case Got(kind) =>
         if kind == MSG_PONG then InSession(0) else if kind == MSG_STEP_DOWN then Over(SteppedDown) else s
       case _ => s)
    case Over(_) => s
  }

  /** A failed probe; the one that reaches the limit loses the session, which counts as one failure. */
  function AfterProbe(limit: int, failures: nat): State {
    if failures + 1 < limit then InSession(failures + 1) else if 1 >= limit then Over(Dead) else Dialing(1)
  }

  function Run(limit: int, es: seq<Event>): State {
    if es == [] then Dialing(0) else Next(limit, Run(limit, es[..|es| - 1]), es[|es| - 1])
  }

  // ---- What the events say, whatever the client makes of them ----

  /** Failed dials since the last successful one. */
  function DialFailures(es: seq<Event>): nat {
    if es == [] then 0 else DialCount(DialFailures(es[..|es| - 1]), es[|es| - 1])
  }

  function DialCount(before: nat, e: Event): nat {
    match e
    case DialOk => 0
    case DialFailed => before + 1
    case _ => before
  }

  /** Failed probes since the last pong or successful dial. */
  function ProbeFailures(es: seq<Event>): nat {
    if es == [] then 0 else ProbeCount(ProbeFailures(es[..|es| - 1]), es[|es| - 1])
  }

  function ProbeCount(before: nat, e: Event): nat {
    match e
    case DialOk => 0
    case WriteFailed => before + 1
    case ReadFailed => before + 1
    case Got(kind) => if kind == MSG_PONG then 0 else before
    case _ => before
  }

  predicate Possible(s: State, e: Event) {
    match s
    case Dialing(_) => e.Cancel? || e.DialFailed? || e.DialOk?
    case InSession(_) => !e.DialFailed? && !e.DialOk?
    case Over(_) => false
  }

  /** Each event is one that the client was waiting for. */
  ghost predicate Fits(limit: int, es: seq<Event>) {
    forall i {:trigger es[i]} :: 0 <= i < |es| ==> Possible(Run(limit, es[..i]), es[i])
  }

  lemma FitsPrefix(limit: int, es: seq<Event>)
    requires Fits(limit, es) && es != []
    ensures Fits(limit, es[..|es| - 1]) && Possible(Run(limit, es[..|es| - 1]), es[|es| - 1])
  {
    var init := es[..|es| - 1];
    forall i | 0 <= i < |init| ensures Possible(Run(limit, init[..i]), init[i]) {
      assert init[i] == es[i] && init[..i] == es[..i];
    }
  }

  /** A limit of 1 or less acts like 1: the first failure is one too many. */
  function Needed(limit: int): nat {
    if limit >= 1 then limit else 1
  }

  /** What the client's counters stand for: `dials` and `probes` are the event counts above, `had` tells
      whether there was a session, `cancelled` whether a cancellation was observed. */
  predicate Means(needed: nat, s: State, dials: nat, probes: nat, had: bool, cancelled: bool) {
    match s
    case Dialing(f) => f == dials + (if had then 1 else 0) && f < needed && !cancelled && (had ==> probes == needed)
    case InSession(f) => f == probes < needed && had && dials == 0 && !cancelled
    case Over(Dead) =>
      && dials + (if had then 1 else 0) == needed
      && if cancelled then needed == 1 && had && probes == 0 else had ==> probes == needed
    case Over(_) => true
  }

  /** What the last event of a death is. */
  predicate Kills(needed: nat, e: Event, had: bool) {
    e == DialFailed || (needed == 1 && (e == WriteFailed || e == ReadFailed || (e == Cancel && had)))
  }

  lemma LastIn(es: seq<Event>, x: Event)
    requires es != []
    ensures x in es <==> x in es[..|es| - 1] || es[|es| - 1] == x
  {
    assert es == es[..|es| - 1] + [es[|es| - 1]];
  }

  lemma {:induction false} CountersMean(limit: int, es: seq<Event>)
    requires Fits(limit, es)
    ensures Means(Needed(limit), Run(limit, es), DialFailures(es), ProbeFailures(es), DialOk in es, Cancel in es)
  {
    if es == [] {
    } else {
      var n := |es| - 1;
      var init, e := es[..n], es[n];
      FitsPrefix(limit, es);
      CountersMean(limit, init);
      LastIn(es, DialOk);
      LastIn(es, Cancel);
      OneEventMeans(limit, Run(limit, init), e, DialFailures(init), ProbeFailures(init), DialOk in init,
                    Cancel in init);
    }
  }

  lemma OneEventMeans(limit: int, s: State, e: Event, dials: nat, probes: nat, had: bool, cancelled: bool)
    requires Possible(s, e) && Means(Needed(limit), s, dials, probes, had, cancelled)
    ensures Means(Needed(limit), Next(limit, s, e), DialCount(dials, e), ProbeCount(probes, e), had || e == DialOk,
                  cancelled || e == Cancel)
    ensures Next(limit, s, e) == Over(Dead) ==> Kills(Needed(limit), e, had)
    ensures Next(limit, s, e) == Over(Cancelled) ==> e == Cancel && (had ==> limit >= 2)
    ensures Next(limit, s, e) == Over(SteppedDown) ==> e == Got(MSG_STEP_DOWN)
    ensures Next(limit, s, e) != Over(Running)
  {
  }

  /** How the client's outcome depends on the last event. */
  lemma LastEventDecides(limit: int, es: seq<Event>)
    requires Fits(limit, es) && es != []
    ensures var e, had := es[|es| - 1], DialOk in es;
            && (Run(limit, es) == Over(Dead) ==> Kills(Needed(limit), e, had))
            && (Run(limit, es) == Over(Cancelled) ==> e == Cancel && (had ==> limit >= 2))
            && (Run(limit, es) == Over(SteppedDown) ==> e == Got(MSG_STEP_DOWN))
            && Run(limit, es) != Over(Running)
  {
    var n := |es| - 1;
    var init := es[..n];
    FitsPrefix(limit, es);
    CountersMean(limit, init);
    LastIn(es, DialOk);
    OneEventMeans(limit, Run(limit, init), es[n], DialFailures(init), ProbeFailures(init), DialOk in init,
                  Cancel in init);
  }

  /** When a peer is declared dead, for a limit of at least 2: at a failed dial, exactly if the failed dials
      since the last successful one, and one more if there was a session, have come to the limit. */
  lemma DeathExact(limit: int, es: seq<Event>)
    requires limit >= 2 && Fits(limit, es)
    ensures Run(limit, es) == Over(Dead) <==>
              es != [] && es[|es| - 1] == DialFailed && DialFailures(es) + (if DialOk in es then 1 else 0) >= limit
  {
    CountersMean(limit, es);
    if es == [] {
    } else {
      LastEventDecides(limit, es);
    }
  }

  /** With a limit of 1 or less: at the first failed dial or probe, and at a cancellation that the client
      observes during a session. */
  lemma FirstFailureIsDeath(limit: int, es: seq<Event>)
    requires limit <= 1 && Fits(limit, es)
    ensures Run(limit, es) == Over(Dead) <==>
              es != [] && match es[|es| - 1]
                          case DialFailed => true
                          case WriteFailed => true
                          case ReadFailed => true
                          case Cancel => DialOk in es
                          case _ => false
  {
    if es == [] {
    } else {
      LastEventDecides(limit, es);
    }
  }

  /** A peer counts as stepped down exactly if the last event is a step-down frame: the client waits for
      frames only during a session. */
  lemma SteppedDownExact(limit: int, es: seq<Event>)
    requires Fits(limit, es)
    ensures Run(limit, es) == Over(SteppedDown) <==> es != [] && es[|es| - 1] == Got(MSG_STEP_DOWN)
  {
    if es == [] {
    } else {
      FitsPrefix(limit, es);
      LastEventDecides(limit, es);
    }
  }

  /** The client ends as cancelled exactly if the last event is a cancellation, and with a limit of 1 or less
      there was no session. */
  lemma CancelledExact(limit: int, es: seq<Event>)
    requires Fits(limit, es)
    ensures Run(limit, es) == Over(Cancelled) <==>
              es != [] && es[|es| - 1] == Cancel && (limit >= 2 || DialOk !in es)
  {
    if es == [] {
    } else {
      FitsPrefix(limit, es);
      LastEventDecides(limit, es);
      if limit <= 1 {
        FirstFailureIsDeath(limit, es);
      }
    }
  }

  /** Peer death is never declared early. A session lost on the way went through `limit` failed probes
      after its last pong, and with a limit of at least 2 a cancellation that the client observed never
      leads to a death. */
  lemma DeathNeedsEvidence(limit: int, es: seq<Event>)
    requires limit >= 2 && Fits(limit, es) && Run(limit, es) == Over(Dead)
    ensures DialFailures(es) == if DialOk in es then limit - 1 else limit
    ensures DialOk in es ==> ProbeFailures(es) == limit
    ensures Cancel !in es
  {
    CountersMean(limit, es);
  }

  function Missed(n: nat): (es: seq<Event>)
    ensures |es| == n + 1
  {
    [DialOk] + seq(n, i requires 0 <= i < n => ReadFailed)
  }

  /** As many missed pongs in a row as the limit lose the session, but are no death yet: the client dials
      again. */
  lemma MissedPongsAreNoDeath(limit: nat)
    requires limit >= 2
    ensures Run(limit, Missed(limit)) == Dialing(1) && ProbeFailures(Missed(limit)) == limit
  {
    MissedOneByOne(limit, limit - 1);
    assert Missed(limit)[..limit] == Missed(limit - 1);
  }

  lemma {:induction false} MissedOneByOne(limit: nat, n: nat)
    requires n < limit
    ensures Run(limit, Missed(n)) == InSession(n) && ProbeFailures(Missed(n)) == n
  {
    if n == 0 {
      assert Missed(0) == [DialOk] && [DialOk][..0] == [];
      assert Run(limit, [DialOk]) == InSession(0) && ProbeFailures([DialOk]) == 0;
    } else {
      MissedOneByOne(limit, n - 1);
      assert Missed(n)[..n] == Missed(n - 1) && Missed(n)[n] == ReadFailed;
    }
  }

  /** An unreachable peer is given up after exactly max(limit, 1) dials. */
  lemma {:induction false} UnreachableIsGivenUp(limit: int, es: seq<Event>)
    requires forall i :: 0 <= i < |es| ==> es[i] == DialFailed
    ensures Run(limit, es) == if |es| > 0 && |es| >= limit then Over(Dead) else Dialing(|es|)
  {
    if es == [] {
    } else {
      UnreachableIsGivenUp(limit, es[..|es| - 1]);
    }
  }

  /** A peer whose dials never fail is never declared dead, however its sessions go, exactly when the
      limit is at least 2: a lost session is forgotten at the next successful dial. With a limit of 1 or
      less the first missed pong is a death. */
  lemma DialsOkNeverDead(limit: int)
    ensures limit >= 2 <==> forall es :: DialFailed !in es ==> Run(limit, es) != Over(Dead)
  {
    if limit >= 2 {
      forall es: seq<Event> | DialFailed !in es ensures Run(limit, es) != Over(Dead) {
        NoDeath(limit, es);
      }
    } else {
      var es := [DialOk, ReadFailed];
      assert es[..1] == [DialOk] && [DialOk][..0] == [];
      assert Run(limit, [DialOk]) == InSession(0);
      assert Run(limit, es) == Over(Dead) && DialFailed !in es;
    }
  }

  lemma {:induction false} NoDeath(limit: int, es: seq<Event>)
    requires limit >= 2 && DialFailed !in es
    ensures Run(limit, es) != Over(Dead)
  {
    if es == [] {
    } else {
      assert es == es[..|es| - 1] + [es[|es| - 1]];
      NoDeath(limit, es[..|es| - 1]);
    }
  }

  lemma {:induction false} OverForGood(limit: int, es: seq<Event>, n: nat)
    requires n <= |es| && Run(limit, es[..n]).Over?
    ensures Run(limit, es) == Run(limit, es[..n])
    decreases |es|
  {
    if n < |es| {
      var init := es[..|es| - 1];
      assert init[..n] == es[..n];
      OverForGood(limit, init, n);
    } else {
      assert es[..n] == es;
    }
  }

  class Client {
    const probeFailures: int
    var connected: bool          // the conn field
    ghost var onFailure: nat     // how often each callback has been called
    ghost var onStepDown: nat

    constructor (probeFailures: int)
      ensures this.probeFailures == probeFailures && !connected && onFailure == 0 && onStepDown == 0
    {
      this.probeFailures, connected, onFailure, onStepDown := probeFailures, false, 0, 0;
    }

    /** Dials and runs heartbeats until cancelled, until the peer steps down or is declared dead, or until
        the given events are used up. Both callbacks together fire at most once, and OnFailure fires
        exactly when the events amount to a death. */
    method Connect(es: seq<Event>) returns (outcome: Outcome)
      requires !connected
      modifies this
      ensures Run(probeFailures, es) == Over(outcome) || (outcome == Running && !Run(probeFailures, es).Over?)
      ensures onFailure == old(onFailure) + if Run(probeFailures, es) == Over(Dead) then 1 else 0
      ensures onStepDown == old(onStepDown) + if Run(probeFailures, es) == Over(SteppedDown) then 1 else 0
      ensures connected <==> Run(probeFailures, es).InSession?
    {
      var failures := 0;
      var i := 0;
      while i < |es|
        invariant 0 <= i <= |es| && failures >= 0 && !connected
        invariant Run(probeFailures, es[..i]) == Dialing(failures)
        invariant onFailure == old(onFailure) && onStepDown == old(onStepDown)
      {
        var e := es[i];
        assert es[..i + 1][..i] == es[..i];
        i := i + 1;
        if e == Cancel {
          OverForGood(probeFailures, es, i);
          return Cancelled;
        }
        if e == DialFailed {
          failures := failures + 1;
          if failures >= probeFailures {
            onFailure := onFailure + 1;
            OverForGood(probeFailures, es, i);
            return Dead;
          }
          continue;
        }
        if e != DialOk {
          continue;
        }
        connected := true;
        failures := 0;
        var result, j := RunHeartbeat(es, i);
        i := j;
        if result == StillRunning {
          assert es[..|es|] == es;
          return Running;
        }
        connected := false;
        if result == StepDown {
          onStepDown := onStepDown + 1;
          OverForGood(probeFailures, es, i);
          return SteppedDown;
        }
        failures := failures + 1;
        if failures >= probeFailures {
          onFailure := onFailure + 1;
          OverForGood(probeFailures, es, i);
          return Dead;
        }
        if result == CancelledHeartbeat {
          OverForGood(probeFailures, es, i);
          return Cancelled;
        }
      }
      assert es[..|es|] == es;
      return Running;
    }

    /** One session, from event `from` on; `to` is where it stopped. A cancelled heartbeat is a lost one
        whose context the dial loop finds done. */
    method RunHeartbeat(es: seq<Event>, from: nat) returns (result: HeartbeatResult, to: nat)
      requires from <= |es| && Run(probeFailures, es[..from]) == InSession(0)
      ensures from <= to <= |es|
      ensures match result
              case StillRunning => to == |es| && Run(probeFailures, es).InSession?
              case StepDown => to > 0 && Run(probeFailures, es[..to]) == Over(SteppedDown)
              case Lost => Run(probeFailures, es[..to]) == if 1 >= probeFailures then Over(Dead) else Dialing(1)
              case CancelledHeartbeat =>
                Run(probeFailures, es[..to]) == if 1 >= probeFailures then Over(Dead) else Over(Cancelled)
    {
      var failures := 0;
      to := from;
      while to < |es|
        invariant from <= to <= |es| && failures >= 0
        invariant Run(probeFailures, es[..to]) == InSession(failures)
      {
        var e := es[to];
        assert es[..to + 1][..to] == es[..to];
        to := to + 1;
        match e
        case Cancel => return CancelledHeartbeat, to;
        case WriteFailed =>
          failures := failures + 1;
          if failures >= probeFailures {
            return Lost, to;
          }
        case ReadFailed =>
          failures := failures + 1;
          if failures >= probeFailures {
            return Lost, to;
          }
        case Got(kind) =>
          if kind == MSG_PONG {
            failures := 0;
          } else if kind == MSG_STEP_DOWN {
            return StepDown, to;
          }
        case _ =>
      }
      assert es[..|es|] == es;
      return StillRunning, to;
    }
  }

  datatype HeartbeatResult = Lost | StepDown | CancelledHeartbeat | StillRunning
}

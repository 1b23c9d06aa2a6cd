/** The Lease record, its expiry rule and the naming of Leases by AZ. */
module Leases {
  import opened Wrappers

  // Instants and durations are whole nanoseconds, as in Go's time package.
  const SECOND := 1_000_000_000

  /** A coordination.k8s.io Lease. `homeLabel` is the kube-nat/home-az label, "" when absent;
      `managed` says that the label app=kube-nat is present. */
  datatype Lease = Lease(
    holder: Option<string>,
    renewTime: Option<int>,
    durationSecs: Option<int>,
    homeLabel: string,
    managed: bool,
    version: nat)

  /** Who is calling: the holder identity, the AZ its node runs in, and the TTL it writes. */
  datatype Ident = Ident(holder: string, homeAZ: string, durSecs: int)

  predicate IsExpired(l: Lease, now: int) {
    match (l.renewTime, l.durationSecs)
    case (Some(renewed), Some(secs)) => now > renewed + secs * SECOND
    case _ => true
  }

  /** A Lease with a renew time and a duration expires once and for all; one that lacks either never protects
      its holder. */
  lemma ExpiresForGood(l: Lease)
    ensures forall now, later :: IsExpired(l, now) && now <= later ==> IsExpired(l, later)
    ensures (exists until :: LiveUntil(l, until)) <==> l.renewTime.Some? && l.durationSecs.Some?
    ensures (forall now :: IsExpired(l, now)) <==> l.renewTime.None? || l.durationSecs.None?
  {
    if l.renewTime.Some? && l.durationSecs.Some? {
      var until := l.renewTime.value + l.durationSecs.value * SECOND;
      assert LiveUntil(l, until) && !IsExpired(l, until);
    } else {
      forall until ensures !LiveUntil(l, until) {
        assert IsExpired(l, until);
      }
    }
  }

  ghost predicate LiveUntil(l: Lease, until: int) {
    forall now :: IsExpired(l, now) <==> now > until
  }

  predicate HeldBy(l: Lease, who: string) {
    l.holder == Some(who)
  }

  /** An agent of AZ `az` finds its own Lease with a stand-in from another AZ. */
  predicate HeldByForeignFailover(l: Lease, az: string, homeAZ: string) {
    homeAZ == az && l.homeLabel != "" && l.homeLabel != az
  }

  predicate MayAcquire(l: Lease, az: string, me: Ident, now: int) {
    HeldBy(l, me.holder) || IsExpired(l, now) || HeldByForeignFailover(l, az, me.homeAZ)
  }

  /** The Lease is one that an agent of `az` called `heir` may take at any time. */
  predicate AwaitsHeir(l: Option<Lease>, az: string, heir: string) {
    l.None? || HeldBy(l.value, heir) || HeldByForeignFailover(l.value, az, az)
  }

  /** What a renewal writes over the copy it read. An agent without a home AZ leaves the label alone. */
  function Refreshed(l: Lease, me: Ident, now: int): Lease {
    l.(renewTime := Some(now), durationSecs := Some(me.durSecs),
       homeLabel := if me.homeAZ == "" then l.homeLabel else me.homeAZ)
  }

  /** What an acquisition writes over the copy it read. */
  function Claimed(l: Lease, me: Ident, now: int): Lease {
    Refreshed(l.(holder := Some(me.holder)), me, now)
  }

  /** What a creation writes. The server chooses the version. */
  function Fresh(me: Ident, now: int): Lease {
    Lease(Some(me.holder), Some(now), Some(me.durSecs), me.homeAZ, true, 0)
  }

  function Lookup(leases: map<string, Lease>, key: string): Option<Lease> {
    if key in leases then Some(leases[key]) else None
  }

  function Put(leases: map<string, Lease>, key: string, l: Option<Lease>): map<string, Lease> {
    if l.Some? then leases[key := l.value] else leases - {key}
  }

  const PREFIX := "kube-nat-"

  function LeaseName(az: string): string {
    PREFIX + az
  }

  function AzFromLeaseName(name: string): string {
    if |name| > |PREFIX| then name[|PREFIX|..] else ""
  }

  /** Every AZ is recovered from its Lease's name, so different AZs have different Leases. */
  lemma AzRoundTrip(az: string)
    ensures AzFromLeaseName(LeaseName(az)) == az
  {
    assert LeaseName(az)[|PREFIX|..] == az;
  }

  /** The other way round fails for names without the prefix, which AzFromLeaseName does not check. */
  lemma NameRoundTrip(name: string)
    ensures LeaseName(AzFromLeaseName(name)) == name <==> PREFIX <= name
  {
    if PREFIX <= name {
      assert name == PREFIX + name[|PREFIX|..];
    }
  }

  /** The AZs that a listing reports as expired, in listing order. */
  function ExpiredAZs(items: seq<(string, Lease)>, ownAZ: string, now: int): seq<string> {
    if items == [] then []
    else
      var rest := ExpiredAZs(items[..|items| - 1], ownAZ, now);
      var (name, l) := items[|items| - 1];
      var az := AzFromLeaseName(name);
      if l.managed && az != "" && az != ownAZ && IsExpired(l, now) then rest + [az] else rest
  }

  /** The sweep reports exactly the expired foreign AZs among the labelled Leases: it never reports
      the agent's own AZ, and a live Lease is never reported. */
  lemma {:induction false} ExpiredAZsExact(items: seq<(string, Lease)>, ownAZ: string, now: int, az: string)
    ensures az in ExpiredAZs(items, ownAZ, now) <==>
            az != "" && az != ownAZ &&
            exists i :: 0 <= i < |items| && items[i].1.managed && IsExpired(items[i].1, now) &&
                        AzFromLeaseName(items[i].0) == az
  {
    if items == [] {
    } else {
      var init := items[..|items| - 1];
      ExpiredAZsExact(init, ownAZ, now, az);
      assert forall i :: 0 <= i < |init| ==> init[i] == items[i];
      assert items[|items| - 1] == (items[|items| - 1].0, items[|items| - 1].1);
    }
  }

  /** One List call, filtered by the app=kube-nat selector, and the loop over its items. */
  method ListExpiredAZs(items: seq<(string, Lease)>, ownAZ: string, now: int) returns (expired: seq<string>)
    ensures expired == ExpiredAZs(items, ownAZ, now)
  {
    expired := [];
    for i := 0 to |items|
      invariant expired == ExpiredAZs(items[..i], ownAZ, now)
    {
      assert items[..i + 1][..i] == items[..i];
      var (name, l) := items[i];
      if !l.managed { continue; }
      var az := AzFromLeaseName(name);
      if az == "" || az == ownAZ {
        continue;
      }
      if IsExpired(l, now) {
        expired := expired + [az];
      }
    }
    assert items[..|items|] == items;
  }
}

/** The renewal interval that the Lease timing rests on (internal/config/config.go). */
module RenewInterval {
  import opened Leases

  /** How often an agent renews its Leases; both arguments are nanoseconds and positive once loaded. */
  function LeaseRenewInterval(leaseDuration: int, reconcileInterval: int): int {
    var quarter := GoDiv(leaseDuration, 4);
    var floored := if quarter < SECOND then SECOND else quarter;
    if reconcileInterval > 0 && floored > reconcileInterval then reconcileInterval else floored
  }

  /** It is the largest interval that stays within the reconcile interval, if there is one, and within a
      quarter of the Lease duration or one second. */
  lemma LargestInterval(leaseDuration: int, reconcileInterval: int, x: int)
    ensures x <= LeaseRenewInterval(leaseDuration, reconcileInterval) <==>
            (reconcileInterval > 0 ==> x <= reconcileInterval) && (x <= SECOND || 4 * x <= leaseDuration)
  {
    assert GoDiv(leaseDuration, 4) >= SECOND ==> (x <= GoDiv(leaseDuration, 4) <==> 4 * x <= leaseDuration);
  }

  /** Go's integer division truncates toward zero. */
  function GoDiv(a: int, b: int): int
    requires b > 0
  {
    if a >= 0 then a / b else -((-a) / b)
  }

  /** The whole seconds that a Lease write records, int32(d.Seconds()), for durations that fit. */
  function DurSecs(leaseDuration: int): int {
    GoDiv(leaseDuration, SECOND)
  }

  function Ttl(leaseDuration: int): int {
    DurSecs(leaseDuration) * SECOND
  }

  /** A Lease is renewed at least twice per TTL actually written exactly from 2s up, or when the
      reconcile interval caps the renewals enough. Below 1s the TTL written is 0 and no interval helps. */
  lemma TwoRenewalsPerTtl(leaseDuration: int, reconcileInterval: int)
    requires leaseDuration > 0 && reconcileInterval > 0
    ensures 2 * LeaseRenewInterval(leaseDuration, reconcileInterval) <= Ttl(leaseDuration) <==>
            leaseDuration >= 2 * SECOND || (leaseDuration >= SECOND && 2 * reconcileInterval <= SECOND)
  {
    WholeSeconds(leaseDuration);
  }

  /** A third of the TTL is met exactly from 3s up (or by a short reconcile interval). */
  lemma ThreeRenewalsPerTtl(leaseDuration: int, reconcileInterval: int)
    requires leaseDuration > 0 && reconcileInterval > 0
    ensures 3 * LeaseRenewInterval(leaseDuration, reconcileInterval) <= Ttl(leaseDuration) <==>
            leaseDuration >= 3 * SECOND || 3 * reconcileInterval <= Ttl(leaseDuration)
  {
    WholeSeconds(leaseDuration);
  }

  /** Truncation to whole seconds loses less than a second. */
  lemma WholeSeconds(leaseDuration: int)
    requires leaseDuration > 0
    ensures leaseDuration - SECOND < Ttl(leaseDuration) <= leaseDuration
    ensures forall n :: 0 <= n && n * SECOND <= leaseDuration ==> n <= DurSecs(leaseDuration)
  {
    assert leaseDuration == SECOND * (leaseDuration / SECOND) + leaseDuration % SECOND;
  }

  /** Ticks every LeaseRenewInterval whose calls commit within `latency` of their start leave commits at
      most interval + latency apart, each with a renew time at most `latency` old: within the TTL. */
  lemma RenewalBudget(leaseDuration: int, reconcileInterval: int, latency: int)
    requires leaseDuration >= 2 * SECOND && reconcileInterval > 0 && 0 <= latency
    requires if leaseDuration >= 3 * SECOND then 3 * latency <= Ttl(leaseDuration)
              else 4 * latency <= Ttl(leaseDuration)
    ensures LeaseRenewInterval(leaseDuration, reconcileInterval) + latency + latency <= Ttl(leaseDuration)
  {
    TwoRenewalsPerTtl(leaseDuration, reconcileInterval);
    ThreeRenewalsPerTtl(leaseDuration, reconcileInterval);
  }
}

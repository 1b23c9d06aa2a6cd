/** One agent's route-table bookkeeping (internal/reconciler/reconciler.go). */
module Reconciler {
  import opened Wrappers
  import opened Ec2

  function Ids(tables: seq<RouteTable>): seq<string> {
    seq(|tables|, i requires 0 <= i < |tables| => tables[i].id)
  }

  lemma IdsGrow(tables: seq<RouteTable>, n: nat)
    requires n < |tables|
    ensures Ids(tables[..n + 1]) == Ids(tables[..n]) + [tables[n].id]
  {
  }

  lemma RetargetNone(tables: seq<RouteTable>)
    ensures Retarget(tables, map[]) == tables
  {
  }

  /** The tables of a discovery that do not point at `me` yet, each to be pointed there. */
  function ClaimGoal(found: seq<RouteTable>, me: string): map<string, Target> {
    if found == [] then map[]
    else
      var rest := ClaimGoal(found[..|found| - 1], me);
      var t := found[|found| - 1];
      if t.instanceId == me then rest else rest[t.id := ToInstance(me)]
  }

  function ClaimWrites(found: seq<RouteTable>, me: string): seq<Write> {
    if found == [] then []
    else
      var rest := ClaimWrites(found[..|found| - 1], me);
      var t := found[|found| - 1];
      if t.instanceId == me then rest else rest + [Write(t.id, ToInstance(me))]
  }

  /** How the own-AZ claim loop leaves the tables after a discovery: all of it done, or cut short by the failed
      claim of table number `n`, which may or may not have taken effect. */
  predicate ClaimedUpTo(was: seq<RouteTable>, found: seq<RouteTable>, me: string, now: seq<RouteTable>,
                        err: bool, n: nat)
  {
    && n <= |found|
    && if !err then n == |found| && now == Retarget(was, ClaimGoal(found, me))
       else
         && n > 0 && found[n - 1].instanceId != me
         && (now == Retarget(was, ClaimGoal(found[..n], me)) || now == Retarget(was, ClaimGoal(found[..n - 1], me)))
  }

  lemma {:induction false} ClaimGoalExact(found: seq<RouteTable>, me: string)
    ensures forall id :: id in ClaimGoal(found, me) <==> exists t :: t in found && t.id == id && t.instanceId != me
    ensures forall id :: id in ClaimGoal(found, me) ==> ClaimGoal(found, me)[id] == ToInstance(me)
  {
    if found == [] {
    } else {
      var n := |found| - 1;
      ClaimGoalExact(found[..n], me);
      assert found == found[..n] + [found[n]];
    }
  }

  /** The claim loop asks for one write for each discovered table that points elsewhere, and for no other. */
  lemma {:induction false} ClaimWritesExact(found: seq<RouteTable>, me: string)
    requires DistinctIds(found)
    ensures forall w :: w in ClaimWrites(found, me) <==>
                        w.target == ToInstance(me) && exists t :: t in found && t.id == w.id && t.instanceId != me
    ensures forall i, j :: 0 <= i < j < |ClaimWrites(found, me)| ==>
              ClaimWrites(found, me)[i].id != ClaimWrites(found, me)[j].id
  {
    if found == [] {
    } else {
      var n := |found| - 1;
      ClaimWritesExact(found[..n], me);
      assert found == found[..n] + [found[n]];
      assert forall t :: t in found[..n] ==> t.id != found[n].id;
    }
  }

  lemma {:induction false} NothingToClaim(found: seq<RouteTable>, me: string)
    requires forall t :: t in found ==> t.instanceId == me
    ensures ClaimWrites(found, me) == []
  {
    if found == [] {
    } else {
      NothingToClaim(found[..|found| - 1], me);
    }
  }

  /** The own-AZ claim loop does its job: afterwards every table of the AZ points at this instance, no
      other table has moved, the listing names the same tables, and an immediate repeat writes nothing. */
  lemma ClaimedAzIsOurs(tables: seq<RouteTable>, az: string, me: string)
    requires DistinctIds(tables)
    ensures var r := Retarget(tables, ClaimGoal(InAz(tables, az), me));
            && (forall i :: 0 <= i < |r| && r[i].az == az ==> r[i].instanceId == me)
            && (forall i :: 0 <= i < |r| && r[i].az != az ==> r[i] == tables[i])
            && ClaimWrites(InAz(r, az), me) == [] && Ids(InAz(r, az)) == Ids(InAz(tables, az))
  {
    var found := InAz(tables, az);
    var r := Retarget(tables, ClaimGoal(found, me));
    InAzExact(tables, az);
    ClaimGoalExact(found, me);
    forall i | 0 <= i < |r|
      ensures r[i].az == az ==> r[i].instanceId == me
      ensures r[i].az != az ==> r[i] == tables[i]
    {
      assert tables[i] in tables;
      assert tables[i].id in ClaimGoal(found, me) ==> tables[i] in found by {
        if tables[i].id in ClaimGoal(found, me) {
          var t :| t in found && t.id == tables[i].id && t.instanceId != me;
          OneTablePerId(tables, i, t);
        }
      }
    }
    InAzExact(r, az);
    NothingToClaim(InAz(r, az), me);
    SameListing(tables, r, az);
  }

  lemma OneTablePerId(tables: seq<RouteTable>, i: nat, t: RouteTable)
    requires DistinctIds(tables) && i < |tables| && t in tables && t.id == tables[i].id
    ensures t == tables[i]
  {
  }

  lemma {:induction false} SameListing(a: seq<RouteTable>, b: seq<RouteTable>, az: string)
    requires |a| == |b| && forall i :: 0 <= i < |a| ==> a[i].id == b[i].id && a[i].az == b[i].az
    ensures Ids(InAz(a, az)) == Ids(InAz(b, az))
  {
    if a == [] {
    } else {
      var n := |a| - 1;
      SameListing(a[..n], b[..n], az);
      assert |Ids(InAz(a[..n], az))| == |InAz(a[..n], az)| == |InAz(b[..n], az)|;
      assert forall x: seq<RouteTable>, t: RouteTable :: Ids(x + [t]) == Ids(x) + [t.id];
    }
  }

  /** The tracked tables that the discoveries of the AZs `seen` show pointing at somebody else. */
  ghost predicate Reclaimed(tables: seq<RouteTable>, seen: set<string>, me: string, id: string) {
    exists t :: t in tables && t.az in seen && t.id == id && t.instanceId != me
  }

  function Get(m: map<string, string>, k: string): string {
    if k in m then m[k] else ""
  }

  ghost predicate Distinct(s: seq<string>) {
    forall i, j :: 0 <= i < j < |s| ==> s[i] != s[j]
  }

  /** A release needs a gateway from EC2: none is recorded, but the VPC is. */
  predicate Unrecorded(id: string, gateways: map<string, string>, vpcs: map<string, string>) {
    Get(gateways, id) == "" && Get(vpcs, id) != ""
  }

  /** The EC2 calls for one owned table: a lookup and a write, a write, or, its VPC being unknown, none. */
  function CallsFor(id: string, gateways: map<string, string>, vpcs: map<string, string>): nat {
    if Get(gateways, id) != "" then 1 else if Get(vpcs, id) != "" then 2 else 0
  }

  function CallsForAll(owned: seq<string>, gateways: map<string, string>, vpcs: map<string, string>): nat {
    if owned == [] then 0
    else CallsForAll(owned[..|owned| - 1], gateways, vpcs) + CallsFor(owned[|owned| - 1], gateways, vpcs)
  }

  function VpcsOf(owned: seq<string>, gateways: map<string, string>, vpcs: map<string, string>): seq<string> {
    if owned == [] then []
    else
      var id := owned[|owned| - 1];
      VpcsOf(owned[..|owned| - 1], gateways, vpcs) + if Unrecorded(id, gateways, vpcs) then [vpcs[id]] else []
  }

  /** Where a release sends one owned table, if `script` answers its calls: back to its recorded gateway; else
      to the one looked up in its VPC; else, its VPC being unknown, nowhere. */
  predicate Handled(id: string, goal: map<string, Target>, gateways: map<string, string>, vpcs: map<string, string>,
                    script: seq<Turn>) {
    if Get(gateways, id) != "" then id in goal && goal[id] == ToGateway(gateways[id])
    else if Get(vpcs, id) != "" then Found(script).Some? && id in goal && goal[id] == ToGateway(Found(script).value)
    else id !in goal
  }

  /** Every call for the table succeeds. */
  predicate Succeeds(id: string, gateways: map<string, string>, vpcs: map<string, string>, script: seq<Turn>) {
    && (Get(gateways, id) != "" ==> Upcoming(script).fault == Calm)
    && (Unrecorded(id, gateways, vpcs) ==> Found(script).Some? && Upcoming(After(script, 1)).fault == Calm)
  }

  ghost predicate AllSucceed(owned: seq<string>, n: nat, gateways: map<string, string>, vpcs: map<string, string>,
                             script: seq<Turn>) {
    forall j :: 0 <= j < n <= |owned| ==>
      Succeeds(owned[j], gateways, vpcs, After(script, CallsForAll(owned[..j], gateways, vpcs)))
  }

  /** The first `n` owned tables have been handled, and nothing else has been touched. */
  ghost predicate HandledUpTo(owned: seq<string>, n: nat, goal: map<string, Target>, gateways: map<string, string>,
                              vpcs: map<string, string>, script: seq<Turn>) {
    && n <= |owned|
    && (forall j :: 0 <= j < n ==> HandledAt(owned, j, goal, gateways, vpcs, script))
    && (forall id :: id in goal ==> id in owned[..n])
  }

  ghost predicate HandledAt(owned: seq<string>, j: int, goal: map<string, Target>, gateways: map<string, string>,
                            vpcs: map<string, string>, script: seq<Turn>)
    requires 0 <= j < |owned|
  {
    Handled(owned[j], goal, gateways, vpcs, After(script, CallsForAll(owned[..j], gateways, vpcs)))
  }

  lemma HandledOneMore(owned: seq<string>, n: nat, goal: map<string, Target>, goal': map<string, Target>,
                       gateways: map<string, string>, vpcs: map<string, string>, script: seq<Turn>)
    requires HandledUpTo(owned, n, goal, gateways, vpcs, script) && n < |owned| && Distinct(owned)
    requires Handled(owned[n], goal', gateways, vpcs, After(script, CallsForAll(owned[..n], gateways, vpcs)))
    requires goal'.Keys <= goal.Keys + {owned[n]} && forall id :: id in goal ==> id in goal' && goal'[id] == goal[id]
    ensures HandledUpTo(owned, n + 1, goal', gateways, vpcs, script)
  {
    assert owned[..n + 1] == owned[..n] + [owned[n]];
    forall j | 0 <= j <= n ensures HandledAt(owned, j, goal', gateways, vpcs, script) {
      assert j < n ==> HandledAt(owned, j, goal, gateways, vpcs, script);
    }
  }

  lemma OneMoreOwned(owned: seq<string>, n: nat, gateways: map<string, string>, vpcs: map<string, string>,
                     script: seq<Turn>)
    requires n < |owned|
    ensures After(script, CallsForAll(owned[..n + 1], gateways, vpcs)) ==
            After(After(script, CallsForAll(owned[..n], gateways, vpcs)), CallsFor(owned[n], gateways, vpcs))
  {
    assert owned[..n + 1][..n] == owned[..n];
    AfterMore(script, CallsForAll(owned[..n], gateways, vpcs), CallsFor(owned[n], gateways, vpcs));
  }

  /** The VPCs of the first `n` owned tables that need one have been asked for gateways. */
  ghost predicate LookedUpTo(owned: seq<string>, n: nat, gateways: map<string, string>, vpcs: map<string, string>,
                             before: seq<string>, after: seq<string>)
    requires n <= |owned|
  {
    after == before + VpcsOf(owned[..n], gateways, vpcs)
  }

  lemma LookedOneMore(owned: seq<string>, n: nat, gateways: map<string, string>, vpcs: map<string, string>,
                      before: seq<string>, mid: seq<string>, after: seq<string>)
    requires n < |owned| && LookedUpTo(owned, n, gateways, vpcs, before, mid)
    requires after == mid + if Unrecorded(owned[n], gateways, vpcs) then [vpcs[owned[n]]] else []
    ensures LookedUpTo(owned, n + 1, gateways, vpcs, before, after)
  {
    assert owned[..n + 1][..n] == owned[..n];
  }

  /** If every owned table has a recorded gateway, a release without error restores each to its own. */
  lemma AllRestored(owned: seq<string>, goal: map<string, Target>, gateways: map<string, string>,
                    vpcs: map<string, string>, script: seq<Turn>)
    requires HandledUpTo(owned, |owned|, goal, gateways, vpcs, script)
    requires forall id :: id in owned ==> Get(gateways, id) != ""
    ensures goal == map id | id in owned :: ToGateway(Get(gateways, id))
  {
    assert owned[..|owned|] == owned;
    forall id | id in owned ensures id in goal && goal[id] == ToGateway(Get(gateways, id)) {
      var j :| 0 <= j < |owned| && owned[j] == id;
      assert HandledAt(owned, j, goal, gateways, vpcs, script);
    }
  }

  /** A recorded gateway survives. */
  ghost predicate GatewaysKept(before: map<string, string>, after: map<string, string>) {
    forall id :: id in before ==> id in after && (before[id] != "" ==> after[id] == before[id])
  }

  predicate SameAt(id: string, before: map<string, string>, after: map<string, string>) {
    (id in after <==> id in before) && (id in before ==> after[id] == before[id])
  }

  /** A fallback gateway has to be looked up: the table shows none, the record is empty, and the VPC is known. */
  predicate NeedsLookup(t: RouteTable, gateways: map<string, string>, vpcs: map<string, string>) {
    t.natGatewayId == "" && Get(gateways, t.id) == "" && VpcOf(t, vpcs) != ""
  }

  function VpcOf(t: RouteTable, vpcs: map<string, string>): string {
    if t.vpcId != "" then t.vpcId else Get(vpcs, t.id)
  }

  /** The VPCs in which gateways are looked up for these tables, in order. */
  function LookupsFor(tables: seq<RouteTable>, gateways: map<string, string>, vpcs: map<string, string>): seq<string> {
    if tables == [] then []
    else
      var rest := LookupsFor(tables[..|tables| - 1], gateways, vpcs);
      var t := tables[|tables| - 1];
      if NeedsLookup(t, gateways, vpcs) then rest + [VpcOf(t, vpcs)] else rest
  }

  /** Which of the first `n` tables show no gateway, have none recorded, and are in a known VPC. */
  function Needing(tables: seq<RouteTable>, n: nat, gateways: map<string, string>, vpcs: map<string, string>): set<int>
    requires n <= |tables|
  {
    set j | 0 <= j < n && tables[j].natGatewayId == "" && Get(gateways, tables[j].id) == "" &&
            (tables[j].vpcId != "" || Get(vpcs, tables[j].id) != "")
  }

  lemma OneMoreIndex(before: set<int>, after: set<int>, n: int, yes: bool)
    requires n !in before && forall j :: j in after <==> j in before || (j == n && yes)
    ensures |after| == |before| + if yes then 1 else 0
  {
    var same := if yes then before + {n} else before;
    assert forall j :: j in after <==> j in same;
    assert after == same;
  }

  lemma OneMoreNeeding(tables: seq<RouteTable>, n: nat, gateways: map<string, string>, vpcs: map<string, string>)
    requires n < |tables|
    ensures |Needing(tables, n + 1, gateways, vpcs)| ==
            |Needing(tables, n, gateways, vpcs)| + if NeedsLookup(tables[n], gateways, vpcs) then 1 else 0
  {
    OneMoreIndex(Needing(tables, n, gateways, vpcs), Needing(tables, n + 1, gateways, vpcs), n,
                 NeedsLookup(tables[n], gateways, vpcs));
  }

  /** There is one lookup for each table that needs one. */
  lemma {:induction false} LookupsCount(tables: seq<RouteTable>, n: nat, gateways: map<string, string>,
                                        vpcs: map<string, string>)
    requires n <= |tables|
    ensures |LookupsFor(tables[..n], gateways, vpcs)| == |Needing(tables, n, gateways, vpcs)|
  {
    if n == 0 {
    } else {
      LookupsCount(tables, n - 1, gateways, vpcs);
      OneMoreNeeding(tables, n - 1, gateways, vpcs);
      assert tables[..n][..n - 1] == tables[..n - 1];
    }
  }

  /** What a discovered table leaves in the records: its VPC; the gateway it shows if it had no record; if one
      has to be looked up, the one that `script` holds, unless that is an error; and otherwise what was there. */
  predicate RecordedFrom(t: RouteTable, gateways: map<string, string>, gateways': map<string, string>,
                         vpcs: map<string, string>, vpcs': map<string, string>, script: seq<Turn>) {
    && (if t.vpcId != "" then t.id in vpcs' && vpcs'[t.id] == t.vpcId else SameAt(t.id, vpcs, vpcs'))
    && if t.natGatewayId != "" && t.id !in gateways then t.id in gateways' && gateways'[t.id] == t.natGatewayId
       else if NeedsLookup(t, gateways, vpcs) && Found(script).Some? then
         t.id in gateways' && gateways'[t.id] == Found(script).value
       else SameAt(t.id, gateways, gateways')
  }

  /** The records hold what the first `n` tables leave there, each lookup being answered in its turn by the
      script, and are otherwise as they were. */
  ghost predicate RecordedUpTo(tables: seq<RouteTable>, n: nat,
                               gateways: map<string, string>, gateways': map<string, string>,
                               vpcs: map<string, string>, vpcs': map<string, string>, script: seq<Turn>)
    requires n <= |tables|
  {
    && (forall j :: 0 <= j < n ==> RecordedAt(tables, j, gateways, gateways', vpcs, vpcs', script))
    && forall id :: id !in Ids(tables[..n]) ==> SameAt(id, gateways, gateways') && SameAt(id, vpcs, vpcs')
  }

  ghost predicate RecordedAt(tables: seq<RouteTable>, j: int,
                             gateways: map<string, string>, gateways': map<string, string>,
                             vpcs: map<string, string>, vpcs': map<string, string>, script: seq<Turn>)
    requires 0 <= j < |tables|
  {
    RecordedFrom(tables[j], gateways, gateways', vpcs, vpcs',
                 After(script, |LookupsFor(tables[..j], gateways, vpcs)|))
  }

  /** All of these tables are recorded, after exactly the lookups that this takes. */
  ghost predicate Remembers(tables: seq<RouteTable>, gateways: map<string, string>, gateways': map<string, string>,
                            vpcs: map<string, string>, vpcs': map<string, string>, script: seq<Turn>,
                            lookups: seq<string>, lookups': seq<string>)
  {
    && RecordedUpTo(tables, |tables|, gateways, gateways', vpcs, vpcs', script)
    && lookups' == lookups + LookupsFor(tables, gateways, vpcs)
  }

  lemma RecordedStays(t: RouteTable, g0: map<string, string>, g: map<string, string>, g': map<string, string>,
                      v0: map<string, string>, v: map<string, string>, v': map<string, string>, script: seq<Turn>)
    requires (RecordedFrom(t, g0, g, v0, v, script) && SameAt(t.id, g, g') && SameAt(t.id, v, v')) ||
             (SameAt(t.id, g0, g) && SameAt(t.id, v0, v) && RecordedFrom(t, g, g', v, v', script))
    ensures RecordedFrom(t, g0, g', v0, v', script)
  {
  }

  lemma RecordedOneMore(tables: seq<RouteTable>, n: nat,
                        g0: map<string, string>, g: map<string, string>, g': map<string, string>,
                        v0: map<string, string>, v: map<string, string>, v': map<string, string>, script: seq<Turn>)
    requires DistinctIds(tables) && n < |tables| && RecordedUpTo(tables, n, g0, g, v0, v, script)
    requires RecordedFrom(tables[n], g, g', v, v', After(script, |LookupsFor(tables[..n], g0, v0)|))
    requires forall id :: id != tables[n].id ==> SameAt(id, g, g') && SameAt(id, v, v')
    ensures RecordedUpTo(tables, n + 1, g0, g', v0, v', script)
  {
    var id := tables[n].id;
    IdsGrow(tables, n);
    assert id !in Ids(tables[..n]);
    forall j | 0 <= j <= n ensures RecordedAt(tables, j, g0, g', v0, v', script) {
      assert j < n ==> RecordedAt(tables, j, g0, g, v0, v, script) && SameAt(tables[j].id, g, g');
      RecordedStays(tables[j], g0, g, g', v0, v, v', After(script, |LookupsFor(tables[..j], g0, v0)|));
    }
    forall k | k !in Ids(tables[..n + 1]) ensures SameAt(k, g0, g') && SameAt(k, v0, v') {
      assert k !in Ids(tables[..n]) && k != id;
      SameStays(k, g0, g, g');
      SameStays(k, v0, v, v');
    }
  }

  lemma SameStays(id: string, m: map<string, string>, m': map<string, string>, m'': map<string, string>)
    requires SameAt(id, m, m') && SameAt(id, m', m'')
    ensures SameAt(id, m, m'')
  {
  }

  /** A table ends with a recorded gateway exactly if it had one, or showed one and had no record at all, or
      had one looked up and the answer named one. */
  predicate Fallback(t: RouteTable, gateways: map<string, string>, vpcs: map<string, string>, script: seq<Turn>) {
    || Get(gateways, t.id) != ""
    || (t.natGatewayId != "" && t.id !in gateways)
    || (t.natGatewayId == "" && (t.vpcId != "" || Get(vpcs, t.id) != "") &&
        Found(script).Some? && Found(script).value != "")
  }

  ghost predicate FallbackAt(tables: seq<RouteTable>, j: int, gateways: map<string, string>, vpcs: map<string, string>,
                             script: seq<Turn>)
    requires 0 <= j < |tables|
  {
    Fallback(tables[j], gateways, vpcs, After(script, |LookupsFor(tables[..j], gateways, vpcs)|))
  }

  ghost predicate AllFallback(tables: seq<RouteTable>, gateways: map<string, string>, vpcs: map<string, string>,
                              script: seq<Turn>)
  {
    forall j :: 0 <= j < |tables| ==> FallbackAt(tables, j, gateways, vpcs, script)
  }

  /** After a recording every table can fall back to a gateway exactly if each one had, showed or was found one. */
  lemma FallbackReady(tables: seq<RouteTable>, gateways: map<string, string>, gateways': map<string, string>,
                      vpcs: map<string, string>, vpcs': map<string, string>, script: seq<Turn>)
    requires RecordedUpTo(tables, |tables|, gateways, gateways', vpcs, vpcs', script)
    ensures (forall id :: id in Ids(tables) ==> Get(gateways', id) != "") <==>
            AllFallback(tables, gateways, vpcs, script)
  {
    forall j | 0 <= j < |tables|
      ensures Get(gateways', Ids(tables)[j]) != "" <==> FallbackAt(tables, j, gateways, vpcs, script)
    {
      assert RecordedAt(tables, j, gateways, gateways', vpcs, vpcs', script);
    }
    if forall id :: id in Ids(tables) ==> Get(gateways', id) != "" {
      assert forall j :: 0 <= j < |tables| ==> Ids(tables)[j] in Ids(tables);
    }
  }

  predicate ShowsGateway(t: RouteTable) {
    t.natGatewayId != "" && t.instanceId == ""
  }

  /** Gateways that are shown and not recorded yet are recorded. */
  lemma GatewaysRecorded(found: seq<RouteTable>, gateways: map<string, string>, gateways': map<string, string>,
                         vpcs: map<string, string>, vpcs': map<string, string>, script: seq<Turn>)
    requires RecordedUpTo(found, |found|, gateways, gateways', vpcs, vpcs', script)
    requires forall t :: t in found ==> ShowsGateway(t) && t.id !in gateways
    ensures forall t :: t in found ==> Get(gateways', t.id) == t.natGatewayId
    ensures forall id :: id in Ids(found) ==> Get(gateways', id) != ""
  {
    forall j | 0 <= j < |found| ensures Get(gateways', found[j].id) == found[j].natGatewayId != "" {
      assert found[j] in found && RecordedAt(found, j, gateways, gateways', vpcs, vpcs', script);
    }
  }

  /** Releasing what was claimed to the gateways that were shown gives the routes back as they were. */
  lemma BackToGateways(tables: seq<RouteTable>, az: string, me: string, gateways: map<string, string>)
    requires DistinctIds(tables)
    requires forall t :: t in InAz(tables, az) ==> ShowsGateway(t) && Get(gateways, t.id) == t.natGatewayId
    ensures var found := InAz(tables, az);
            Retarget(Retarget(tables, ClaimGoal(found, me)), map id | id in Ids(found) :: ToGateway(Get(gateways, id)))
            == tables
  {
    var found := InAz(tables, az);
    var goal := map id | id in Ids(found) :: ToGateway(Get(gateways, id));
    var claimed := Retarget(tables, ClaimGoal(found, me));
    InAzExact(tables, az);
    ClaimGoalExact(found, me);
    forall i | 0 <= i < |tables| ensures Retarget(claimed, goal)[i] == tables[i] {
      var t := tables[i];
      assert t in tables;
      if t.az == az {
        var k :| 0 <= k < |found| && found[k] == t;
        assert Ids(found)[k] == t.id;
      } else {
        NotListed(tables, az, i);
        assert t.id !in ClaimGoal(found, me) && t.id !in Ids(found);
      }
    }
  }

  /** The listing of an AZ does not name a table of another AZ. */
  lemma NotListed(tables: seq<RouteTable>, az: string, i: nat)
    requires DistinctIds(tables) && i < |tables| && tables[i].az != az
    ensures tables[i].id !in Ids(InAz(tables, az))
    ensures forall t :: t in InAz(tables, az) ==> t.id != tables[i].id
  {
    InAzExact(tables, az);
    forall t | t in InAz(tables, az) ensures t.id != tables[i].id {
      if t.id == tables[i].id { OneTablePerId(tables, i, t); }
    }
  }

  /** The operations that change the books. */
  datatype Event =
    OwnClaim | HttpClaim | HttpRelease | Drop | Cover(az: string, ids: seq<string>) | Yield(az: string) | Watch

  class Reconciler {
    const ec2: Account
    const az: string
    const instance: string
    const manual: bool
    var ownedTables: seq<string>
    var foreignOwnedTables: map<string, string>   // table -> the AZ it is covered for
    var originalNatGW: map<string, string>
    var rtbVpcID: map<string, string>

    /** Owned tables carry the own AZ's tag, covered tables the tag of the AZ they are covered for, which
        is never the own one; so no table is both. */
    ghost predicate Valid()
      reads this, ec2
    {
      && ec2.Valid() && Distinct(ownedTables)
      && (forall id :: id in ownedTables ==> id in ec2.tags && ec2.tags[id] == az)
      && (forall id :: id in foreignOwnedTables ==>
            id in ec2.tags && ec2.tags[id] == foreignOwnedTables[id] && foreignOwnedTables[id] != az)
    }

    lemma BooksAreDisjoint()
      requires Valid()
      ensures az !in foreignOwnedTables.Values
      ensures forall id :: id in ownedTables ==> id !in foreignOwnedTables
    {
    }

    constructor (ec2: Account, az: string, instance: string, manual: bool)
      requires ec2.Valid()
      ensures Valid() && ownedTables == [] && foreignOwnedTables == map[] && originalNatGW == map[] && rtbVpcID == map[]
      ensures this.ec2 == ec2 && this.az == az && this.instance == instance && this.manual == manual
    {
      this.ec2, this.az, this.instance, this.manual := ec2, az, instance, manual;
      ownedTables, foreignOwnedTables, originalNatGW, rtbVpcID := [], map[], map[], map[];
    }

    method DropOwnTables() returns (owned: seq<string>)
      requires Valid()
      modifies this`ownedTables
      ensures Valid() && ownedTables == [] && owned == old(ownedTables)
    {
      owned := ownedTables;
      ownedTables := [];
    }

    predicate OwnClaimPending()
      reads this
    {
      !manual && ownedTables == []
    }

    /** There are owned tables, and each has a recorded gateway to fall back to. */
    ghost predicate CanFallBack()
      reads this
    {
      ownedTables != [] && forall id :: id in ownedTables ==> Get(originalNatGW, id) != ""
    }

    method CanFallbackToNAT() returns (can: bool)
      ensures can <==> ownedTables != [] && forall id :: id in ownedTables ==> Get(originalNatGW, id) != ""
    {
      if |ownedTables| == 0 {
        return false;
      }
      for i := 0 to |ownedTables|
        invariant forall j :: 0 <= j < i ==> Get(originalNatGW, ownedTables[j]) != ""
      {
        if Get(originalNatGW, ownedTables[i]) == "" {
          return false;
        }
      }
      return true;
    }

    /** Records a discovered gateway for a table that has no record yet, and otherwise looks one up for each
        table whose record is empty, if its VPC is known. A gateway recorded as "" blocks later discovered ones. */
    method CacheFallbackTargets(tables: seq<RouteTable>)
      requires DistinctIds(tables)
      modifies this`originalNatGW, this`rtbVpcID, ec2`script, ec2`calls, ec2`lookups
      ensures GatewaysKept(old(originalNatGW), originalNatGW)
      ensures Remembers(tables, old(originalNatGW), originalNatGW, old(rtbVpcID), rtbVpcID, old(ec2.script),
                        old(ec2.lookups), ec2.lookups)
      ensures var asked := LookupsFor(tables, old(originalNatGW), old(rtbVpcID));
              ec2.calls == old(ec2.calls) + |asked| && ec2.script == After(old(ec2.script), |asked|)
    {
      ghost var g0, v0 := originalNatGW, rtbVpcID;
      AfterMore(ec2.script, 0, 0);
      for i := 0 to |tables|
        invariant GatewaysKept(g0, originalNatGW)
        invariant RecordedUpTo(tables, i, g0, originalNatGW, v0, rtbVpcID, old(ec2.script))
        invariant ec2.lookups == old(ec2.lookups) + LookupsFor(tables[..i], g0, v0)
        invariant ec2.calls == old(ec2.calls) + |LookupsFor(tables[..i], g0, v0)|
        invariant ec2.script == After(old(ec2.script), |LookupsFor(tables[..i], g0, v0)|)
      {
        var rt := tables[i];
        ghost var g, v := originalNatGW, rtbVpcID;
        assert tables[..i + 1][..i] == tables[..i];
        assert rt.id !in Ids(tables[..i]);
        assert SameAt(rt.id, g0, g) && SameAt(rt.id, v0, v);
        AfterMore(old(ec2.script), |LookupsFor(tables[..i], g0, v0)|, 1);
        CacheOne(rt);
        RecordedOneMore(tables, i, g0, g, originalNatGW, v0, v, rtbVpcID, old(ec2.script));
      }
      assert tables[..|tables|] == tables;
    }

    method CacheOne(rt: RouteTable)
      modifies this`originalNatGW, this`rtbVpcID, ec2`script, ec2`calls, ec2`lookups
      ensures GatewaysKept(old(originalNatGW), originalNatGW)
      ensures RecordedFrom(rt, old(originalNatGW), originalNatGW, old(rtbVpcID), rtbVpcID, old(ec2.script))
      ensures forall id :: id != rt.id ==>
                SameAt(id, old(originalNatGW), originalNatGW) && SameAt(id, old(rtbVpcID), rtbVpcID)
      ensures if NeedsLookup(rt, old(originalNatGW), old(rtbVpcID)) then
                && ec2.lookups == old(ec2.lookups) + [VpcOf(rt, old(rtbVpcID))]
                && ec2.calls == old(ec2.calls) + 1 && ec2.script == After(old(ec2.script), 1)
              else ec2.lookups == old(ec2.lookups) && ec2.calls == old(ec2.calls) && ec2.script == old(ec2.script)
    {
      if rt.vpcId != "" {
        rtbVpcID := rtbVpcID[rt.id := rt.vpcId];
      }
      if rt.natGatewayId != "" {
        if rt.id !in originalNatGW {
          originalNatGW := originalNatGW[rt.id := rt.natGatewayId];
        }
        return;
      }
      if Get(originalNatGW, rt.id) != "" || Get(rtbVpcID, rt.id) == "" {
        return;
      }
      var err, found := ec2.LookupNatGateway(rtbVpcID[rt.id], az);
      if err {
        return;
      }
      if Get(originalNatGW, rt.id) == "" {
        originalNatGW := originalNatGW[rt.id := found];
      }
    }

    ghost predicate Tagged(ids: seq<string>, az: string) {
      forall id :: id in ids ==> id in ec2.tags && ec2.tags[id] == az
    }

    /** Registers tables claimed on behalf of an AZ. It takes what it is given: the books stay consistent if
        the AZ is not the own one and the tables carry its tag. */
    method AddForeignTables(deadAZ: string, rtbIDs: seq<string>)
      modifies this`foreignOwnedTables
      ensures old(Valid()) && deadAZ != az && Tagged(rtbIDs, deadAZ) ==> Valid()
      ensures foreignOwnedTables == old(foreignOwnedTables) + map id | id in rtbIDs :: deadAZ
    {
      for i := 0 to |rtbIDs|
        invariant foreignOwnedTables == old(foreignOwnedTables) + map id | id in rtbIDs[..i] :: deadAZ
      {
        foreignOwnedTables := foreignOwnedTables[rtbIDs[i] := deadAZ];
        assert rtbIDs[..i + 1] == rtbIDs[..i] + [rtbIDs[i]];
      }
      assert rtbIDs[..|rtbIDs|] == rtbIDs;
    }

    method ForeignAZs() returns (azs: seq<string>)
      ensures Distinct(azs) && forall a :: a in azs <==> a in foreignOwnedTables.Values
    {
      var todo := foreignOwnedTables.Values;
      azs := [];
      while todo != {}
        invariant todo <= foreignOwnedTables.Values && Distinct(azs)
        invariant forall a :: a in azs <==> a in foreignOwnedTables.Values - todo
        decreases todo
      {
        var a :| a in todo;
        assert forall i :: 0 <= i < |azs| ==> azs[i] in azs && azs[i] != a;
        azs := azs + [a];
        todo := todo - {a};
      }
    }

    method CoversAZ(other: string) returns (covers: bool)
      ensures covers <==> other in foreignOwnedTables.Values
    {
      var todo := foreignOwnedTables.Keys;
      while todo != {}
        invariant todo <= foreignOwnedTables.Keys
        invariant forall id :: id in foreignOwnedTables && id !in todo ==> foreignOwnedTables[id] != other
        decreases todo
      {
        var id :| id in todo;
        if foreignOwnedTables[id] == other {
          return true;
        }
        todo := todo - {id};
      }
      return false;
    }

    /** Forgets exactly the tables covered for `other`. */
    method ReleaseForeignAZ(other: string) returns (released: seq<string>)
      requires Valid()
      modifies this`foreignOwnedTables
      ensures Valid()
      ensures foreignOwnedTables == map id | id in old(foreignOwnedTables) && old(foreignOwnedTables)[id] != other ::
                old(foreignOwnedTables)[id]
      ensures forall id :: id in released <==> id in old(foreignOwnedTables) && old(foreignOwnedTables)[id] == other
    {
      var todo := foreignOwnedTables.Keys;
      released := [];
      while todo != {}
        invariant todo <= old(foreignOwnedTables).Keys
        invariant foreignOwnedTables == map id | id in old(foreignOwnedTables) &&
                  (id in todo || old(foreignOwnedTables)[id] != other) :: old(foreignOwnedTables)[id]
        invariant forall id :: id in released <==>
                  id in old(foreignOwnedTables) && id !in todo && old(foreignOwnedTables)[id] == other
        decreases todo
      {
        var id :| id in todo;
        if foreignOwnedTables[id] == other {
          released := released + [id];
          foreignOwnedTables := foreignOwnedTables - {id};
        }
        todo := todo - {id};
      }
    }

    /** Drops exactly the tracked tables that a successful discovery of a covered AZ shows pointing at
        somebody else; without EC2 errors every covered AZ is discovered. */
    method ReconcileForeign() returns (vacated: seq<string>, ghost seen: set<string>)
      requires Valid()
      modifies this`foreignOwnedTables, ec2`script, ec2`calls
      ensures Valid() && seen <= old(foreignOwnedTables).Values
      ensures ec2.calls == old(ec2.calls) + |old(foreignOwnedTables).Values|
      ensures old(ec2.script) == [] ==> seen == old(foreignOwnedTables).Values && ec2.script == []
      ensures foreignOwnedTables == map id | id in old(foreignOwnedTables) &&
                !Reclaimed(ec2.tables, seen, instance, id) :: old(foreignOwnedTables)[id]
      ensures forall id :: id in vacated <==> id in old(foreignOwnedTables) && Reclaimed(ec2.tables, seen, instance, id)
      ensures forall t :: t in ec2.tables && t.az in seen && t.id in foreignOwnedTables ==> t.instanceId == instance
      ensures forall id :: id in vacated ==> exists t :: t in ec2.tables && t.id == id && t.instanceId != instance
    {
      var foreign := foreignOwnedTables;
      vacated, seen := [], {};
      if foreign == map[] {
        return;
      }
      var todo := foreign.Values;
      while todo != {}
        invariant Visited(foreign.Values, todo, seen, old(ec2.script) == [])
        invariant old(ec2.script) == [] ==> ec2.script == []
        invariant ec2.calls + |todo| == old(ec2.calls) + |foreign.Values|
        invariant Left(foreign, ec2.tables, seen, foreignOwnedTables) && Gone(foreign, ec2.tables, seen, vacated)
        decreases todo
      {
        var other :| other in todo;
        OneMoreVisited(foreign.Values, todo, seen, old(ec2.script) == [], other);
        todo := todo - {other};
        var err, gone := WatchOne(foreign, other, seen, vacated);
        if err {
          continue;
        }
        vacated := vacated + gone;
        seen := seen + {other};
      }
    }

    /** The AZs `seen` were discovered; they are all that were visited if nothing fails. */
    ghost predicate Visited(azs: set<string>, todo: set<string>, seen: set<string>, whole: bool) {
      todo <= azs && seen <= azs - todo && (whole ==> seen == azs - todo)
    }

    lemma OneMoreVisited(azs: set<string>, todo: set<string>, seen: set<string>, whole: bool, other: string)
      requires Visited(azs, todo, seen, whole) && other in todo
      ensures Visited(azs, todo - {other}, seen + {other}, whole)
      ensures !whole ==> Visited(azs, todo - {other}, seen, whole)
    {
    }

    ghost predicate Gone(foreign: map<string, string>, tables: seq<RouteTable>, seen: set<string>, gone: seq<string>) {
      forall id :: id in gone <==> id in foreign && Reclaimed(tables, seen, instance, id)
    }

    /** Of the tracked tables, those remain that these discoveries do not show pointing at somebody else. */
    ghost predicate Left(foreign: map<string, string>, tables: seq<RouteTable>, seen: set<string>,
                         now: map<string, string>)
    {
      now == map id | id in foreign && !Reclaimed(tables, seen, instance, id) :: foreign[id]
    }

    /** The discovery of one covered AZ, after those of the AZs `seen`. */
    method WatchOne(foreign: map<string, string>, other: string, ghost seen: set<string>, ghost vacated: seq<string>)
        returns (err: bool, gone: seq<string>)
      requires Left(foreign, ec2.tables, seen, foreignOwnedTables) && Gone(foreign, ec2.tables, seen, vacated)
      modifies this`foreignOwnedTables, ec2`script, ec2`calls
      ensures ec2.calls == old(ec2.calls) + 1
      ensures err == (Upcoming(old(ec2.script)).fault != Calm) && ec2.script == After(old(ec2.script), 1)
      ensures Left(foreign, ec2.tables, if err then seen else seen + {other}, foreignOwnedTables)
      ensures !err ==> Gone(foreign, ec2.tables, seen + {other}, vacated + gone)
    {
      var failed, tables := ec2.DiscoverRouteTables(other);
      if failed {
        return true, [];
      }
      gone := Vacate(foreign, tables);
      ReclaimedWith(ec2.tables, seen, other);
      return false, gone;
    }

    /** The inner loop: drops the tracked tables that `found` shows pointing at somebody else. */
    method Vacate(foreign: map<string, string>, found: seq<RouteTable>) returns (gone: seq<string>)
      modifies this`foreignOwnedTables
      ensures foreignOwnedTables == map id | id in old(foreignOwnedTables) &&
                !(id in foreign && Elsewhere(found, id)) :: old(foreignOwnedTables)[id]
      ensures forall id :: id in gone <==> id in foreign && Elsewhere(found, id)
    {
      gone := [];
      for i := 0 to |found|
        invariant foreignOwnedTables == map id | id in old(foreignOwnedTables) &&
                  !(id in foreign && Elsewhere(found[..i], id)) :: old(foreignOwnedTables)[id]
        invariant forall id :: id in gone <==> id in foreign && Elsewhere(found[..i], id)
      {
        var t := found[i];
        forall id
          ensures Elsewhere(found[..i + 1], id) <==>
                    Elsewhere(found[..i], id) || (t.id == id && t.instanceId != instance)
        {
          assert found[..i + 1] == found[..i] + [t];
          assert forall u :: u in found[..i + 1] <==> u in found[..i] || u == t;
        }
        if t.id !in foreign {
          continue;
        }
        if t.instanceId != instance {
          gone := gone + [t.id];
          foreignOwnedTables := foreignOwnedTables - {t.id};
        }
      }
      assert found[..|found|] == found;
    }

    lemma ReclaimedWith(tables: seq<RouteTable>, seen: set<string>, other: string)
      ensures forall id :: Reclaimed(tables, seen + {other}, instance, id) <==>
                             Reclaimed(tables, seen, instance, id) || Elsewhere(InAz(tables, other), id)
    {
      InAzExact(tables, other);
      forall id | Elsewhere(InAz(tables, other), id) ensures Reclaimed(tables, seen + {other}, instance, id) {
        var t :| t in InAz(tables, other) && t.id == id && t.instanceId != instance;
        assert t in tables;
      }
    }

    ghost predicate Elsewhere(found: seq<RouteTable>, id: string) {
      exists t :: t in found && t.id == id && t.instanceId != instance
    }

    /** Every table is as before, or was one of this AZ's and now points at this instance. */
    ghost predicate OnlyOwnClaims(before: seq<RouteTable>, after: seq<RouteTable>) {
      |after| == |before| && forall i :: 0 <= i < |before| ==>
        after[i] == before[i] || (before[i].az == az && after[i] == Routed(before[i], ToInstance(instance)))
    }

    lemma PartialClaim(tables: seq<RouteTable>, n: nat)
      requires DistinctIds(tables) && n <= |InAz(tables, az)|
      ensures OnlyOwnClaims(tables, Retarget(tables, ClaimGoal(InAz(tables, az)[..n], instance)))
    {
      var found := InAz(tables, az);
      InAzExact(tables, az);
      ClaimGoalExact(found[..n], instance);
      forall i | 0 <= i < |tables| && tables[i].id in ClaimGoal(found[..n], instance) ensures tables[i].az == az {
        var t :| t in found[..n] && t.id == tables[i].id && t.instanceId != instance;
        assert t in found;
        OneTablePerId(tables, i, t);
      }
    }

    /** How far a claim loop came: it asked for the claims of the first tables, in order, up to the last one or
        to the first that failed, and fails with it. */
    ghost predicate AskedSome(found: seq<RouteTable>, script: seq<Turn>, before: seq<Write>, after: seq<Write>,
                              err: bool)
    {
      exists n :: 0 <= n <= |found| && AskedFirst(found, n, script, before, after, err) && (err || n == |found|)
    }

    ghost predicate AskedFirst(found: seq<RouteTable>, n: int, script: seq<Turn>, before: seq<Write>,
                               after: seq<Write>, err: bool)
      requires 0 <= n <= |found|
    {
      var claims := ClaimWrites(found[..n], instance);
      after == before + claims && WentAs(script, |claims|, err)
    }

    /** What a claim of the own AZ asks for: nothing in manual mode or if the discovery fails. */
    ghost predicate OwnAsked(tables: seq<RouteTable>, script: seq<Turn>, before: seq<Write>, after: seq<Write>,
                             err: bool)
    {
      if Upcoming(script).fault != Calm then err && after == before
      else if manual then !err && after == before
      else AskedSome(InAz(tables, az), After(script, 1), before, after, err)
    }

    /** The EC2 calls between the discovery and the recording of fallback targets. */
    function ClaimCalls(found: seq<RouteTable>): nat {
      if manual then 0 else |ClaimWrites(found, instance)|
    }

    /** What a claim of the own AZ that found these tables leaves if it succeeds, `script` being what EC2 answers
        after the discovery: the fallback targets are recorded; in auto mode every table points here and is owned,
        and they can fall back to NAT gateways exactly if each one had, showed or was found one. */
    ghost predicate ClaimDone(found: seq<RouteTable>, tables: seq<RouteTable>, gateways: map<string, string>,
                              vpcs: map<string, string>, script: seq<Turn>, lookups: seq<string>)
      reads this, ec2
    {
      && Remembers(found, gateways, originalNatGW, vpcs, rtbVpcID, After(script, ClaimCalls(found)),
                   lookups, ec2.lookups)
      && (!manual && found != [] ==>
            && ownedTables == Ids(found) && ec2.tables == Retarget(tables, ClaimGoal(found, instance))
            && (CanFallBack() <==> AllFallback(found, gateways, vpcs, After(script, ClaimCalls(found)))))
    }

    /** Points the AZ's tables at this instance in auto mode; in manual mode it only logs. Either way it records
        the fallback targets; it fails exactly when the discovery or a claim fails. */
    method ClaimOwnRouteTables() returns (err: bool)
      requires Valid()
      modifies this`ownedTables, this`originalNatGW, this`rtbVpcID, ec2
      ensures Valid() && GatewaysKept(old(originalNatGW), originalNatGW)
      ensures err || manual || InAz(old(ec2.tables), az) == [] ==> ownedTables == old(ownedTables)
      ensures manual || (!err && InAz(old(ec2.tables), az) == []) ==>
                ec2.tables == old(ec2.tables) && ec2.writes == old(ec2.writes)
      ensures OwnAsked(old(ec2.tables), old(ec2.script), old(ec2.writes), ec2.writes, err)
      ensures !err ==> ClaimDone(InAz(old(ec2.tables), az), old(ec2.tables), old(originalNatGW), old(rtbVpcID),
                                 After(old(ec2.script), 1), old(ec2.lookups))
      ensures err ==> originalNatGW == old(originalNatGW) && rtbVpcID == old(rtbVpcID) &&
                      ec2.lookups == old(ec2.lookups)
      ensures OnlyOwnClaims(old(ec2.tables), ec2.tables)
      ensures old(ec2.script) == [] ==> !err && ec2.script == []
    {
      var failed, tables := ec2.DiscoverRouteTables(az);
      if failed {
        return true;
      }
      if |tables| == 0 {
        assert AskedFirst(tables, 0, ec2.script, old(ec2.writes), ec2.writes, false);
        return false;
      }
      err := ClaimDiscovered(tables);
    }

    /** The same once the tables are discovered. */
    method ClaimDiscovered(tables: seq<RouteTable>) returns (err: bool)
      requires Valid() && tables == InAz(ec2.tables, az)
      modifies this`ownedTables, this`originalNatGW, this`rtbVpcID, ec2
      ensures Valid() && GatewaysKept(old(originalNatGW), originalNatGW)
      ensures err || manual ==> ownedTables == old(ownedTables)
      ensures manual ==> ec2.tables == old(ec2.tables) && ec2.writes == old(ec2.writes)
      ensures if manual then !err else AskedSome(tables, old(ec2.script), old(ec2.writes), ec2.writes, err)
      ensures !err ==> ClaimDone(tables, old(ec2.tables), old(originalNatGW), old(rtbVpcID), old(ec2.script),
                                 old(ec2.lookups))
      ensures err ==> originalNatGW == old(originalNatGW) && rtbVpcID == old(rtbVpcID) &&
                      ec2.lookups == old(ec2.lookups)
      ensures OnlyOwnClaims(old(ec2.tables), ec2.tables)
      ensures old(ec2.script) == [] ==> !err && ec2.script == []
    {
      if manual {
        InAzDistinct(ec2.tables, az);
        AfterMore(ec2.script, 0, 0);
        Confirm(tables, []);
        return false;
      }
      err := ClaimInAuto(tables);
    }

    method ClaimInAuto(tables: seq<RouteTable>) returns (err: bool)
      requires Valid() && tables == InAz(ec2.tables, az) && !manual
      modifies this`ownedTables, this`originalNatGW, this`rtbVpcID, ec2
      ensures Valid() && GatewaysKept(old(originalNatGW), originalNatGW)
      ensures AskedSome(tables, old(ec2.script), old(ec2.writes), ec2.writes, err)
      ensures !err ==> ClaimDone(tables, old(ec2.tables), old(originalNatGW), old(rtbVpcID), old(ec2.script),
                                 old(ec2.lookups))
      ensures err ==> originalNatGW == old(originalNatGW) && rtbVpcID == old(rtbVpcID) &&
                      ec2.lookups == old(ec2.lookups) && ownedTables == old(ownedTables)
      ensures OnlyOwnClaims(old(ec2.tables), ec2.tables)
      ensures old(ec2.script) == [] ==> !err && ec2.script == []
    {
      InAzDistinct(ec2.tables, az);
      DiscoveredAreTagged(ec2.tables, az);
      var confirmed;
      err, confirmed := ClaimFound(tables);
      if err {
        return;
      }
      ghost var g, v, script := originalNatGW, rtbVpcID, ec2.script;
      Confirm(tables, confirmed);
      FallbackReady(tables, g, originalNatGW, v, rtbVpcID, script);
    }

    /** Records the fallback targets and, in auto mode, what has been claimed. */
    method Confirm(tables: seq<RouteTable>, confirmed: seq<string>)
      requires Valid() && DistinctIds(tables)
      requires !manual ==> Distinct(confirmed) && Tagged(confirmed, az)
      modifies this`ownedTables, this`originalNatGW, this`rtbVpcID, ec2`script, ec2`calls, ec2`lookups
      ensures Valid() && GatewaysKept(old(originalNatGW), originalNatGW)
      ensures ownedTables == if manual then old(ownedTables) else confirmed
      ensures Remembers(tables, old(originalNatGW), originalNatGW, old(rtbVpcID), rtbVpcID, old(ec2.script),
                        old(ec2.lookups), ec2.lookups)
      ensures ec2.script == After(old(ec2.script), |LookupsFor(tables, old(originalNatGW), old(rtbVpcID))|)
    {
      CacheFallbackTargets(tables);
      if !manual {
        ownedTables := confirmed;
      }
    }

    /** The claim loop in auto mode. In manual mode the loop only logs. */
    method ClaimFound(tables: seq<RouteTable>) returns (err: bool, confirmed: seq<string>)
      requires ec2.Valid() && tables == InAz(ec2.tables, az)
      modifies ec2`tables, ec2`script, ec2`calls, ec2`writes
      ensures ec2.Valid()
      ensures !err ==> && confirmed == Ids(tables)
                       && ec2.tables == Retarget(old(ec2.tables), ClaimGoal(tables, instance))
                       && ec2.writes == old(ec2.writes) + ClaimWrites(tables, instance)
                       && ec2.script == After(old(ec2.script), |ClaimWrites(tables, instance)|)
      ensures AskedSome(tables, old(ec2.script), old(ec2.writes), ec2.writes, err)
      ensures OnlyOwnClaims(old(ec2.tables), ec2.tables)
      ensures old(ec2.script) == [] ==> !err && ec2.script == []
    {
      ghost var n;
      err, confirmed, n := ClaimEach(tables);
      assert AskedFirst(tables, n, old(ec2.script), old(ec2.writes), ec2.writes, err);
      if old(ec2.script) == [] { NothingFails(|ClaimWrites(tables[..n], instance)|, err); }
    }

    /** The same, and how far it comes: `n` tables are done with, the last one of them unsuccessfully if there
        is an error. */
    method ClaimEach(tables: seq<RouteTable>) returns (err: bool, confirmed: seq<string>, ghost n: nat)
      requires ec2.Valid() && tables == InAz(ec2.tables, az)
      modifies ec2`tables, ec2`script, ec2`calls, ec2`writes
      ensures ec2.Valid()
      ensures ClaimedUpTo(old(ec2.tables), tables, instance, ec2.tables, err, n)
      ensures AskedFirst(tables, n, old(ec2.script), old(ec2.writes), ec2.writes, err)
      ensures !err ==> && confirmed == Ids(tables) && tables[..n] == tables
                       && ec2.tables == Retarget(old(ec2.tables), ClaimGoal(tables, instance))
                       && ec2.writes == old(ec2.writes) + ClaimWrites(tables, instance)
      ensures OnlyOwnClaims(old(ec2.tables), ec2.tables)
      ensures ec2.script == After(old(ec2.script), |ClaimWrites(tables[..n], instance)|)
    {
      ghost var was := ec2.tables;
      confirmed := [];
      AfterMore(ec2.script, 0, 0);
      for i := 0 to |tables|
        invariant ec2.Valid() && confirmed == Ids(tables[..i])
        invariant ec2.tables == Retarget(was, ClaimGoal(tables[..i], instance))
        invariant AskedFirst(tables, i, old(ec2.script), old(ec2.writes), ec2.writes, false)
        invariant ec2.script == After(old(ec2.script), |ClaimWrites(tables[..i], instance)|)
        invariant OnlyOwnClaims(was, ec2.tables)
      {
        err := ClaimNext(tables, i, was, old(ec2.script), old(ec2.writes));
        if err {
          return true, confirmed, i + 1;
        }
        IdsGrow(tables, i);
        confirmed := confirmed + [tables[i].id];
      }
      assert tables[..|tables|] == tables;
      return false, confirmed, |tables|;
    }

    /** One turn of that loop, after the first `i` tables. */
    method ClaimNext(tables: seq<RouteTable>, i: nat, ghost was: seq<RouteTable>, ghost script: seq<Turn>,
                     ghost writes: seq<Write>) returns (err: bool)
      requires ec2.Valid() && i < |tables| && ec2.tables == Retarget(was, ClaimGoal(tables[..i], instance))
      requires DistinctIds(was) && tables == InAz(was, az)
      requires AskedFirst(tables, i, script, writes, ec2.writes, false)
      requires ec2.script == After(script, |ClaimWrites(tables[..i], instance)|)
      modifies ec2`tables, ec2`script, ec2`calls, ec2`writes
      ensures ec2.Valid() && OnlyOwnClaims(was, ec2.tables) && (err ==> tables[i].instanceId != instance)
      ensures ec2.tables == Retarget(was, ClaimGoal(tables[..i + 1], instance)) ||
              (err && ec2.tables == old(ec2.tables))
      ensures AskedFirst(tables, i + 1, script, writes, ec2.writes, err)
      ensures ec2.script == After(script, |ClaimWrites(tables[..i + 1], instance)|)
    {
      PartialClaim(was, i);
      PartialClaim(was, i + 1);
      OneMoreClaimed(was, tables, i);
      if tables[i].instanceId == instance {
        return false;
      }
      ghost var asked := ec2.writes;
      err := ec2.Upsert(tables[i].id, ToInstance(instance));
      OneMoreAsked(tables, i, script, writes, asked, err);
    }

    lemma OneMoreClaimed(was: seq<RouteTable>, found: seq<RouteTable>, i: nat)
      requires i < |found|
      ensures found[i].instanceId == instance ==>
                ClaimGoal(found[..i + 1], instance) == ClaimGoal(found[..i], instance) &&
                ClaimWrites(found[..i + 1], instance) == ClaimWrites(found[..i], instance)
      ensures found[i].instanceId != instance ==>
                Retarget(Retarget(was, ClaimGoal(found[..i], instance)), map[found[i].id := ToInstance(instance)]) ==
                Retarget(was, ClaimGoal(found[..i + 1], instance))
    {
      assert found[..i + 1][..i] == found[..i];
      RetargetTwice(was, ClaimGoal(found[..i], instance), found[i].id, ToInstance(instance));
    }

    lemma OneMoreAsked(found: seq<RouteTable>, i: nat, script: seq<Turn>, before: seq<Write>, asked: seq<Write>,
                       err: bool)
      requires i < |found| && found[i].instanceId != instance
      requires AskedFirst(found, i, script, before, asked, false)
      requires err == (Upcoming(After(script, |ClaimWrites(found[..i], instance)|)).fault != Calm)
      ensures AskedFirst(found, i + 1, script, before, asked + [Write(found[i].id, ToInstance(instance))], err)
      ensures After(After(script, |ClaimWrites(found[..i], instance)|), 1) ==
              After(script, |ClaimWrites(found[..i + 1], instance)|)
    {
      var claims := ClaimWrites(found[..i], instance);
      assert found[..i + 1][..i] == found[..i];
      AfterMore(script, |claims|, 1);
      OneMoreWent(script, |claims|, err);
    }

    /** The discovered tables of an AZ are distinct and carry its tag. */
    lemma DiscoveredAreTagged(tables: seq<RouteTable>, other: string)
      requires DistinctIds(tables) && forall t :: t in tables ==> t.id in ec2.tags && ec2.tags[t.id] == t.az
      ensures Distinct(Ids(InAz(tables, other))) && Tagged(Ids(InAz(tables, other)), other)
    {
      var found := InAz(tables, other);
      InAzExact(tables, other);
      InAzDistinct(tables, other);
      forall id | id in Ids(found) ensures id in ec2.tags && ec2.tags[id] == other {
        var i :| 0 <= i < |found| && Ids(found)[i] == id;
        assert found[i] in found;
      }
    }

    function ForceGoal(found: seq<RouteTable>): map<string, Target> {
      map id | id in Ids(found) :: ToInstance(instance)
    }

    function ForceWrites(found: seq<RouteTable>): seq<Write> {
      seq(|found|, i requires 0 <= i < |found| => Write(found[i].id, ToInstance(instance)))
    }

    /** The same for the loop that claims every table. */
    ghost predicate ForcedSome(found: seq<RouteTable>, script: seq<Turn>, before: seq<Write>, after: seq<Write>,
                               err: bool)
    {
      exists n :: 0 <= n <= |found| && ForcedFirst(found, n, script, before, after, err) && (err || n == |found|)
    }

    ghost predicate ForcedFirst(found: seq<RouteTable>, n: int, script: seq<Turn>, before: seq<Write>,
                                after: seq<Write>, err: bool)
      requires 0 <= n <= |found|
    {
      after == before + ForceWrites(found[..n]) && WentAs(script, n, err)
    }

    /** The same for a claim of every table, whatever it pointed at and whatever the mode. */
    ghost predicate ForceDone(found: seq<RouteTable>, tables: seq<RouteTable>, gateways: map<string, string>,
                              vpcs: map<string, string>, script: seq<Turn>, lookups: seq<string>)
      reads this, ec2
    {
      && found != [] && ownedTables == Ids(found) && ec2.tables == Retarget(tables, ForceGoal(found))
      && Remembers(found, gateways, originalNatGW, vpcs, rtbVpcID, After(script, |found|), lookups, ec2.lookups)
      && (CanFallBack() <==> AllFallback(found, gateways, vpcs, After(script, |found|)))
    }

    /** The manual claim endpoint: claims every table of the AZ, whatever the mode, and records the fallback
        targets. It fails when the discovery or a claim does, or when there is nothing to claim. */
    method ClaimRouteTables() returns (err: bool)
      requires Valid()
      modifies this`ownedTables, this`originalNatGW, this`rtbVpcID, ec2
      ensures Valid() && GatewaysKept(old(originalNatGW), originalNatGW)
      ensures err ==> ownedTables == old(ownedTables)
      ensures OnlyOwnClaims(old(ec2.tables), ec2.tables)
      ensures if Upcoming(old(ec2.script)).fault != Calm || InAz(old(ec2.tables), az) == [] then
                err && ec2.writes == old(ec2.writes)
              else ForcedSome(InAz(old(ec2.tables), az), After(old(ec2.script), 1), old(ec2.writes), ec2.writes, err)
      ensures !err ==> ForceDone(InAz(old(ec2.tables), az), old(ec2.tables), old(originalNatGW), old(rtbVpcID),
                                 After(old(ec2.script), 1), old(ec2.lookups))
      ensures err ==> originalNatGW == old(originalNatGW) && rtbVpcID == old(rtbVpcID) &&
                      ec2.lookups == old(ec2.lookups)
    {
      var failed, tables := ec2.DiscoverRouteTables(az);
      if failed || |tables| == 0 {
        return true;
      }
      err := ForceDiscovered(tables);
    }

    /** The same once the tables are discovered. */
    method ForceDiscovered(tables: seq<RouteTable>) returns (err: bool)
      requires Valid() && tables == InAz(ec2.tables, az) && tables != []
      modifies this`ownedTables, this`originalNatGW, this`rtbVpcID, ec2
      ensures Valid() && GatewaysKept(old(originalNatGW), originalNatGW)
      ensures err ==> ownedTables == old(ownedTables)
      ensures OnlyOwnClaims(old(ec2.tables), ec2.tables)
      ensures ForcedSome(tables, old(ec2.script), old(ec2.writes), ec2.writes, err)
      ensures !err ==> ForceDone(tables, old(ec2.tables), old(originalNatGW), old(rtbVpcID), old(ec2.script),
                                 old(ec2.lookups))
      ensures err ==> originalNatGW == old(originalNatGW) && rtbVpcID == old(rtbVpcID) &&
                      ec2.lookups == old(ec2.lookups)
    {
      InAzDistinct(ec2.tables, az);
      DiscoveredAreTagged(ec2.tables, az);
      var owned;
      ghost var n;
      err, owned, n := ForceEach(tables);
      assert ForcedFirst(tables, n, old(ec2.script), old(ec2.writes), ec2.writes, err);
      if err {
        return;
      }
      ghost var g, v, script := originalNatGW, rtbVpcID, ec2.script;
      ownedTables := owned;
      CacheFallbackTargets(tables);
      FallbackReady(tables, g, originalNatGW, v, rtbVpcID, script);
    }

    lemma OnlyForced(tables: seq<RouteTable>, n: nat)
      requires DistinctIds(tables) && n <= |InAz(tables, az)|
      ensures OnlyOwnClaims(tables, Retarget(tables, ForceGoal(InAz(tables, az)[..n])))
    {
      var found := InAz(tables, az);
      InAzExact(tables, az);
      forall i | 0 <= i < |tables| && tables[i].id in ForceGoal(found[..n]) ensures tables[i].az == az {
        var k :| 0 <= k < n && Ids(found[..n])[k] == tables[i].id;
        assert found[k] in found;
        OneTablePerId(tables, i, found[k]);
      }
    }

    /** Its claim loop, which skips no table; it asks for the first `n` claims, the last of them
        unsuccessfully if there is an error. */
    method ForceEach(tables: seq<RouteTable>) returns (err: bool, owned: seq<string>, ghost n: nat)
      requires ec2.Valid() && tables == InAz(ec2.tables, az)
      modifies ec2`tables, ec2`script, ec2`calls, ec2`writes
      ensures ec2.Valid() && n <= |tables|
      ensures !err ==> && owned == Ids(tables) && n == |tables| && tables[..n] == tables
                       && ec2.tables == Retarget(old(ec2.tables), ForceGoal(tables))
      ensures ForcedFirst(tables, n, old(ec2.script), old(ec2.writes), ec2.writes, err)
      ensures ec2.script == After(old(ec2.script), n)
      ensures OnlyOwnClaims(old(ec2.tables), ec2.tables)
    {
      ghost var was := ec2.tables;
      assert ForceGoal(tables[..0]) == map[];
      RetargetNone(was);
      AfterMore(ec2.script, 0, 0);
      owned := [];
      for i := 0 to |tables|
        invariant ec2.Valid() && owned == Ids(tables[..i]) && ec2.tables == Retarget(was, ForceGoal(tables[..i]))
        invariant ForcedFirst(tables, i, old(ec2.script), old(ec2.writes), ec2.writes, false)
        invariant ec2.script == After(old(ec2.script), i) && OnlyOwnClaims(was, ec2.tables)
      {
        err := ForceNext(tables, i, was, old(ec2.script), old(ec2.writes));
        n := i + 1;
        if err {
          return;
        }
        IdsGrow(tables, i);
        owned := owned + [tables[i].id];
      }
      assert tables[..|tables|] == tables;
      return false, owned, |tables|;
    }

    /** One claim of that loop, after `i` others. */
    method ForceNext(tables: seq<RouteTable>, i: nat, ghost was: seq<RouteTable>, ghost script: seq<Turn>,
                     ghost writes: seq<Write>) returns (err: bool)
      requires ec2.Valid() && i < |tables| && ec2.tables == Retarget(was, ForceGoal(tables[..i]))
      requires DistinctIds(was) && tables == InAz(was, az)
      requires ForcedFirst(tables, i, script, writes, ec2.writes, false) && ec2.script == After(script, i)
      modifies ec2`tables, ec2`script, ec2`calls, ec2`writes
      ensures ec2.Valid()
      ensures ec2.tables == Retarget(was, ForceGoal(tables[..i + 1])) || (err && ec2.tables == old(ec2.tables))
      ensures ForcedFirst(tables, i + 1, script, writes, ec2.writes, err) && ec2.script == After(script, i + 1)
      ensures OnlyOwnClaims(was, ec2.tables)
    {
      OnlyForced(was, i);
      OnlyForced(was, i + 1);
      OneMoreForced(was, tables, i);
      ghost var asked := ec2.writes;
      err := ec2.Upsert(tables[i].id, ToInstance(instance));
      OneMoreForcedAsked(tables, i, script, writes, asked, err);
    }

    lemma OneMoreForced(was: seq<RouteTable>, found: seq<RouteTable>, i: nat)
      requires i < |found|
      ensures Retarget(Retarget(was, ForceGoal(found[..i])), map[found[i].id := ToInstance(instance)]) ==
              Retarget(was, ForceGoal(found[..i + 1]))
    {
      IdsGrow(found, i);
      assert ForceGoal(found[..i + 1]) == ForceGoal(found[..i])[found[i].id := ToInstance(instance)];
      RetargetTwice(was, ForceGoal(found[..i]), found[i].id, ToInstance(instance));
    }

    lemma OneMoreForcedAsked(found: seq<RouteTable>, i: nat, script: seq<Turn>, before: seq<Write>, asked: seq<Write>,
                             err: bool)
      requires i < |found| && ForcedFirst(found, i, script, before, asked, false)
      requires err == (Upcoming(After(script, i)).fault != Calm)
      ensures ForcedFirst(found, i + 1, script, before, asked + [Write(found[i].id, ToInstance(instance))], err)
      ensures After(After(script, i), 1) == After(script, i + 1)
    {
      assert ForceWrites(found[..i + 1]) == ForceWrites(found[..i]) + [Write(found[i].id, ToInstance(instance))];
      AfterMore(script, i, 1);
      OneMoreWent(script, i, err);
    }

    /** Hands the owned tables back to NAT gateways, in order, and gives ownership up only if every step
        succeeded; an error leaves ownership as it was, with only the first `done` tables handled. */
    method ReleaseRouteTables() returns (err: bool, ghost goal: map<string, Target>, ghost done: nat)
      requires Valid()
      modifies this`ownedTables, ec2
      ensures Valid() && ownedTables == if err then old(ownedTables) else []
      ensures err <==> !AllSucceed(old(ownedTables), |old(ownedTables)|, originalNatGW, rtbVpcID, old(ec2.script))
      ensures HandledUpTo(old(ownedTables), done, goal, originalNatGW, rtbVpcID, old(ec2.script)) &&
                (!err ==> done == |old(ownedTables)|)
      ensures ec2.tables == Retarget(old(ec2.tables), goal)
      ensures !err && (forall id :: id in old(ownedTables) ==> Get(originalNatGW, id) != "") ==>
                goal == map id | id in old(ownedTables) :: ToGateway(Get(originalNatGW, id))
      ensures !err ==> ec2.lookups == old(ec2.lookups) + VpcsOf(old(ownedTables), originalNatGW, rtbVpcID)
      ensures (forall id :: id in old(ownedTables) ==> Get(originalNatGW, id) != "") ==> ec2.lookups == old(ec2.lookups)
    {
      var owned := ownedTables;
      var natGWs := originalNatGW;
      var vpcIDs := rtbVpcID;
      if |owned| == 0 {
        assert ec2.tables == Retarget(ec2.tables, map[]);
        ownedTables := [];
        return false, map[], 0;
      }
      err, goal, done := ReleaseEach(owned, natGWs, vpcIDs);
      if err {
        return;
      }
      if forall id :: id in owned ==> Get(originalNatGW, id) != "" {
        AllRestored(owned, goal, natGWs, vpcIDs, old(ec2.script));
      }
      ownedTables := [];
    }

    method ReleaseEach(owned: seq<string>, natGWs: map<string, string>, vpcIDs: map<string, string>)
      returns (err: bool, ghost goal: map<string, Target>, ghost done: nat)
      requires ec2.Valid() && Distinct(owned)
      modifies ec2`tables, ec2`writes, ec2`script, ec2`calls, ec2`lookups
      ensures ec2.Valid() && ec2.tables == Retarget(old(ec2.tables), goal)
      ensures err <==> !AllSucceed(owned, |owned|, natGWs, vpcIDs, old(ec2.script))
      ensures HandledUpTo(owned, done, goal, natGWs, vpcIDs, old(ec2.script)) && (!err ==> done == |owned|)
      ensures !err ==> ec2.lookups == old(ec2.lookups) + VpcsOf(owned, natGWs, vpcIDs)
      ensures (forall id :: id in owned ==> Get(natGWs, id) != "") ==> ec2.lookups == old(ec2.lookups)
    {
      ghost var tables, script, lookups := ec2.tables, ec2.script, ec2.lookups;
      goal := map[];
      AfterMore(script, 0, 0);
      assert ec2.tables == Retarget(ec2.tables, goal);
      for i := 0 to |owned|
        invariant ec2.Valid() && ec2.tables == Retarget(tables, goal)
        invariant HandledUpTo(owned, i, goal, natGWs, vpcIDs, script) && AllSucceed(owned, i, natGWs, vpcIDs, script)
        invariant ec2.script == After(script, CallsForAll(owned[..i], natGWs, vpcIDs))
        invariant LookedUpTo(owned, i, natGWs, vpcIDs, lookups, ec2.lookups)
        invariant (forall id :: id in owned ==> Get(natGWs, id) != "") ==> ec2.lookups == lookups
      {
        ghost var before := ec2.lookups;
        err, goal, done := ReleaseNext(owned, i, natGWs, vpcIDs, goal, tables, script);
        if err {
          return;
        }
        OneMoreOwned(owned, i, natGWs, vpcIDs, script);
        LookedOneMore(owned, i, natGWs, vpcIDs, lookups, before, ec2.lookups);
      }
      assert owned[..|owned|] == owned;
      return false, goal, |owned|;
    }

    /** Table number `i` of that loop, after the first `i` have been handled. */
    method ReleaseNext(owned: seq<string>, i: nat, natGWs: map<string, string>, vpcIDs: map<string, string>,
                       ghost goal: map<string, Target>, ghost tables: seq<RouteTable>, ghost script: seq<Turn>)
      returns (err: bool, ghost goal': map<string, Target>, ghost done: nat)
      requires ec2.Valid() && Distinct(owned) && i < |owned| && ec2.tables == Retarget(tables, goal)
      requires HandledUpTo(owned, i, goal, natGWs, vpcIDs, script)
      requires ec2.script == After(script, CallsForAll(owned[..i], natGWs, vpcIDs))
      modifies ec2`tables, ec2`writes, ec2`script, ec2`calls, ec2`lookups
      ensures ec2.Valid() && ec2.tables == Retarget(tables, goal')
      ensures err <==> !Succeeds(owned[i], natGWs, vpcIDs, old(ec2.script))
      ensures HandledUpTo(owned, done, goal', natGWs, vpcIDs, script) && (!err ==> done == i + 1)
      ensures !err ==> ec2.script == After(old(ec2.script), CallsFor(owned[i], natGWs, vpcIDs))
      ensures ec2.lookups == old(ec2.lookups) + if Unrecorded(owned[i], natGWs, vpcIDs) then [vpcIDs[owned[i]]] else []
    {
      assert owned[i] !in owned[..i];
      err, goal' := ReleaseOne(owned[i], natGWs, vpcIDs, goal, tables);
      done := i;
      if !err || goal' != goal {
        HandledOneMore(owned, i, goal, goal', natGWs, vpcIDs, script);
        done := i + 1;
      }
    }

    /** One turn of the release loop; `tables` and `goal` say what the loop has done to the account. */
    method ReleaseOne(rtbID: string, natGWs: map<string, string>, vpcIDs: map<string, string>,
                      ghost goal: map<string, Target>, ghost tables: seq<RouteTable>)
      returns (err: bool, ghost goal': map<string, Target>)
      requires ec2.Valid() && rtbID !in goal && ec2.tables == Retarget(tables, goal)
      modifies ec2`tables, ec2`writes, ec2`script, ec2`calls, ec2`lookups
      ensures ec2.Valid() && ec2.tables == Retarget(tables, goal')
      ensures err <==> !Succeeds(rtbID, natGWs, vpcIDs, old(ec2.script))
      ensures (err && goal' == goal) || Handled(rtbID, goal', natGWs, vpcIDs, old(ec2.script))
      ensures goal'.Keys <= goal.Keys + {rtbID} && forall id :: id in goal ==> id in goal' && goal'[id] == goal[id]
      ensures !err ==> ec2.script == After(old(ec2.script), CallsFor(rtbID, natGWs, vpcIDs))
      ensures ec2.lookups == old(ec2.lookups) + if Unrecorded(rtbID, natGWs, vpcIDs) then [vpcIDs[rtbID]] else []
    {
      goal' := goal;
      AfterMore(ec2.script, 1, 1);
      var natGwID := Get(natGWs, rtbID);
      if natGwID == "" {
        var vpcID := Get(vpcIDs, rtbID);
        if vpcID == "" {
          return false, goal;
        }
        var lookupErr, found := ec2.LookupNatGateway(vpcID, az);
        if lookupErr {
          return true, goal;
        }
        natGwID := found;
      }
      RetargetTwice(tables, goal, rtbID, ToGateway(natGwID));
      ghost var was := ec2.tables;
      err := ec2.Upsert(rtbID, ToGateway(natGwID));
      if !err || ec2.tables != was {
        goal' := goal[rtbID := ToGateway(natGwID)];
      }
    }

    /** Claiming the AZ and releasing it again, both without an error, restores every route, if the AZ's tables
        showed NAT gateways and nothing else was recorded for them before. */
    method ClaimAndRelease() returns (claimErr: bool, releaseErr: bool)
      requires Valid() && !manual && forall t :: t in InAz(ec2.tables, az) ==> ShowsGateway(t) && t.id !in originalNatGW
      modifies this`ownedTables, this`originalNatGW, this`rtbVpcID, ec2
      ensures Valid()
      ensures !claimErr && !releaseErr && InAz(old(ec2.tables), az) != [] ==> ec2.tables == old(ec2.tables)
    {
      ghost var tables, found, g, v := ec2.tables, InAz(ec2.tables, az), originalNatGW, rtbVpcID;
      ghost var script := After(After(ec2.script, 1), ClaimCalls(found));
      releaseErr := false;
      claimErr := ClaimOwnRouteTables();
      if claimErr {
        return;
      }
      releaseErr := ReleaseClaimed(tables, found, g, v, script);
    }

    /** The second half of it. */
    method ReleaseClaimed(ghost tables: seq<RouteTable>, ghost found: seq<RouteTable>, ghost g: map<string, string>,
                          ghost v: map<string, string>, ghost script: seq<Turn>) returns (err: bool)
      requires Valid() && DistinctIds(tables) && found == InAz(tables, az)
      requires forall t :: t in found ==> ShowsGateway(t) && t.id !in g
      requires RecordedUpTo(found, |found|, g, originalNatGW, v, rtbVpcID, script)
      requires found != [] ==> ownedTables == Ids(found) && ec2.tables == Retarget(tables, ClaimGoal(found, instance))
      modifies this`ownedTables, ec2
      ensures Valid() && (!err && found != [] ==> ec2.tables == tables)
    {
      ghost var goal, done;
      GatewaysRecorded(found, g, originalNatGW, v, rtbVpcID, script);
      err, goal, done := ReleaseRouteTables();
      if !err {
        BackToGateways(tables, az, instance, originalNatGW);
      }
    }

    /** Whatever is called, in whatever order and with whatever EC2 errors, the books stay consistent and
        no recorded gateway is overwritten. */
    method Perform(events: seq<Event>)
      requires Valid()
      requires forall i :: 0 <= i < |events| && events[i].Cover? ==>
                 events[i].az != az && Tagged(events[i].ids, events[i].az)
      modifies this, ec2
      ensures Valid() && GatewaysKept(old(originalNatGW), originalNatGW)
    {
      for i := 0 to |events|
        invariant Valid() && GatewaysKept(old(originalNatGW), originalNatGW)
      {
        match events[i]
        case OwnClaim => var _ := ClaimOwnRouteTables();
        case HttpClaim => var _ := ClaimRouteTables();
        case HttpRelease => var _, _, _ := ReleaseRouteTables();
        case Drop => var _ := DropOwnTables();
        case Cover(other, ids) => AddForeignTables(other, ids);
        case Yield(other) => var _ := ReleaseForeignAZ(other);
        case Watch => var _, _ := ReconcileForeign();
      }
    }
  }
}

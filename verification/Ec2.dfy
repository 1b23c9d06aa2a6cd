/** The route tables of an AWS account, as the EC2 client of internal/aws/ec2.go shows and changes them. */
module Ec2 {
  import opened Wrappers

  /** The 0.0.0.0/0 route points at a NAT gateway, at an instance, or (both "") at neither. */
  datatype RouteTable = RouteTable(id: string, az: string, vpcId: string, natGatewayId: string, instanceId: string)

  datatype Target = ToInstance(instance: string) | ToGateway(gateway: string)

  datatype Write = Write(id: string, target: Target)

  /** How the next call is answered; `answer` is what a NAT gateway lookup finds. */
  datatype Turn = Turn(fault: Fault, answer: Option<string>)

  function Routed(t: RouteTable, target: Target): RouteTable {
    match target
    case ToInstance(i) => t.(natGatewayId := "", instanceId := i)
    case ToGateway(g) => t.(natGatewayId := g, instanceId := "")
  }

  function Retarget(tables: seq<RouteTable>, goal: map<string, Target>): (r: seq<RouteTable>)
    ensures |r| == |tables|
  {
    seq(|tables|, i requires 0 <= i < |tables| =>
      if tables[i].id in goal then Routed(tables[i], goal[tables[i].id]) else tables[i])
  }

  lemma RetargetTwice(tables: seq<RouteTable>, goal: map<string, Target>, id: string, target: Target)
    ensures Retarget(Retarget(tables, goal), map[id := target]) == Retarget(tables, goal[id := target])
  {
  }

  /** DescribeRouteTables filtered by AZ tag, in the account's order. */
  function InAz(tables: seq<RouteTable>, az: string): seq<RouteTable> {
    if tables == [] then []
    else
      var rest := InAz(tables[..|tables| - 1], az);
      var t := tables[|tables| - 1];
      if t.az == az then rest + [t] else rest
  }

  lemma {:induction false} InAzExact(tables: seq<RouteTable>, az: string)
    ensures forall t :: t in InAz(tables, az) <==> t in tables && t.az == az
  {
    if tables == [] {
    } else {
      var n := |tables| - 1;
      InAzExact(tables[..n], az);
      assert tables == tables[..n] + [tables[n]];
    }
  }

  ghost predicate DistinctIds(tables: seq<RouteTable>) {
    forall i, j :: 0 <= i < j < |tables| ==> tables[i].id != tables[j].id
  }

  lemma {:induction false} InAzDistinct(tables: seq<RouteTable>, az: string)
    requires DistinctIds(tables)
    ensures DistinctIds(InAz(tables, az))
  {
    if tables == [] {
    } else {
      var n := |tables| - 1;
      InAzDistinct(tables[..n], az);
      InAzExact(tables[..n], az);
    }
  }

  function Upcoming(script: seq<Turn>): Turn {
    if script == [] then Turn(Calm, None) else script[0]
  }

  /** The script after `n` more calls. */
  function After(script: seq<Turn>, n: nat): seq<Turn> {
    if n <= |script| then script[n..] else []
  }

  lemma AfterMore(script: seq<Turn>, n: nat, m: nat)
    ensures After(After(script, n), m) == After(script, n + m) && After(script, 0) == script && After([], n) == []
  {
  }

  /** What a NAT gateway lookup finds next, None for an error. */
  function Found(script: seq<Turn>): Option<string> {
    var t := Upcoming(script);
    if t.fault == Calm then t.answer else None
  }

  /** Of `count` calls in a row none failed, or exactly the last one did. */
  ghost predicate WentAs(script: seq<Turn>, count: nat, err: bool) {
    && (err ==> count > 0 && Upcoming(After(script, count - 1)).fault != Calm)
    && forall k: nat :: k < count && !(err && k == count - 1) ==> Upcoming(After(script, k)).fault == Calm
  }

  lemma OneMoreWent(script: seq<Turn>, count: nat, err: bool)
    requires WentAs(script, count, false) && err == (Upcoming(After(script, count)).fault != Calm)
    ensures WentAs(script, count + 1, err)
  {
  }

  /** An empty script fails no call. */
  lemma NothingFails(count: nat, err: bool)
    requires WentAs([], count, err)
    ensures !err
  {
  }

  class Account {
    const tags: map<string, string>   // each route table carries one AZ tag for good
    var tables: seq<RouteTable>
    var script: seq<Turn>             // arbitrary; once it is used up calls succeed and lookups find nothing
    ghost var writes: seq<Write>      // every route write that was asked for
    ghost var calls: nat              // every call of any kind
    ghost var lookups: seq<string>    // the VPCs that NAT gateways were looked up in

    ghost predicate Valid()
      reads this
    {
      DistinctIds(tables) && forall t :: t in tables ==> t.id in tags && tags[t.id] == t.az
    }

    constructor (tables: seq<RouteTable>, tags: map<string, string>, script: seq<Turn>)
      requires DistinctIds(tables) && forall t :: t in tables ==> t.id in tags && tags[t.id] == t.az
      ensures Valid() && this.tables == tables && this.tags == tags && this.script == script
    {
      this.tables, this.tags, this.script := tables, tags, script;
      writes, calls, lookups := [], 0, [];
    }

    method NextTurn() returns (t: Turn)
      modifies this`script, this`calls
      ensures calls == old(calls) + 1
      ensures t == Upcoming(old(script)) && script == After(old(script), 1)
    {
      calls := calls + 1;
      t := Turn(Calm, None);
      if script != [] {
        t, script := script[0], script[1..];
      }
    }

    method DiscoverRouteTables(az: string) returns (err: bool, found: seq<RouteTable>)
      modifies this`script, this`calls
      ensures calls == old(calls) + 1
      ensures err == (Upcoming(old(script)).fault != Calm) && script == After(old(script), 1)
      ensures !err ==> found == InAz(tables, az)
    {
      var turn := NextTurn();
      err := turn.fault != Calm;
      found := if err then [] else InAz(tables, az);
    }

    /** CreateRoute, or ReplaceRoute when the route exists. An error may or may not have had its effect. */
    method Upsert(id: string, target: Target) returns (err: bool)
      requires Valid()
      modifies this`script, this`calls, this`tables, this`writes
      ensures Valid() && calls == old(calls) + 1 && writes == old(writes) + [Write(id, target)]
      ensures err == (Upcoming(old(script)).fault != Calm) && script == After(old(script), 1)
      ensures tables == if Upcoming(old(script)).fault == Lost then old(tables)
                        else Retarget(old(tables), map[id := target])
    {
      writes := writes + [Write(id, target)];
      var turn := NextTurn();
      err := turn.fault != Calm;
      if turn.fault != Lost {
        ghost var was := tables;
        tables := Retarget(tables, map[id := target]);
        assert forall i :: 0 <= i < |was| ==> tables[i].id == was[i].id && tables[i].az == was[i].az;
        forall t | t in tables ensures t.id in tags && tags[t.id] == t.az {
          var i :| 0 <= i < |tables| && tables[i] == t;
          assert was[i] in was;
        }
      }
    }

    /** An oracle: a gateway (possibly none by name) or an error. */
    method LookupNatGateway(vpcId: string, az: string) returns (err: bool, gateway: string)
      modifies this`script, this`calls, this`lookups
      ensures calls == old(calls) + 1 && lookups == old(lookups) + [vpcId]
      ensures err == Found(old(script)).None? && script == After(old(script), 1)
      ensures gateway == if err then "" else Found(old(script)).value
    {
      lookups := lookups + [vpcId];
      var turn := NextTurn();
      err := turn.fault != Calm || turn.answer.None?;
      gateway := if err then "" else turn.answer.value;
    }
  }
}

/** Placement of the stale flow reset rule in the FORWARD chain (internal/nat/manager.go), which other
    writers such as kube-proxy change too. */
module Forward {
  import opened Wrappers

  /** A rule is its list of iptables arguments. */
  type Rule = seq<string>

  const COMMENT := "kube-nat stale flow reset"

  function ResetRule(iface: string): Rule {
    ["-o", iface, "-p", "tcp",
     "-m", "conntrack", "--ctstate", "INVALID",
     "-m", "comment", "--comment", COMMENT,
     "-j", "REJECT", "--reject-with", "tcp-reset"]
  }

  // ---- What the rule does ----

  /** A packet of a forwarded flow, as far as the rule looks at it. */
  datatype Packet = Packet(out: string, protocol: string, ctstate: string)

  /** What one option asks of a packet. */
  predicate Allows(option: string, value: string, p: Packet) {
    && (option == "-o" ==> p.out == value)
    && (option == "-p" ==> p.protocol == value)
    && (option == "--ctstate" ==> p.ctstate == value)
  }

  /** The packet passes every match among these arguments, which are options with one value each. */
  predicate Passes(args: seq<string>, p: Packet) {
    forall k :: 0 <= k < |args| / 2 ==> Allows(args[2 * k], args[2 * k + 1], p)
  }

  predicate Gives(args: seq<string>, k: int, option: string, value: string) {
    0 <= k < |args| / 2 && args[2 * k] == option && args[2 * k + 1] == value
  }

  /** The rule answers the TCP packets leaving by this interface that conntrack finds INVALID, and no others;
      and it answers them with a TCP reset. */
  lemma ResetRuleMeans(iface: string, p: Packet)
    ensures Passes(ResetRule(iface), p) <==> p == Packet(iface, "tcp", "INVALID")
    ensures exists k :: Gives(ResetRule(iface), k, "-j", "REJECT")
    ensures exists k :: Gives(ResetRule(iface), k, "--reject-with", "tcp-reset")
  {
    var r := ResetRule(iface);
    assert Gives(r, 6, "-j", "REJECT") && Gives(r, 7, "--reject-with", "tcp-reset");
    if Passes(r, p) {
      assert Allows(r[2 * 0], r[2 * 0 + 1], p) && Allows(r[2 * 1], r[2 * 1 + 1], p);
      assert Allows(r[2 * 3], r[2 * 3 + 1], p);
    }
    if p == Packet(iface, "tcp", "INVALID") {
      forall k | 0 <= k < |r| / 2 ensures Allows(r[2 * k], r[2 * k + 1], p) {
        OptionAllows(iface, k);
      }
    }
  }

  lemma OptionAllows(iface: string, k: int)
    requires 0 <= k < 8
    ensures var r := ResetRule(iface); Allows(r[2 * k], r[2 * k + 1], Packet(iface, "tcp", "INVALID"))
  {
    var r := ResetRule(iface);
    if k == 0 {
      assert r[0][1] == 'o';
    } else if k == 1 {
      assert r[2][1] == 'p';
    } else if k == 2 || k == 4 {
      assert r[2 * k][1] == 'm';
    } else if k == 3 {
      assert |r[6]| == 9;
    } else if k == 5 {
      assert r[10][3] == 'o';
    } else if k == 6 {
      assert r[12][1] == 'j';
    } else {
      assert |r[14]| == 13;
    }
  }

  // ---- What a listing of the chain looks like ----

  function Quoted(arg: string): string {
    if ' ' in arg then "\"" + arg + "\"" else arg
  }

  function Joined(args: seq<string>): string {
    if args == [] then "" else " " + Quoted(args[0]) + Joined(args[1..])
  }

  function Line(rule: Rule): string {
    "-A FORWARD" + Joined(rule)
  }

  function Listing(chain: seq<Rule>): (lines: seq<string>)
    ensures |lines| == |chain| + 1
  {
    ["-P FORWARD ACCEPT"] + seq(|chain|, i requires 0 <= i < |chain| => Line(chain[i]))
  }

  predicate Contains(s: string, t: string) {
    exists i {:trigger s[i..]} :: 0 <= i <= |s| && t <= s[i..]
  }

  /** Whether the listing shows the reset comment for a rule, whoever wrote the rule. */
  predicate Marked(rule: Rule) {
    Contains(Line(rule), COMMENT)
  }

  lemma ContainsInside(before: string, s: string, behind: string, t: string)
    requires Contains(s, t)
    ensures Contains(before + s + behind, t)
  {
    var i :| 0 <= i <= |s| && t <= s[i..];
    var whole := before + s + behind;
    assert whole[|before| + i..] == s[i..] + behind;
  }

  lemma {:induction false} ArgumentIsShown(args: seq<string>, k: nat, t: string)
    requires k < |args| && Contains(args[k], t)
    ensures Contains(Joined(args), t)
  {
    var shown := Quoted(args[0]);
    if k == 0 {
      if ' ' in args[0] {
        ContainsInside("\"", args[0], "\"", t);
      }
      ContainsInside(" ", shown, Joined(args[1..]), t);
    } else {
      ArgumentIsShown(args[1..], k - 1, t);
      ContainsInside(" " + shown, Joined(args[1..]), "", t);
      assert (" " + shown) + Joined(args[1..]) + "" == Joined(args);
    }
  }

  lemma ResetRuleIsMarked(iface: string)
    ensures Marked(ResetRule(iface))
  {
    assert COMMENT <= COMMENT[0..];
    ArgumentIsShown(ResetRule(iface), 11, COMMENT);
    ContainsInside("-A FORWARD", Joined(ResetRule(iface)), "", COMMENT);
    assert "-A FORWARD" + Joined(ResetRule(iface)) + "" == Line(ResetRule(iface));
  }

  // ---- What a placement does to the chain ----

  function WithoutFirst(chain: seq<Rule>, rule: Rule): seq<Rule> {
    if chain == [] then []
    else if chain[0] == rule then chain[1..]
    else [chain[0]] + WithoutFirst(chain[1..], rule)
  }

  function Placed(chain: seq<Rule>, rule: Rule): seq<Rule> {
    if chain != [] && Marked(chain[0]) then chain else [rule] + WithoutFirst(chain, rule)
  }

  function Others(chain: seq<Rule>, rule: Rule): seq<Rule> {
    if chain == [] then []
    else (if chain[0] == rule then [] else [chain[0]]) + Others(chain[1..], rule)
  }

  function Copies(chain: seq<Rule>, rule: Rule): nat {
    multiset(chain)[rule]
  }

  lemma {:induction false} RemovalIsLocal(chain: seq<Rule>, rule: Rule)
    ensures Others(WithoutFirst(chain, rule), rule) == Others(chain, rule)
    ensures Copies(WithoutFirst(chain, rule), rule) == if Copies(chain, rule) == 0 then 0 else Copies(chain, rule) - 1
  {
    if chain == [] {
    } else {
      assert chain == [chain[0]] + chain[1..];
      if chain[0] != rule {
        RemovalIsLocal(chain[1..], rule);
        assert WithoutFirst(chain, rule)[1..] == WithoutFirst(chain[1..], rule);
      }
    }
  }

  /** All other rules keep their order and multiplicity, and the rule's own copies never multiply. */
  lemma PlacementIsLocal(chain: seq<Rule>, rule: Rule)
    ensures Others(Placed(chain, rule), rule) == Others(chain, rule)
    ensures chain != [] && Marked(chain[0]) ==> Placed(chain, rule) == chain
    ensures !(chain != [] && Marked(chain[0])) ==>
              Copies(Placed(chain, rule), rule) == if Copies(chain, rule) == 0 then 1 else Copies(chain, rule)
  {
    RemovalIsLocal(chain, rule);
    assert ([rule] + WithoutFirst(chain, rule))[1..] == WithoutFirst(chain, rule);
  }

  /** A placement puts the reset rule first, exactly unless another rule that carries the comment is. */
  lemma FirstUnlessImpersonated(chain: seq<Rule>, iface: string)
    ensures var rule := ResetRule(iface);
            Placed(chain, rule) != [] &&
            (Placed(chain, rule)[0] == rule <==> chain == [] || !Marked(chain[0]) || chain[0] == rule)
  {
    ResetRuleIsMarked(iface);
  }

  /** The first rule of a chain that applies to a packet, `hit` telling which do; in this chain it decides. */
  function FirstHit(chain: seq<Rule>, hit: Rule -> bool): Option<Rule> {
    if chain == [] then None
    else if hit(chain[0]) then Some(chain[0])
    else FirstHit(chain[1..], hit)
  }

  lemma {:induction false} RemovalKeepsHits(chain: seq<Rule>, rule: Rule, hit: Rule -> bool)
    requires !hit(rule)
    ensures FirstHit(WithoutFirst(chain, rule), hit) == FirstHit(chain, hit)
  {
    if chain == [] {
    } else if chain[0] != rule {
      RemovalKeepsHits(chain[1..], rule, hit);
      assert WithoutFirst(chain, rule)[1..] == WithoutFirst(chain[1..], rule);
    }
  }

  /** After a placement the reset rule answers every packet it applies to, whatever the rules behind it would do
      with it, unless another rule with the comment came first; every other packet is answered as before. */
  lemma PlacedDecides(chain: seq<Rule>, iface: string, hit: Rule -> bool)
    ensures var rule := ResetRule(iface);
            && (hit(rule) && (chain == [] || !Marked(chain[0]) || chain[0] == rule) ==>
                  FirstHit(Placed(chain, rule), hit) == Some(rule))
            && (!hit(rule) ==> FirstHit(Placed(chain, rule), hit) == FirstHit(chain, hit))
  {
    var rule := ResetRule(iface);
    if !hit(rule) {
      RemovalKeepsHits(chain, rule, hit);
      assert ([rule] + WithoutFirst(chain, rule))[1..] == WithoutFirst(chain, rule);
    }
  }

  /** The reset rule of another interface is such a rule: it keeps this one's from being placed at all. */
  lemma OtherInterfaceBlocks(chain: seq<Rule>, iface: string, other: string)
    requires iface != other
    ensures var stale := [ResetRule(other)] + chain;
            Placed(stale, ResetRule(iface)) == stale && stale[0] != ResetRule(iface)
  {
    ResetRuleIsMarked(other);
    assert ResetRule(other)[1] != ResetRule(iface)[1];
  }

  lemma RepeatChangesNothing(chain: seq<Rule>, iface: string)
    ensures var rule := ResetRule(iface); Placed(Placed(chain, rule), rule) == Placed(chain, rule)
  {
    ResetRuleIsMarked(iface);
  }

  // ---- Runs mixed with other writers ----

  /** A call of EnsureStaleFlowReset that left the given chain, or a rule put in front by someone else. */
  datatype Moment = Ensured(left: seq<Rule>, ok: bool) | Prepended(rule: Rule)

  function After(chain: seq<Rule>, m: Moment): seq<Rule> {
    match m
    case Ensured(left, _) => left
    case Prepended(x) => [x] + chain
  }

  /** What a call may leave behind; one that fails half-way may have lost the rule. */
  predicate Fits(chain: seq<Rule>, m: Moment, rule: Rule) {
    match m
    case Ensured(left, ok) =>
      left == Placed(chain, rule) || (!ok && (left == chain || left == WithoutFirst(chain, rule)))
    case Prepended(x) => x != rule
  }

  function ChainAfter(start: seq<Rule>, run: seq<Moment>): seq<Rule> {
    if run == [] then start else After(ChainAfter(start, run[..|run| - 1]), run[|run| - 1])
  }

  ghost predicate IsRun(start: seq<Rule>, run: seq<Moment>, rule: Rule) {
    forall i {:trigger run[i]} :: 0 <= i < |run| ==> Fits(ChainAfter(start, run[..i]), run[i], rule)
  }

  /** The rules others put in front during the run, the latest first. */
  function Arrivals(run: seq<Moment>): seq<Rule> {
    if run == [] then []
    else
      var rest := Arrivals(run[..|run| - 1]);
      match run[|run| - 1]
      case Ensured(_, _) => rest
      case Prepended(x) => [x] + rest
  }

  lemma RunPrefix(start: seq<Rule>, run: seq<Moment>, rule: Rule)
    requires IsRun(start, run, rule) && run != []
    ensures IsRun(start, run[..|run| - 1], rule)
    ensures Fits(ChainAfter(start, run[..|run| - 1]), run[|run| - 1], rule)
  {
    var init := run[..|run| - 1];
    forall i | 0 <= i < |init| ensures Fits(ChainAfter(start, init[..i]), init[i], rule) {
      assert init[i] == run[i] && init[..i] == run[..i];
    }
  }

  lemma MomentIsLocal(chain: seq<Rule>, m: Moment, rule: Rule)
    requires Fits(chain, m, rule)
    ensures Others(After(chain, m), rule) == (if m.Prepended? then [m.rule] else []) + Others(chain, rule)
    ensures Copies(chain, rule) <= 1 ==> Copies(After(chain, m), rule) <= 1
  {
    match m
    case Ensured(left, ok) =>
      PlacementIsLocal(chain, rule);
      RemovalIsLocal(chain, rule);
    case Prepended(x) =>
      assert ([x] + chain)[1..] == chain;
  }

  /** Over any run the rules of others are exactly those that were there and those that arrived, in the
      order their writers gave them, and from at most one copy of the rule there is never more than one. */
  lemma {:induction false} RunIsLocal(start: seq<Rule>, run: seq<Moment>, rule: Rule)
    requires IsRun(start, run, rule)
    ensures Others(ChainAfter(start, run), rule) == Arrivals(run) + Others(start, rule)
    ensures Copies(start, rule) <= 1 ==> Copies(ChainAfter(start, run), rule) <= 1
  {
    if run == [] {
    } else {
      var init, last := run[..|run| - 1], run[|run| - 1];
      var arrived := if last.Prepended? then [last.rule] else [];
      RunPrefix(start, run, rule);
      RunIsLocal(start, init, rule);
      MomentIsLocal(ChainAfter(start, init), last, rule);
      assert arrived + (Arrivals(init) + Others(start, rule)) == (arrived + Arrivals(init)) + Others(start, rule);
    }
  }

  /** A call that succeeds leaves the rule in front, whatever happened before it, as long as nobody else
      uses the comment. */
  lemma EnsuredIsFirst(start: seq<Rule>, run: seq<Moment>, iface: string)
    requires IsRun(start, run, ResetRule(iface))
    requires run != [] && run[|run| - 1].Ensured? && run[|run| - 1].ok
    requires forall x :: x in Arrivals(run) + Others(start, ResetRule(iface)) ==> !Marked(x)
    ensures var chain := ChainAfter(start, run); chain != [] && chain[0] == ResetRule(iface)
  {
    var rule := ResetRule(iface);
    var n := |run| - 1;
    RunPrefix(start, run, rule);
    RunIsLocal(start, run[..n], rule);
    var chain := ChainAfter(start, run[..n]);
    assert Arrivals(run) == Arrivals(run[..n]);
    if chain != [] && chain[0] != rule {
      assert chain[0] == Others(chain, rule)[0];
    }
    FirstUnlessImpersonated(chain, iface);
  }

  // ---- The code ----

  datatype Stage = Reading | Checking | Moving | Inserting | Sysctl

  class Netfilter {
    var chain: seq<Rule>
    var loose: bool          // nf_conntrack_tcp_loose
    var script: seq<Fault>   // how the next operations go; once it is used up they succeed

    constructor (chain: seq<Rule>, loose: bool, script: seq<Fault>)
      ensures this.chain == chain && this.loose == loose && this.script == script
    {
      this.chain, this.loose, this.script := chain, loose, script;
    }

    method Turn() returns (fault: Fault)
      modifies `script
      ensures fault == if old(script) == [] then Calm else old(script)[0]
      ensures script == if old(script) == [] then [] else old(script)[1..]
    {
      if script == [] {
        return Calm;
      }
      fault, script := script[0], script[1..];
    }

    method List() returns (lines: Option<seq<string>>)
      modifies `script
      ensures lines.Some? ==> lines.value == Listing(chain)
      ensures old(script) == [] ==> lines.Some? && script == []
    {
      var fault := Turn();
      lines := if fault.Calm? then Some(Listing(chain)) else None;
    }

    method Exists(rule: Rule) returns (found: Option<bool>)
      modifies `script
      ensures found.Some? ==> (found.value <==> rule in chain)
      ensures old(script) == [] ==> found.Some? && script == []
    {
      var fault := Turn();
      found := if fault.Calm? then Some(rule in chain) else None;
    }

    /** iptables -D takes out the first rule that matches. */
    method Delete(rule: Rule) returns (ok: bool)
      modifies `script, `chain
      ensures ok ==> chain == WithoutFirst(old(chain), rule)
      ensures chain == old(chain) || chain == WithoutFirst(old(chain), rule)
      ensures old(script) == [] ==> ok && script == []
    {
      var fault := Turn();
      if !fault.Lost? {
        chain := WithoutFirst(chain, rule);
      }
      ok := fault.Calm?;
    }

    method InsertFirst(rule: Rule) returns (ok: bool)
      modifies `script, `chain
      ensures ok ==> chain == [rule] + old(chain)
      ensures chain == old(chain) || chain == [rule] + old(chain)
      ensures old(script) == [] ==> ok && script == []
    {
      var fault := Turn();
      if !fault.Lost? {
        chain := [rule] + chain;
      }
      ok := fault.Calm?;
    }

    method LooseOff() returns (ok: bool)
      modifies `script, `loose
      ensures loose == old(loose) || !loose
      ensures ok ==> !loose
      ensures old(script) == [] ==> ok && script == []
    {
      var fault := Turn();
      if !fault.Lost? {
        loose := false;
      }
      ok := fault.Calm?;
    }

    method IsFirstForwardRule() returns (first: Option<bool>)
      modifies `script
      ensures first.Some? ==> (first.value <==> chain != [] && Marked(chain[0]))
      ensures old(script) == [] ==> first.Some? && script == []
    {
      var listed := List();
      if listed.None? {
        return None;
      }
      var lines := listed.value;
      assert lines[0] == "-P FORWARD ACCEPT" && "-P " <= lines[0];
      for i := 0 to |lines|
        invariant i <= 1
      {
        assert i == 1 ==> lines[i] == Line(chain[0]) && lines[i][1] == 'A';
        if "-P " <= lines[i] {
          continue;
        }
        return Some(Contains(lines[i], COMMENT));
      }
      return Some(false);
    }

    /** Success leaves the rule placed and loose pickup off. A failure tells how far the call came; loose
        pickup is never touched before the rule is placed. */
    method EnsureStaleFlowReset(iface: string) returns (failed: Option<Stage>)
      modifies this
      ensures var rule := ResetRule(iface);
              var placed := Placed(old(chain), rule);
              match failed
              case None => chain == placed && !loose
              case Some(Reading) => chain == old(chain) && loose == old(loose)
              case Some(Checking) => chain == old(chain) && loose == old(loose)
              case Some(Moving) =>
                (chain == old(chain) || chain == WithoutFirst(old(chain), rule)) && loose == old(loose)
              case Some(Inserting) =>
                (chain == WithoutFirst(old(chain), rule) || chain == placed) && loose == old(loose)
              case Some(Sysctl) => chain == placed && (loose == old(loose) || !loose)
      ensures Fits(old(chain), Ensured(chain, failed.None?), ResetRule(iface))
      ensures old(script) == [] ==> failed.None?
    {
      var rule := ResetRule(iface);
      var first := IsFirstForwardRule();
      if first.None? {
        return Some(Reading);
      }
      if !first.value {
        var found := Exists(rule);
        if found.None? {
          return Some(Checking);
        }
        if found.value {
          var deleted := Delete(rule);
          if !deleted {
            return Some(Moving);
          }
        } else {
          NothingToRemove(chain, rule);
        }
        var inserted := InsertFirst(rule);
        if !inserted {
          return Some(Inserting);
        }
      }
      var off := LooseOff();
      if !off {
        return Some(Sysctl);
      }
      return None;
    }
  }

  lemma {:induction false} NothingToRemove(chain: seq<Rule>, rule: Rule)
    requires rule !in chain
    ensures WithoutFirst(chain, rule) == chain
  {
    if chain == [] {
    } else {
      NothingToRemove(chain[1..], rule);
    }
  }
}

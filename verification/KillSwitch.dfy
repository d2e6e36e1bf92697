/**
 The gateway's kill switch: forwarding, the FORWARD policy and three rules, applied check-first
 (vpn-gateway-agent/netctl/netctl.go).
 */
module KillSwitch {
  import opened Wrappers

  datatype Policy = Accept | Drop

  /** A rule of ours for an interface, or any other rule. */
  datatype Rule = AcceptIn(iface: string) | AcceptOut(iface: string) | Masquerade(iface: string) | Foreign(text: string)

  datatype Kernel = Kernel(ipForward: bool, policy: Policy, forward: seq<Rule>, postrouting: seq<Rule>)

  /** The commands of a run that can fail; a failing command changes nothing. */
  datatype Command = Sysctl | SetPolicy | Check(rule: Rule) | Append(rule: Rule)

  type Failures = Command -> bool

  // ---- One rule ----

  /** applyRule: a check that succeeds leaves the chain alone; else the rule is appended. */
  function AfterRule(chain: seq<Rule>, rule: Rule, fails: Failures): (seq<Rule>, bool) {
    if rule in chain && !fails(Check(rule)) then (chain, true)
    else if fails(Append(rule)) then (chain, false)
    else (chain + [rule], true)
  }

  method ApplyRule(chain: seq<Rule>, rule: Rule, fails: Failures) returns (after: seq<Rule>, ok: bool)
    ensures (after, ok) == AfterRule(chain, rule, fails)
    ensures ok ==> rule in after
    ensures chain <= after
  {
    var checked := rule in chain && !fails(Check(rule));
    if checked { return chain, true; }
    if fails(Append(rule)) { return chain, false; }
    return chain + [rule], true;
  }

  // ---- The whole run ----

  function AfterRules(k: Kernel, wg: string, fails: Failures): (Kernel, bool) {
    var (f1, ok1) := AfterRule(k.forward, AcceptIn(wg), fails);
    if !ok1 then (k.(forward := f1), false)
    else
      var (f2, ok2) := AfterRule(f1, AcceptOut(wg), fails);
      if !ok2 then (k.(forward := f2), false)
      else
        var (n, ok3) := AfterRule(k.postrouting, Masquerade(wg), fails);
        (k.(forward := f2, postrouting := n), ok3)
  }

  function Applied(k: Kernel, wg: string, fails: Failures): (Kernel, bool) {
    if fails(Sysctl) then (k, false)
    else if fails(SetPolicy) then (k.(ipForward := true), false)
    else AfterRules(k.(ipForward := true, policy := Drop), wg, fails)
  }

  class Manager {
    var kernel: Kernel

    constructor (kernel: Kernel)
      ensures this.kernel == kernel
    {
      this.kernel := kernel;
    }

    method AppendForward(rule: Rule, fails: Failures) returns (ok: bool)
      modifies this
      ensures kernel == old(kernel).(forward := AfterRule(old(kernel).forward, rule, fails).0)
      ensures ok == AfterRule(old(kernel).forward, rule, fails).1
    {
      var chain, done := ApplyRule(kernel.forward, rule, fails);
      kernel := kernel.(forward := chain);
      return done;
    }

    /** ApplyKillSwitch: the first failing command ends it with an error. */
    method ApplyKillSwitch(wg: string, fails: Failures) returns (ok: bool)
      modifies this
      ensures (kernel, ok) == Applied(old(kernel), wg, fails)
    {
      if fails(Sysctl) { return false; }
      kernel := kernel.(ipForward := true);
      if fails(SetPolicy) { return false; }
      kernel := kernel.(policy := Drop);
      ok := AppendForward(AcceptIn(wg), fails);
      if !ok { return; }
      ok := AppendForward(AcceptOut(wg), fails);
      if !ok { return; }
      var chain, done := ApplyRule(kernel.postrouting, Masquerade(wg), fails);
      kernel := kernel.(postrouting := chain);
      ok := done;
    }
  }

  // ---- What a run promises ----

  lemma RuleIsThere(chain: seq<Rule>, rule: Rule, fails: Failures)
    ensures AfterRule(chain, rule, fails).1 ==> rule in AfterRule(chain, rule, fails).0
    ensures chain <= AfterRule(chain, rule, fails).0
    ensures forall r :: r in AfterRule(chain, rule, fails).0 ==> r in chain || r == rule
  {
  }

  /**
   A run without error leaves forwarding on, everything else dropped, and the tunnel's rules in place; every
   rule before stays.
   */
  lemma SuccessMeansProtected(k: Kernel, wg: string, fails: Failures)
    requires Applied(k, wg, fails).1
    ensures var after := Applied(k, wg, fails).0;
            && after.ipForward && after.policy == Drop
            && AcceptIn(wg) in after.forward && AcceptOut(wg) in after.forward && Masquerade(wg) in after.postrouting
            && k.forward <= after.forward && k.postrouting <= after.postrouting
  {
    RuleIsThere(k.forward, AcceptIn(wg), fails);
    RuleIsThere(AfterRule(k.forward, AcceptIn(wg), fails).0, AcceptOut(wg), fails);
    RuleIsThere(k.postrouting, Masquerade(wg), fails);
  }

  /**
   Whatever fails, nothing but the tunnel's own rules comes in, and none of them before everything else is
   dropped.
   */
  lemma OnlyTheTunnelIsLetThrough(k: Kernel, wg: string, fails: Failures)
    ensures var after := Applied(k, wg, fails).0;
            && (forall r :: r in after.forward ==> r in k.forward || r == AcceptIn(wg) || r == AcceptOut(wg))
            && (forall r :: r in after.postrouting ==> r in k.postrouting || r == Masquerade(wg))
            && (after.forward != k.forward || after.postrouting != k.postrouting ==> after.policy == Drop)
  {
    RuleIsThere(k.forward, AcceptIn(wg), fails);
    RuleIsThere(AfterRule(k.forward, AcceptIn(wg), fails).0, AcceptOut(wg), fails);
    RuleIsThere(k.postrouting, Masquerade(wg), fails);
  }

  lemma RuleTwice(chain: seq<Rule>, rule: Rule, fails: Failures)
    requires rule in chain && !fails(Check(rule))
    ensures AfterRule(chain, rule, fails) == (chain, true)
  {
  }

  /** Applied again after a run without error, with checks that work, it changes nothing: no duplicates pile up. */
  lemma SecondRunChangesNothing(k: Kernel, wg: string, fails: Failures, again: Failures)
    requires Applied(k, wg, fails).1 && !again(Sysctl) && !again(SetPolicy)
    requires !again(Check(AcceptIn(wg))) && !again(Check(AcceptOut(wg))) && !again(Check(Masquerade(wg)))
    ensures Applied(Applied(k, wg, fails).0, wg, again) == (Applied(k, wg, fails).0, true)
  {
    SuccessMeansProtected(k, wg, fails);
    var once := Applied(k, wg, fails).0;
    RuleTwice(once.forward, AcceptIn(wg), again);
    RuleTwice(once.forward, AcceptOut(wg), again);
    RuleTwice(once.postrouting, Masquerade(wg), again);
  }

  /** The rule is found in its chain, or appended to it. */
  predicate Works(chain: seq<Rule>, rule: Rule, fails: Failures) {
    (rule in chain && !fails(Check(rule))) || !fails(Append(rule))
  }

  /** A run succeeds exactly when none of its commands fails, a check that fails meaning no more than an append. */
  lemma SucceedsExactlyWhen(k: Kernel, wg: string, fails: Failures)
    ensures Applied(k, wg, fails).1 <==>
            && !fails(Sysctl) && !fails(SetPolicy)
            && Works(k.forward, AcceptIn(wg), fails) && Works(k.forward, AcceptOut(wg), fails)
            && Works(k.postrouting, Masquerade(wg), fails)
  {
    var once := AfterRule(k.forward, AcceptIn(wg), fails).0;
    assert AcceptOut(wg) in once <==> AcceptOut(wg) in k.forward;
  }

  /** A rule is appended exactly when it was not found and appending works. */
  lemma AppendedExactlyWhen(chain: seq<Rule>, rule: Rule, fails: Failures)
    ensures var found := rule in chain && !fails(Check(rule));
            && (AfterRule(chain, rule, fails).0 == chain + [rule] <==> !found && !fails(Append(rule)))
            && (AfterRule(chain, rule, fails).0 == chain <==> found || fails(Append(rule)))
            && (AfterRule(chain, rule, fails).1 <==> Works(chain, rule, fails))
  {
    assert |chain + [rule]| != |chain|;
  }

  /** The first failure ends the run: what comes after it is not touched. */
  lemma FailureEndsTheRun(k: Kernel, wg: string, fails: Failures)
    ensures var after := Applied(k, wg, fails).0;
            && (fails(Sysctl) ==> after == k)
            && (!fails(Sysctl) && fails(SetPolicy) ==> after == k.(ipForward := true))
            && (!Works(k.forward, AcceptIn(wg), fails) ==> after.forward == k.forward)
            && (!Works(k.forward, AcceptIn(wg), fails) || !Works(k.forward, AcceptOut(wg), fails) ==>
                  after.postrouting == k.postrouting)
  {
    AppendedExactlyWhen(k.forward, AcceptIn(wg), fails);
    var once := AfterRule(k.forward, AcceptIn(wg), fails).0;
    assert AcceptOut(wg) in once <==> AcceptOut(wg) in k.forward;
  }

  // ---- Any number of runs, with any failures ----

  /** The kernel after these runs, one per start of the agent; each run is given by what fails in it. */
  ghost function After(k: Kernel, wg: string, runs: seq<Failures>): Kernel {
    if |runs| == 0 then k else Applied(After(k, wg, runs[..|runs| - 1]), wg, runs[|runs| - 1]).0
  }

  ghost predicate Protected(k: Kernel, wg: string) {
    k.ipForward && k.policy == Drop && AcceptIn(wg) in k.forward && AcceptOut(wg) in k.forward
        && Masquerade(wg) in k.postrouting
  }

  /** A run takes nothing away, and adds nothing but the tunnel's own rules, at the end. */
  lemma RunOnlyAppends(k: Kernel, wg: string, fails: Failures)
    ensures var after := Applied(k, wg, fails).0;
            && k.forward <= after.forward && k.postrouting <= after.postrouting
            && (k.policy == Drop ==> after.policy == Drop) && (k.ipForward ==> after.ipForward)
  {
    RuleIsThere(k.forward, AcceptIn(wg), fails);
    RuleIsThere(AfterRule(k.forward, AcceptIn(wg), fails).0, AcceptOut(wg), fails);
    RuleIsThere(k.postrouting, Masquerade(wg), fails);
  }

  /** Once a run has succeeded, no later run undoes the protection, whatever fails in it. */
  lemma {:induction false} ProtectionLasts(k: Kernel, wg: string, runs: seq<Failures>, i: nat)
    requires i < |runs| && Applied(After(k, wg, runs[..i]), wg, runs[i]).1
    ensures Protected(After(k, wg, runs), wg)
  {
    var n := |runs| - 1;
    if i == n {
      SuccessMeansProtected(After(k, wg, runs[..n]), wg, runs[n]);
    } else {
      assert runs[..n][..i] == runs[..i];
      ProtectionLasts(k, wg, runs[..n], i);
      RunOnlyAppends(After(k, wg, runs[..n]), wg, runs[n]);
    }
  }

  /** The chain has grown at its end, by these rules only. */
  ghost predicate GrownBy(before: seq<Rule>, after: seq<Rule>, ours: set<Rule>) {
    before <= after && forall i :: |before| <= i < |after| ==> after[i] in ours
  }

  lemma AfterRuleGrows(before: seq<Rule>, chain: seq<Rule>, rule: Rule, fails: Failures, ours: set<Rule>)
    requires GrownBy(before, chain, ours) && rule in ours
    ensures GrownBy(before, AfterRule(chain, rule, fails).0, ours)
  {
  }

  lemma RunGrows(before: Kernel, k: Kernel, wg: string, fails: Failures)
    requires GrownBy(before.forward, k.forward, {AcceptIn(wg), AcceptOut(wg)})
            && GrownBy(before.postrouting, k.postrouting, {Masquerade(wg)})
    ensures var after := Applied(k, wg, fails).0;
            && GrownBy(before.forward, after.forward, {AcceptIn(wg), AcceptOut(wg)})
            && GrownBy(before.postrouting, after.postrouting, {Masquerade(wg)})
  {
    var ours := {AcceptIn(wg), AcceptOut(wg)};
    AfterRuleGrows(before.forward, k.forward, AcceptIn(wg), fails, ours);
    AfterRuleGrows(before.forward, AfterRule(k.forward, AcceptIn(wg), fails).0, AcceptOut(wg), fails, ours);
    AfterRuleGrows(before.postrouting, k.postrouting, Masquerade(wg), fails, {Masquerade(wg)});
  }

  /** Nothing but the tunnel's own rules ever comes in, after all others, and none before everything else is dropped. */
  lemma {:induction false} OnlyTheTunnelEverComesIn(k: Kernel, wg: string, runs: seq<Failures>)
    ensures var after := After(k, wg, runs);
            && GrownBy(k.forward, after.forward, {AcceptIn(wg), AcceptOut(wg)})
            && GrownBy(k.postrouting, after.postrouting, {Masquerade(wg)})
            && (after.forward != k.forward || after.postrouting != k.postrouting ==> after.policy == Drop)
  {
    if |runs| > 0 {
      var n := |runs| - 1;
      OnlyTheTunnelEverComesIn(k, wg, runs[..n]);
      RunGrows(k, After(k, wg, runs[..n]), wg, runs[n]);
      OnlyTheTunnelIsLetThrough(After(k, wg, runs[..n]), wg, runs[n]);
    }
  }

  /**
   Forwarding is turned on before the policy is set.  So after any runs packets are forwarded by default
   exactly when the policy let them through at first, no run got as far as setting it, and forwarding was on
   at first or some run turned it on.
   */
  lemma {:induction false} RunsForwardByDefaultExactlyWhen(k: Kernel, wg: string, runs: seq<Failures>)
    ensures var after := After(k, wg, runs);
            && (after.policy == Accept <==>
                k.policy == Accept && forall i :: 0 <= i < |runs| ==> runs[i](Sysctl) || runs[i](SetPolicy))
            && (after.ipForward <==> k.ipForward || exists i :: 0 <= i < |runs| && !runs[i](Sysctl))
  {
    if |runs| > 0 {
      var n := |runs| - 1;
      var earlier := runs[..n];
      RunsForwardByDefaultExactlyWhen(k, wg, earlier);
      assert forall i :: 0 <= i < n ==> earlier[i] == runs[i];
      if i :| 0 <= i < n && !runs[i](Sysctl) { assert !earlier[i](Sysctl); }
    }
  }

  /** All commands of a run work. */
  predicate AllWork(wg: string, fails: Failures) {
    && !fails(Sysctl) && !fails(SetPolicy)
    && !fails(Check(AcceptIn(wg))) && !fails(Check(AcceptOut(wg))) && !fails(Check(Masquerade(wg)))
  }

  /** After a run that succeeded, any number of runs that work change nothing. */
  lemma {:induction false} LaterRunsChangeNothing(k: Kernel, wg: string, fails: Failures, later: seq<Failures>)
    requires Applied(k, wg, fails).1 && forall i :: 0 <= i < |later| ==> AllWork(wg, later[i])
    ensures After(Applied(k, wg, fails).0, wg, later) == Applied(k, wg, fails).0
  {
    if |later| > 0 {
      LaterRunsChangeNothing(k, wg, fails, later[..|later| - 1]);
      SecondRunChangesNothing(k, wg, fails, later[|later| - 1]);
    }
  }

  function Count(chain: seq<Rule>, rule: Rule): nat {
    multiset(chain)[rule]
  }

  function AtLeastOne(n: nat): nat {
    if n == 0 then 1 else n
  }

  lemma CountAfterRule(chain: seq<Rule>, rule: Rule, fails: Failures, other: Rule)
    requires !fails(Check(rule))
    ensures other != rule ==> Count(AfterRule(chain, rule, fails).0, other) == Count(chain, other)
    ensures Count(AfterRule(chain, rule, fails).0, other) <= AtLeastOne(Count(chain, other))
  {
    assert rule in chain <==> rule in multiset(chain);
  }

  /** One run with working checks, on each chain. */
  lemma CountsAfterRun(k: Kernel, wg: string, fails: Failures, rule: Rule)
    requires forall r :: !fails(Check(r))
    ensures var after := Applied(k, wg, fails).0;
            && Count(after.forward, rule) <= AtLeastOne(Count(k.forward, rule))
            && Count(after.postrouting, rule) <= AtLeastOne(Count(k.postrouting, rule))
            && (rule != AcceptIn(wg) && rule != AcceptOut(wg) ==> Count(after.forward, rule) == Count(k.forward, rule))
            && (rule != Masquerade(wg) ==> Count(after.postrouting, rule) == Count(k.postrouting, rule))
  {
    CountAfterRule(k.forward, AcceptIn(wg), fails, rule);
    CountAfterRule(AfterRule(k.forward, AcceptIn(wg), fails).0, AcceptOut(wg), fails, rule);
    CountAfterRule(k.postrouting, Masquerade(wg), fails, rule);
  }

  /** While checks work, no rule piles up however many runs there are, and no other rule's number changes. */
  lemma {:induction false} NoRulePilesUp(k: Kernel, wg: string, runs: seq<Failures>, rule: Rule)
    requires forall i, r :: 0 <= i < |runs| ==> !runs[i](Check(r))
    ensures var after := After(k, wg, runs);
            && Count(after.forward, rule) <= AtLeastOne(Count(k.forward, rule))
            && Count(after.postrouting, rule) <= AtLeastOne(Count(k.postrouting, rule))
            && (rule != AcceptIn(wg) && rule != AcceptOut(wg) ==> Count(after.forward, rule) == Count(k.forward, rule))
            && (rule != Masquerade(wg) ==> Count(after.postrouting, rule) == Count(k.postrouting, rule))
  {
    if |runs| > 0 {
      var n := |runs| - 1;
      NoRulePilesUp(k, wg, runs[..n], rule);
      CountsAfterRun(After(k, wg, runs[..n]), wg, runs[n], rule);
    }
  }
}

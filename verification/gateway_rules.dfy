/** Each use of a credential against the rules as written: which rule allowed it, on the message's own texts. */
module GatewayRules {
  import opened Text
  import opened Matchers
  import opened Policy
  import opened Gateway
  import opened GatewayLaws
  import opened GatewayRuns

  /** The rule takes these four texts and, where it has rows, one row takes the reference and the target. */
  ghost predicate Takes(rule: Rule, agent: string, credRef: string, targetUri: string, mechanism: string) {
    && Accepts(rule.agentId, agent) && Accepts(rule.credRef, credRef)
    && Accepts(rule.targetUri, targetUri) && Accepts(rule.mechanism, mechanism)
    && (rule.pairs != [] ==>
          exists i :: 0 <= i < |rule.pairs|
                      && Accepts(rule.pairs[i].credRef, credRef) && Accepts(rule.pairs[i].targetUri, targetUri))
  }

  /** Rule `r` is the first that takes the agent and the envelope's reference, target and mechanism. */
  ghost predicate FirstToTake(rules: seq<Rule>, r: nat, agent: string, env: Envelope) {
    && r < |rules| && Takes(rules[r], agent, env.credRef, env.targetUri, env.mechanism)
    && forall j :: 0 <= j < r ==> !Takes(rules[j], agent, env.credRef, env.targetUri, env.mechanism)
  }

  lemma CoversTakes(rule: Rule, agent: string, env: Envelope)
    ensures Covers(rule, RequestOf(agent, env)) <==> Takes(rule, agent, env.credRef, env.targetUri, env.mechanism)
  {
    var req := RequestOf(agent, env);
    if Takes(rule, agent, env.credRef, env.targetUri, env.mechanism) && rule.pairs != [] {
      var i :| 0 <= i < |rule.pairs| && Accepts(rule.pairs[i].credRef, env.credRef)
        && Accepts(rule.pairs[i].targetUri, env.targetUri);
      assert PairMatches(rule.pairs[i], req);
    }
  }

  /** A decision that is not a denial comes from the first rule that takes the message's own texts. */
  lemma DecidedByFirst(rules: seq<Rule>, agent: string, env: Envelope, d: Decision)
    requires Decides(rules, RequestOf(agent, env), d) && d.effect != Deny
    ensures d.source.ByRule? && FirstToTake(rules, d.source.index, agent, env)
  {
    forall j | 0 <= j < |rules|
      ensures Covers(rules[j], RequestOf(agent, env))
              <==> Takes(rules[j], agent, env.credRef, env.targetUri, env.mechanism)
    {
      CoversTakes(rules[j], agent, env);
    }
  }

  /**
   * In every run, when a credential is fetched for a message, that message was verified and read, and the first rule
   * that takes its agent, reference, target and mechanism is not a denial. The decision was recorded before and is
   * that rule's, with the rule's ceilings and the message's own; and where a person must be asked, one approved.
   */
  lemma {:induction false} CredentialByItsRule(site: Site, events: seq<Event>, i: nat, n: nat)
    returns (env: Envelope, d: Decision, r: nat, decided: nat, asked: nat)
    requires i < |After(site, events).trace| && Spends(After(site, events).trace[i].1)
    ensures var s := After(site, events);
            var (k, rules) := (s.trace[i].0, site.setup.rules);
            && k < |s.flights|
            && var f := s.flights[k];
            && f.verdict.Some? && f.verdict.value.Ok? && site.setup.parse(f.m) == Some(env)
            && FirstToTake(rules, r, f.verdict.value.value.agent, env)
            && rules[r].effect == d.effect != Deny && rules[r].notifyOnUse == d.notifyOnUse
            && BothCeilings(n, d.limits, rules[r].limits, env.constraints)
            && decided < i && s.trace[decided] == (k, Decided(d))
            && (MustAsk(site.setup, rules[r].effect, env) ==> asked < i && s.trace[asked] == (k, Prompted(true)))
  {
    env, d, asked := CredentialOnlyPastTheGate(site, events, i);
    var s := After(site, events);
    var k := s.trace[i].0;
    var agent := s.flights[k].verdict.value.value.agent;
    DecidedByFirst(site.setup.rules, agent, env, d);
    r := d.source.index;
    DecisionCarriesItsRule(site.setup.rules, RequestOf(agent, env), d, n);
    decided := DecidedBefore(site, events, i, env, d);
  }

  /** The decision is the first of an admitted message's steps. */
  lemma {:induction false} DecidedBefore(site: Site, events: seq<Event>, i: nat, env: Envelope, d: Decision)
    returns (at: nat)
    requires i < |After(site, events).trace| && Spends(After(site, events).trace[i].1)
    requires var s := After(site, events);
             s.trace[i].0 < |s.flights| && Admitted(site, s, s.trace[i].0, env, d)
    ensures at < i && After(site, events).trace[at] == (After(site, events).trace[i].0, Decided(d))
  {
    var s := After(site, events);
    var k, n := StepOfPlan(site, events, i);
    assert s.flights[k].plan[0] == Decided(d);
    at := FoundIn(s.trace[..i], k, 0);
  }

  /** And a person is asked only about a message of such a rule, and only where one must be. */
  lemma {:induction false} AskedByItsRule(site: Site, events: seq<Event>, i: nat)
    returns (env: Envelope, d: Decision, r: nat)
    requires i < |After(site, events).trace| && After(site, events).trace[i].1.Prompted?
    ensures var s := After(site, events);
            var (k, rules) := (s.trace[i].0, site.setup.rules);
            && k < |s.flights|
            && var f := s.flights[k];
            && f.verdict.Some? && f.verdict.value.Ok? && site.setup.parse(f.m) == Some(env)
            && FirstToTake(rules, r, f.verdict.value.value.agent, env) && MustAsk(site.setup, rules[r].effect, env)
  {
    var s := After(site, events);
    var k, n := StepOfPlan(site, events, i);
    env, d := OnlyAdmittedAct(site, s, k, n);
    var gate, use, outcome := IntentIsLegal(site.setup, env, d, s.flights[k].a);
    AskedAndSpentOnce(site.setup, env, d, IntentPlan(site.setup, env, d, s.flights[k].a), gate, use, outcome, n, n);
    var agent := s.flights[k].verdict.value.value.agent;
    DecidedByFirst(site.setup.rules, agent, env, d);
    r := d.source.index;
    DecisionCarriesItsRule(site.setup.rules, RequestOf(agent, env), d, 0);
  }
}

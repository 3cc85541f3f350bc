/** Policy evaluation: the first covering rule, its first matching row, and the default-deny floor. */
module Policy {
  import opened Text
  import opened Matchers

  datatype Effect = Allow | NeedsConfirmation | Deny

  /** Ceilings; `None` is no ceiling from this side. */
  datatype Limits = Limits(maxResponseBytes: Option<nat>, sessionTtl: Option<nat>)

  const NO_LIMITS := Limits(None, None)

  datatype Pair = Pair(credRef: Matcher, targetUri: Matcher)

  datatype Rule = Rule(
    name: Option<string>,
    notifyOnUse: bool,
    effect: Effect,
    agentId: Matcher,
    credRef: Matcher,
    targetUri: Matcher,
    mechanism: Matcher,
    pairs: seq<Pair>,
    limits: Limits)

  datatype Request = Request(
    agentId: string,
    credRef: string,
    targetUri: string,
    mechanism: string,
    declared: Option<Limits>)

  datatype DecisionSource =
    | DefaultDeny
    | ByRule(index: nat, name: Option<string>, pair: Option<nat>)

  datatype Decision = Decision(effect: Effect, notifyOnUse: bool, source: DecisionSource, limits: Limits)

  // ---- Ceilings ----

  function MinOpt(a: Option<nat>, b: Option<nat>): Option<nat> {
    match (a, b)
    case (Some(x), Some(y)) => Some(if x < y then x else y)
    case (Some(x), None) => Some(x)
    case (None, Some(y)) => Some(y)
    case (None, None) => None
  }

  function MinWith(a: Limits, b: Limits): Limits {
    Limits(MinOpt(a.maxResponseBytes, b.maxResponseBytes), MinOpt(a.sessionTtl, b.sessionTtl))
  }

  /** `n` stays within the ceiling. */
  predicate Within(n: nat, ceiling: Option<nat>) {
    ceiling.Some? ==> n <= ceiling.value
  }

  /** The combined ceiling admits exactly what both sides admit. */
  lemma CeilingsOnlyNarrow(a: Limits, b: Limits, n: nat)
    ensures Within(n, MinWith(a, b).maxResponseBytes) <==>
            Within(n, a.maxResponseBytes) && Within(n, b.maxResponseBytes)
    ensures Within(n, MinWith(a, b).sessionTtl) <==> Within(n, a.sessionTtl) && Within(n, b.sessionTtl)
  {
  }

  // ---- Evaluation ----

  function Declared(req: Request): Limits {
    if req.declared.None? then NO_LIMITS else req.declared.value
  }

  ghost predicate AxesMatch(rule: Rule, req: Request) {
    && Accepts(rule.agentId, req.agentId)
    && Accepts(rule.credRef, req.credRef)
    && Accepts(rule.targetUri, req.targetUri)
    && Accepts(rule.mechanism, req.mechanism)
  }

  ghost predicate PairMatches(pair: Pair, req: Request) {
    Accepts(pair.credRef, req.credRef) && Accepts(pair.targetUri, req.targetUri)
  }

  /** The rule decides the request: its axes match and, if it has rows, so does one of them. */
  ghost predicate Covers(rule: Rule, req: Request) {
    AxesMatch(rule, req) && (rule.pairs == [] || exists i :: 0 <= i < |rule.pairs| && PairMatches(rule.pairs[i], req))
  }

  /** The first matching row of a rule that has rows. */
  ghost predicate BoundBy(rule: Rule, req: Request, pair: Option<nat>) {
    if rule.pairs == [] then pair.None?
    else
      && pair.Some?
      && pair.value < |rule.pairs|
      && PairMatches(rule.pairs[pair.value], req)
      && forall i :: 0 <= i < pair.value ==> !PairMatches(rule.pairs[i], req)
  }

  /** What a rule says once it has been chosen. */
  function Verdict(rule: Rule, index: nat, pair: Option<nat>, req: Request): Decision {
    Decision(rule.effect, rule.notifyOnUse, ByRule(index, rule.name, pair), MinWith(rule.limits, Declared(req)))
  }

  /**
   * The meaning of a ruleset, as a relation: the least covering rule with its least matching row,
   * or the default-deny floor when no rule covers.
   */
  ghost predicate Decides(rules: seq<Rule>, req: Request, d: Decision) {
    match d.source
    case DefaultDeny =>
      && d == Decision(Deny, false, DefaultDeny, Declared(req))
      && forall i :: 0 <= i < |rules| ==> !Covers(rules[i], req)
    case ByRule(index, _, pair) =>
      && index < |rules|
      && Covers(rules[index], req)
      && BoundBy(rules[index], req, pair)
      && d == Verdict(rules[index], index, pair, req)
      && forall i :: 0 <= i < index ==> !Covers(rules[i], req)
  }

  /** A ruleset gives each request at most one decision. */
  lemma DecisionIsUnique(rules: seq<Rule>, req: Request, d: Decision, e: Decision)
    requires Decides(rules, req, d) && Decides(rules, req, e)
    ensures d == e
  {
    if d.source.ByRule? && e.source.ByRule? {
      assert d.source.index == e.source.index;
      var rule := rules[d.source.index];
      if rule.pairs != [] {
        assert d.source.pair.value == e.source.pair.value;
      }
    }
  }

  // ---- What a decision carries ----

  /** `n` stays within the carried ceilings exactly when it stays within ours and, where declared, the request's own. */
  ghost predicate BothCeilings(n: nat, carried: Limits, ours: Limits, declared: Option<Limits>) {
    && (Within(n, carried.maxResponseBytes) <==>
          && Within(n, ours.maxResponseBytes)
          && (declared.Some? ==> Within(n, declared.value.maxResponseBytes)))
    && (Within(n, carried.sessionTtl) <==>
          Within(n, ours.sessionTtl) && (declared.Some? ==> Within(n, declared.value.sessionTtl)))
  }

  /** What the deciding rule says is what the decision says, and neither side's ceiling is lost or raised. */
  lemma DecisionCarriesItsRule(rules: seq<Rule>, req: Request, d: Decision, n: nat)
    requires Decides(rules, req, d) && d.source.ByRule?
    ensures d.source.index < |rules|
    ensures var rule := rules[d.source.index];
            && d.effect == rule.effect && d.notifyOnUse == rule.notifyOnUse && d.source.name == rule.name
            && BothCeilings(n, d.limits, rule.limits, req.declared)
  {
    CeilingsOnlyNarrow(rules[d.source.index].limits, Declared(req), n);
  }

  /** The floor denies without a notification and keeps the request's own ceilings. */
  lemma FloorDenies(rules: seq<Rule>, req: Request, d: Decision, n: nat)
    requires Decides(rules, req, d) && d.source.DefaultDeny?
    ensures d.effect == Deny && !d.notifyOnUse && BothCeilings(n, d.limits, NO_LIMITS, req.declared)
  {
  }

  // ---- The scan ----

  method AxesMethod(rule: Rule, req: Request) returns (ok: bool)
    ensures ok <==> AxesMatch(rule, req)
  {
    ok := Matches(rule.agentId, req.agentId);
    if ok { ok := Matches(rule.credRef, req.credRef); }
    if ok { ok := Matches(rule.targetUri, req.targetUri); }
    if ok { ok := Matches(rule.mechanism, req.mechanism); }
  }

  method FirstPair(rule: Rule, req: Request) returns (pair: Option<nat>)
    ensures pair.Some? ==> rule.pairs != [] && BoundBy(rule, req, pair)
    ensures pair.None? ==> forall i :: 0 <= i < |rule.pairs| ==> !PairMatches(rule.pairs[i], req)
  {
    for i := 0 to |rule.pairs|
      invariant forall k :: 0 <= k < i ==> !PairMatches(rule.pairs[k], req)
    {
      var ok := Matches(rule.pairs[i].credRef, req.credRef);
      if ok { ok := Matches(rule.pairs[i].targetUri, req.targetUri); }
      if ok { return Some(i); }
    }
    return None;
  }

  /** First match wins; total for every ruleset and request. */
  method Evaluate(rules: seq<Rule>, req: Request) returns (d: Decision)
    ensures Decides(rules, req, d)
    ensures d.source.ByRule? ==>
              && d.source.index < |rules|
              && var rule := rules[d.source.index];
              && d.effect == rule.effect && d.notifyOnUse == rule.notifyOnUse && d.source.name == rule.name
              && forall n: nat :: BothCeilings(n, d.limits, rule.limits, req.declared)
    ensures d.source.DefaultDeny? ==>
              d.effect == Deny && !d.notifyOnUse && forall n: nat :: BothCeilings(n, d.limits, NO_LIMITS, req.declared)
  {
    for index := 0 to |rules|
      invariant forall i :: 0 <= i < index ==> !Covers(rules[i], req)
    {
      var rule := rules[index];
      var axes := AxesMethod(rule, req);
      if axes {
        var pair := FirstPair(rule, req);
        if rule.pairs == [] || pair.Some? {
          d := Verdict(rule, index, pair, req);
          forall n: nat ensures BothCeilings(n, d.limits, rule.limits, req.declared) {
            DecisionCarriesItsRule(rules, req, d, n);
          }
          return;
        }
      }
    }
    d := Decision(Deny, false, DefaultDeny, Declared(req));
    forall n: nat ensures BothCeilings(n, d.limits, NO_LIMITS, req.declared) {
      FloorDenies(rules, req, d, n);
    }
  }

  /** Every ruleset decides every request. */
  lemma {:induction false} EveryRequestIsDecided(rules: seq<Rule>, req: Request) returns (d: Decision)
    ensures Decides(rules, req, d)
  {
    var index := 0;
    while index < |rules|
      invariant 0 <= index <= |rules|
      invariant forall i :: 0 <= i < index ==> !Covers(rules[i], req)
    {
      if Covers(rules[index], req) {
        var rule := rules[index];
        if rule.pairs == [] {
          d := Verdict(rule, index, None, req);
        } else {
          var row := LeastPair(rule, req);
          d := Verdict(rule, index, Some(row), req);
        }
        return;
      }
      index := index + 1;
    }
    d := Decision(Deny, false, DefaultDeny, Declared(req));
  }

  lemma LeastPair(rule: Rule, req: Request) returns (row: nat)
    requires exists i :: 0 <= i < |rule.pairs| && PairMatches(rule.pairs[i], req)
    ensures rule.pairs != [] && BoundBy(rule, req, Some(row))
  {
    row := 0;
    while !PairMatches(rule.pairs[row], req)
      invariant row < |rule.pairs|
      invariant forall i :: 0 <= i < row ==> !PairMatches(rule.pairs[i], req)
      decreases |rule.pairs| - row
    {
      row := row + 1;
    }
  }

  // ---- How edits to a ruleset move decisions ----

  /** Appending rules never changes a request some rule already decides. */
  lemma AppendKeepsDecided(rules: seq<Rule>, more: seq<Rule>, req: Request, d: Decision)
    requires Decides(rules, req, d) && d.source.ByRule?
    ensures Decides(rules + more, req, d)
  {
    assert forall i :: 0 <= i < |rules| ==> (rules + more)[i] == rules[i];
  }

  /** The decision with its rule index moved past an inserted rule. */
  function Shifted(d: Decision, at: nat): Decision {
    if d.source.ByRule? && d.source.index >= at
    then d.(source := d.source.(index := d.source.index + 1))
    else d
  }

  /**
   * Inserting a rule that does not cover the request, read right to left deleting one, moves at
   * most the reported index.
   */
  lemma NonCoveringRuleIsInert(rules: seq<Rule>, at: nat, extra: Rule, req: Request, d: Decision)
    requires at <= |rules| && !Covers(extra, req)
    ensures Decides(rules, req, d) <==> Decides(rules[..at] + [extra] + rules[at..], req, Shifted(d, at))
  {
    var wide := rules[..at] + [extra] + rules[at..];
    var e := Shifted(d, at);
    assert forall i :: 0 <= i < at ==> wide[i] == rules[i];
    assert forall i :: at <= i < |rules| ==> wide[i + 1] == rules[i];
    if Decides(rules, req, d) {
      forall i | 0 <= i < |wide| && (e.source.ByRule? ==> i < e.source.index)
        ensures !Covers(wide[i], req)
      {
        if i > at { assert wide[i] == rules[i - 1]; }
      }
    }
    if Decides(wide, req, e) && d.source.ByRule? && d.source.index >= at {
      assert d.source.index < |rules| && wide[d.source.index + 1] == rules[d.source.index];
      assert d == Verdict(rules[d.source.index], d.source.index, d.source.pair, req);
      forall i | 0 <= i < d.source.index
        ensures !Covers(rules[i], req)
      {
        if i >= at { assert wide[i + 1] == rules[i]; }
      }
    }
    if Decides(wide, req, e) && d.source.DefaultDeny? {
      forall i | 0 <= i < |rules|
        ensures !Covers(rules[i], req)
      {
        if i >= at { assert wide[i + 1] == rules[i]; }
      }
    }
    if Decides(wide, req, e) && d.source.ByRule? && d.source.index < at {
      assert wide[d.source.index] == rules[d.source.index];
    }
  }

  /** No permission without a rule that says so. */
  lemma PermissionNeedsCover(rules: seq<Rule>, req: Request, d: Decision)
    requires Decides(rules, req, d) && d.effect != Deny
    ensures exists i :: 0 <= i < |rules| && Covers(rules[i], req) && rules[i].effect == d.effect
  {
    assert Covers(rules[d.source.index], req);
  }
}

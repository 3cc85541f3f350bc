/** What every intent that reaches policy does, whatever the answers: gate, one use of the credential, evidence. */
module GatewayLaws {
  import opened Policy
  import opened Gateway

  /** A credential leaves the vault or a certificate is made. */
  predicate Spends(step: Step) {
    step.Resolved? || step.Minted?
  }

  /** What may happen between the gate and the audit record, with the outcome that record must carry. */
  predicate UseTold(use: seq<Step>, outcome: Outcome) {
    || (use == [] && outcome in {Denied, MechanismError, ConfirmationTimeout})
    || (use == [Resolved(false)] && outcome == CredentialUnresolved)
    || (use == [Minted(false)] && outcome == MechanismError)
    || (use == [Resolved(true)] && outcome == MechanismError)
    || (use == [Resolved(true), Injected(false)] && outcome == MechanismError)
    || (use == [Resolved(true), Injected(true)] && outcome == Proceeded)
    || (use in {[Resolved(true), Connected(false)], [Minted(true), Connected(false)]} && outcome == MechanismError)
    || (use in {[Resolved(true), Connected(true), SessionAdded], [Minted(true), Connected(true), SessionAdded]}
        && outcome == SessionOpened)
  }

  function ReplyTo(outcome: Outcome): Reply {
    match outcome
    case Proceeded => Success
    case SessionOpened => Success
    case Denied => Failed(PolicyDenied)
    case ConfirmationTimeout => Failed(ConfirmTimeout)
    case CredentialUnresolved => Failed(CredUnresolved)
    case _ => Failed(Mechanism)
  }

  /** The gate comes before any use; it is asked only when needed, and nothing follows a refusal. */
  predicate GateKept(needed: bool, denied: bool, gate: seq<Step>, use: seq<Step>, outcome: Outcome) {
    && gate in {[], [Prompted(true)], [Prompted(false)]}
    && (gate != [] ==> needed && !denied)
    && (use != [] && needed ==> gate == [Prompted(true)])
    && (gate == [Prompted(false)] <==> outcome == ConfirmationTimeout)
    && (denied <==> outcome == Denied)
    && (denied || outcome == ConfirmationTimeout ==> use == [])
  }

  function IntentPlan(setup: Setup, env: Envelope, d: Decision, a: Answers): Plan {
    Then(Decided(d), RoutePlan(setup, env, d, a))
  }

  ghost predicate Legal(
    setup: Setup, env: Envelope, d: Decision, p: Plan, gate: seq<Step>, use: seq<Step>, outcome: Outcome)
  {
    && p.steps == [Decided(d)] + gate + use + AuditSteps(setup.hub, d, outcome)
    && p.reply == ReplyTo(outcome)
    && UseTold(use, outcome)
    && GateKept(NeedsGate(setup, env, d), d.effect == Deny, gate, use, outcome)
  }

  /** A plan that starts past the gate. */
  ghost predicate Uses(setup: Setup, d: Decision, p: Plan, use: seq<Step>, outcome: Outcome) {
    && p.steps == use + AuditSteps(setup.hub, d, outcome)
    && p.reply == ReplyTo(outcome)
    && UseTold(use, outcome) && outcome !in {Denied, ConfirmationTimeout, IdentityFailed}
  }

  // ---- Which outcome for which request ----

  /** Session mechanisms, and the database mechanism without a statement, open sessions. */
  predicate OpensSession(env: Envelope) {
    || env.mechanism in {"ssh", "local-privilege"}
    || (env.mechanism == "db-scram" && env.operation.db.Some? && env.operation.db.value.statement.None?)
  }

  /** What a credential may be injected for: a statement, or an HTTP call that brings no Authorization of its own. */
  predicate Injectable(setup: Setup, env: Envelope) {
    if env.mechanism == "db-scram" then
      setup.postgres && env.operation.db.Some? && env.operation.db.value.statement.Some?
    else
      env.mechanism in {"http-bearer", "http-basic"}
      && env.operation.http.Some? && !env.operation.http.value.agentAuthorization
  }

  /** There is something to route to: a one-shot mechanism, or a session mechanism with a backend of its own. */
  predicate Routable(setup: Setup, env: Envelope) {
    || env.mechanism in {"http-bearer", "http-basic", "db-scram"}
    || (env.mechanism in {"ssh", "local-privilege"} && env.mechanism in setup.backends)
  }

  /**
   * A person must be asked: the rule says so, or it is a privileged local command that the rule allows and that the
   * operator has not pinned.
   */
  predicate MustAsk(setup: Setup, effect: Effect, env: Envelope) {
    || effect == NeedsConfirmation
    || (&& effect == Allow && env.mechanism == "local-privilege"
        && (setup.allowlist.Some? ==> !setup.allowlist.value(env.operation.command, env.operation.args)))
  }

  predicate Openable(setup: Setup, env: Envelope) {
    OpensSession(env) && env.mechanism in setup.backends
  }

  /** The vault is asked: for a session without a certificate, for a statement, or for an injectable call. */
  predicate AsksVault(setup: Setup, env: Envelope) {
    || (Openable(setup, env) && !("ca://" <= env.credRef))
    || (env.mechanism == "db-scram" && env.operation.db.Some? && env.operation.db.value.statement.Some?)
    || Injectable(setup, env)
  }

  /** The credential of a session: a certificate for a `ca://` reference, else a secret of the vault. */
  predicate Obtained(setup: Setup, env: Envelope, a: Answers) {
    if "ca://" <= env.credRef then setup.hasCa && a.enrolled && a.minted else a.resolved
  }

  /** The outcome past the gate, from the answers; any other is a mechanism error. */
  predicate UseEnds(setup: Setup, env: Envelope, a: Answers, outcome: Outcome) {
    && (outcome == CredentialUnresolved <==> AsksVault(setup, env) && !a.resolved)
    && (outcome == Proceeded <==> Injectable(setup, env) && a.resolved && a.injected)
    && (outcome == SessionOpened <==> Openable(setup, env) && Obtained(setup, env, a) && a.connected)
  }

  /** Each outcome of an intent, exactly; what is none of these is a mechanism error. */
  predicate Ended(setup: Setup, env: Envelope, d: Decision, a: Answers, outcome: Outcome) {
    var asked := MustAsk(setup, d.effect, env);
    var passes := d.effect != Deny && Routable(setup, env) && (asked ==> a.approved);
    && (outcome == Denied <==> d.effect == Deny)
    && (outcome == ConfirmationTimeout <==> d.effect != Deny && Routable(setup, env) && asked && !a.approved)
    && (outcome == CredentialUnresolved <==> passes && AsksVault(setup, env) && !a.resolved)
    && (outcome == Proceeded <==> passes && Injectable(setup, env) && a.resolved && a.injected)
    && (outcome == SessionOpened <==> passes && Openable(setup, env) && Obtained(setup, env, a) && a.connected)
    && outcome in {Denied, ConfirmationTimeout, CredentialUnresolved, Proceeded, SessionOpened, MechanismError}
  }

  // ---- Every intent is legal ----

  /** The outcome of an opening with a backend. */
  predicate OpeningEnds(setup: Setup, env: Envelope, a: Answers, outcome: Outcome) {
    outcome ==
    if Obtained(setup, env, a) then if a.connected then SessionOpened else MechanismError
    else if "ca://" <= env.credRef then MechanismError else CredentialUnresolved
  }

  lemma OpenUses(setup: Setup, env: Envelope, d: Decision, a: Answers) returns (use: seq<Step>, outcome: Outcome)
    ensures Uses(setup, d, OpenPlan(setup, env, d, a), use, outcome)
    ensures env.mechanism !in setup.backends ==> outcome == MechanismError
    ensures env.mechanism in setup.backends ==> OpeningEnds(setup, env, a, outcome)
  {
    use, outcome := [], MechanismError;
    if env.mechanism in setup.backends {
      var ca := "ca://" <= env.credRef;
      if !ca || (setup.hasCa && a.enrolled) {
        var ok := if ca then a.minted else a.resolved;
        var spent := if ca then Minted(ok) else Resolved(ok);
        if !ok {
          use, outcome := [spent], if ca then MechanismError else CredentialUnresolved;
        } else if !a.connected {
          use := [spent, Connected(false)];
        } else {
          use, outcome := [spent, Connected(true), SessionAdded], SessionOpened;
        }
      }
    }
  }

  lemma InjectUses(setup: Setup, d: Decision, a: Answers, ok: bool) returns (use: seq<Step>, outcome: Outcome)
    ensures Uses(setup, d, InjectPlan(setup, d, a, ok), use, outcome)
    ensures outcome == if !a.resolved then CredentialUnresolved else if ok then Proceeded else MechanismError
  {
    if a.resolved {
      use, outcome := [Resolved(true), Injected(ok)], if ok then Proceeded else MechanismError;
    } else {
      use, outcome := [Resolved(false)], CredentialUnresolved;
    }
  }

  lemma OneShotUses(setup: Setup, env: Envelope, d: Decision, a: Answers) returns (use: seq<Step>, outcome: Outcome)
    ensures Uses(setup, d, OneShotPlan(setup, env, d, a), use, outcome)
    ensures OneShot(env.mechanism) ==> UseEnds(setup, env, a, outcome)
    ensures outcome !in {Denied, ConfirmationTimeout, IdentityFailed, SessionClosed}
  {
    var op := env.operation;
    use, outcome := [], MechanismError;
    if env.mechanism == "db-scram" {
      if op.db.Some? {
        if op.db.value.statement.None? {
          use, outcome := OpenUses(setup, env, d, a);
        } else if setup.postgres {
          use, outcome := InjectUses(setup, d, a, a.injected);
        } else {
          use := [Resolved(a.resolved)];
          outcome := if a.resolved then MechanismError else CredentialUnresolved;
        }
      }
    } else if op.http.Some? && !op.http.value.agentAuthorization {
      use, outcome := InjectUses(setup, d, a, a.injected);
    }
  }

  lemma GatedIsLegal(setup: Setup, env: Envelope, d: Decision, a: Answers, rest: Plan, use: seq<Step>, outcome: Outcome)
    returns (gate: seq<Step>, used: seq<Step>, told: Outcome)
    requires d.effect != Deny && Uses(setup, d, rest, use, outcome)
    ensures Legal(setup, env, d, Then(Decided(d), Gated(setup, NeedsGate(setup, env, d), d, a, rest)), gate, used, told)
    ensures told == if NeedsGate(setup, env, d) && !a.approved then ConfirmationTimeout else outcome
  {
    if !NeedsGate(setup, env, d) {
      gate, used, told := [], use, outcome;
    } else if a.approved {
      gate, used, told := [Prompted(true)], use, outcome;
    } else {
      gate, used, told := [Prompted(false)], [], ConfirmationTimeout;
    }
    var p := Then(Decided(d), Gated(setup, NeedsGate(setup, env, d), d, a, rest));
    assert p.steps == [Decided(d)] + gate + used + AuditSteps(setup.hub, d, told);
  }

  /** Every intent that reaches policy: decided, gated if it must be, one use, one record that tells the truth. */
  lemma IntentIsLegal(setup: Setup, env: Envelope, d: Decision, a: Answers)
    returns (gate: seq<Step>, use: seq<Step>, outcome: Outcome)
    ensures Legal(setup, env, d, IntentPlan(setup, env, d, a), gate, use, outcome)
  {
    gate, use, outcome := IntentEnds(setup, env, d, a);
  }

  lemma EndsAtTheGate(setup: Setup, env: Envelope, d: Decision, a: Answers, outcome: Outcome, told: Outcome)
    requires d.effect != Deny && Routable(setup, env) && UseEnds(setup, env, a, outcome)
    requires outcome !in {Denied, ConfirmationTimeout, IdentityFailed, SessionClosed}
    requires told == if NeedsGate(setup, env, d) && !a.approved then ConfirmationTimeout else outcome
    ensures Ended(setup, env, d, a, told)
  {
    assert NeedsGate(setup, env, d) <==> MustAsk(setup, d.effect, env);
  }

  lemma OpeningIsUse(setup: Setup, env: Envelope, a: Answers, outcome: Outcome)
    requires Openable(setup, env) && OpeningEnds(setup, env, a, outcome)
    ensures UseEnds(setup, env, a, outcome)
  {
  }

  /** And its outcome is exactly the one that the message, the setup and the answers call for. */
  lemma IntentEnds(setup: Setup, env: Envelope, d: Decision, a: Answers)
    returns (gate: seq<Step>, use: seq<Step>, outcome: Outcome)
    ensures Legal(setup, env, d, IntentPlan(setup, env, d, a), gate, use, outcome)
    ensures Ended(setup, env, d, a, outcome)
  {
    if d.effect == Deny {
      gate, use, outcome := [], [], Denied;
    } else if OneShot(env.mechanism) {
      var u, o := OneShotUses(setup, env, d, a);
      gate, use, outcome := GatedIsLegal(setup, env, d, a, OneShotPlan(setup, env, d, a), u, o);
      EndsAtTheGate(setup, env, d, a, o, outcome);
    } else if env.mechanism !in {"ssh", "local-privilege"} || env.mechanism !in setup.backends {
      gate, use, outcome := [], [], MechanismError;
    } else {
      var u, o := OpenUses(setup, env, d, a);
      gate, use, outcome := GatedIsLegal(setup, env, d, a, OpenPlan(setup, env, d, a), u, o);
      OpeningIsUse(setup, env, a, o);
      EndsAtTheGate(setup, env, d, a, o, outcome);
    }
  }

  // ---- Which use for which request ----

  predicate StepFits(setup: Setup, env: Envelope, a: Answers, step: Step) {
    && (step.Minted? ==>
          OpensSession(env) && "ca://" <= env.credRef && setup.hasCa && a.enrolled && step.ok == a.minted)
    && (step.Resolved? ==> step.ok == a.resolved && (OpensSession(env) ==> !("ca://" <= env.credRef)))
    && (step.Connected? ==> OpensSession(env) && env.mechanism in setup.backends && step.ok == a.connected)
    && (step.Injected? ==> Injectable(setup, env) && step.ok == a.injected)
  }

  predicate UseFits(setup: Setup, env: Envelope, a: Answers, steps: seq<Step>) {
    forall i :: 0 <= i < |steps| ==> StepFits(setup, env, a, steps[i])
  }

  lemma ThenFits(setup: Setup, env: Envelope, a: Answers, step: Step, p: Plan)
    requires StepFits(setup, env, a, step) && UseFits(setup, env, a, p.steps)
    ensures UseFits(setup, env, a, Then(step, p).steps)
  {
  }

  lemma EndsFits(setup: Setup, env: Envelope, d: Decision, a: Answers, outcome: Outcome, reply: Reply)
    ensures UseFits(setup, env, a, Ends(setup, d, outcome, reply).steps)
  {
  }

  lemma ConnectFits(setup: Setup, env: Envelope, d: Decision, a: Answers)
    requires OpensSession(env) && env.mechanism in setup.backends
    ensures UseFits(setup, env, a, ConnectPlan(setup, d, a).steps)
  {
    EndsFits(setup, env, d, a, SessionOpened, Success);
    EndsFits(setup, env, d, a, MechanismError, Failed(Mechanism));
    ThenFits(setup, env, a, SessionAdded, Ends(setup, d, SessionOpened, Success));
  }

  lemma OpenFits(setup: Setup, env: Envelope, d: Decision, a: Answers)
    requires OpensSession(env)
    ensures UseFits(setup, env, a, OpenPlan(setup, env, d, a).steps)
  {
    EndsFits(setup, env, d, a, MechanismError, Failed(Mechanism));
    EndsFits(setup, env, d, a, CredentialUnresolved, Failed(CredUnresolved));
    if env.mechanism in setup.backends {
      ConnectFits(setup, env, d, a);
      var ca := "ca://" <= env.credRef;
      if !ca && a.resolved {
        ThenFits(setup, env, a, Resolved(true), ConnectPlan(setup, d, a));
      } else if ca && setup.hasCa && a.enrolled && a.minted {
        ThenFits(setup, env, a, Minted(true), ConnectPlan(setup, d, a));
      }
    }
  }

  lemma InjectFits(setup: Setup, env: Envelope, d: Decision, a: Answers)
    requires Injectable(setup, env)
    ensures UseFits(setup, env, a, InjectPlan(setup, d, a, a.injected).steps)
  {
    EndsFits(setup, env, d, a, Proceeded, Success);
    EndsFits(setup, env, d, a, MechanismError, Failed(Mechanism));
    EndsFits(setup, env, d, a, CredentialUnresolved, Failed(CredUnresolved));
    ThenFits(setup, env, a, Injected(a.injected),
             if a.injected then Ends(setup, d, Proceeded, Success)
             else Ends(setup, d, MechanismError, Failed(Mechanism)));
  }

  lemma OneShotFits(setup: Setup, env: Envelope, d: Decision, a: Answers)
    requires OneShot(env.mechanism)
    ensures UseFits(setup, env, a, OneShotPlan(setup, env, d, a).steps)
  {
    EndsFits(setup, env, d, a, MechanismError, Failed(Mechanism));
    EndsFits(setup, env, d, a, CredentialUnresolved, Failed(CredUnresolved));
    if OpensSession(env) {
      OpenFits(setup, env, d, a);
    } else if Injectable(setup, env) {
      InjectFits(setup, env, d, a);
    }
  }

  lemma GatedFits(setup: Setup, env: Envelope, needed: bool, d: Decision, a: Answers, rest: Plan)
    requires UseFits(setup, env, a, rest.steps)
    ensures UseFits(setup, env, a, Then(Decided(d), Gated(setup, needed, d, a, rest)).steps)
  {
    var p := Gated(setup, needed, d, a, rest);
    EndsFits(setup, env, d, a, ConfirmationTimeout, Failed(ConfirmTimeout));
    if needed {
      ThenFits(setup, env, a, Prompted(a.approved),
               if a.approved then rest else Ends(setup, d, ConfirmationTimeout, Failed(ConfirmTimeout)));
    }
    ThenFits(setup, env, a, Decided(d), p);
  }

  /**
   * A certificate is minted only for a `ca://` session of an enrolled agent, a channel is opened only by a
   * configured backend, and a credential is injected only into a parsed operation without its own Authorization.
   */
  lemma UseFitsTheRequest(setup: Setup, env: Envelope, d: Decision, a: Answers)
    ensures UseFits(setup, env, a, IntentPlan(setup, env, d, a).steps)
  {
    EndsFits(setup, env, d, a, Denied, Failed(PolicyDenied));
    EndsFits(setup, env, d, a, MechanismError, Failed(Mechanism));
    if d.effect != Deny {
      if OneShot(env.mechanism) {
        OneShotFits(setup, env, d, a);
        GatedFits(setup, env, NeedsGate(setup, env, d), d, a, OneShotPlan(setup, env, d, a));
      } else if env.mechanism in {"ssh", "local-privilege"} && env.mechanism in setup.backends {
        OpenFits(setup, env, d, a);
        GatedFits(setup, env, NeedsGate(setup, env, d), d, a, OpenPlan(setup, env, d, a));
      }
    }
  }

  // ---- Read off a legal plan ----

  /** A credential is fetched only past a decision that is not a denial and, where the gate is needed, its approval. */
  lemma SpentPastTheGate(setup: Setup, env: Envelope, d: Decision, p: Plan,
                         gate: seq<Step>, use: seq<Step>, outcome: Outcome, i: nat)
    requires Legal(setup, env, d, p, gate, use, outcome) && i < |p.steps| && Spends(p.steps[i])
    ensures d.effect != Deny && i >= 1 && p.steps[0] == Decided(d)
    ensures NeedsGate(setup, env, d) ==> i >= 2 && p.steps[1] == Prompted(true)
  {
  }

  /** Each kind of step has one place in the plan. */
  lemma Places(setup: Setup, env: Envelope, d: Decision, p: Plan,
               gate: seq<Step>, use: seq<Step>, outcome: Outcome, i: nat)
    requires Legal(setup, env, d, p, gate, use, outcome) && i < |p.steps|
    ensures p.steps[i].Decided? ==> i == 0
    ensures p.steps[i].Prompted? ==> i == 1 && gate == [p.steps[1]]
    ensures Spends(p.steps[i]) ==> i == 1 + |gate| && use != [] && use[0] == p.steps[i]
    ensures p.steps[i].Connected? || p.steps[i].Injected? ==>
              i == 2 + |gate| && p.steps[i - 1] in {Resolved(true), Minted(true)}
    ensures p.steps[i].SessionAdded? ==> i == 3 + |gate| && p.steps[i - 1] == Connected(true)
    ensures p.steps[i].Audited? ==> i == 1 + |gate| + |use| && p.steps[i] == Audited(d.effect, outcome)
    ensures p.steps[i].Fed? ==> i == 2 + |gate| + |use| && p.steps[i] == Fed(d.effect, outcome)
  {
    if 1 + |gate| <= i < 1 + |gate| + |use| {
      assert p.steps[i] == use[i - 1 - |gate|];
    }
  }

  /** One prompt and one credential at most, and a prompt only where the gate is needed. */
  lemma AskedAndSpentOnce(setup: Setup, env: Envelope, d: Decision, p: Plan,
                          gate: seq<Step>, use: seq<Step>, outcome: Outcome, i: nat, j: nat)
    requires Legal(setup, env, d, p, gate, use, outcome) && i < |p.steps| && j < |p.steps|
    ensures p.steps[i].Prompted? ==> NeedsGate(setup, env, d) && d.effect != Deny
    ensures p.steps[i].Prompted? && p.steps[j].Prompted? ==> i == j
    ensures Spends(p.steps[i]) && Spends(p.steps[j]) ==> i == j
  {
    Places(setup, env, d, p, gate, use, outcome, i);
    Places(setup, env, d, p, gate, use, outcome, j);
  }

  /** Exactly one record, after everything but the feed; the feed hears exactly of denials and of notified rules. */
  lemma OneRecordThenTheFeed(setup: Setup, env: Envelope, d: Decision, p: Plan,
                             gate: seq<Step>, use: seq<Step>, outcome: Outcome)
    requires Legal(setup, env, d, p, gate, use, outcome)
    ensures Audited(d.effect, outcome) in p.steps
    ensures forall i, j ::
              0 <= i < |p.steps| && 0 <= j < |p.steps| && p.steps[i].Audited? && p.steps[j].Audited? ==> i == j
    ensures forall i, j :: 0 <= i < j < |p.steps| && p.steps[i].Audited? ==> p.steps[j].Fed?
    ensures Fed(d.effect, outcome) in p.steps <==> setup.hub && (d.effect == Deny || d.notifyOnUse)
  {
    var at := 1 + |gate| + |use|;
    assert p.steps[at] == Audited(d.effect, outcome);
    assert setup.hub && (d.effect == Deny || d.notifyOnUse) ==> p.steps[at + 1] == Fed(d.effect, outcome);
    forall i | 0 <= i < |p.steps|
      ensures p.steps[i].Audited? <==> i == at
      ensures i > at ==> p.steps[i].Fed?
      ensures p.steps[i].Fed? ==> i == at + 1
    {
      Places(setup, env, d, p, gate, use, outcome, i);
    }
  }

  /** The record says what happened: each outcome is written exactly when the step that defines it took place. */
  lemma RecordTellsTheTruth(setup: Setup, env: Envelope, d: Decision, p: Plan,
                            gate: seq<Step>, use: seq<Step>, outcome: Outcome)
    requires Legal(setup, env, d, p, gate, use, outcome)
    ensures outcome == Denied <==> d.effect == Deny
    ensures outcome == ConfirmationTimeout <==> Prompted(false) in p.steps
    ensures outcome == CredentialUnresolved <==> Resolved(false) in p.steps
    ensures outcome == Proceeded <==> Injected(true) in p.steps
    ensures outcome == SessionOpened <==> SessionAdded in p.steps
    ensures p.reply == Success <==> outcome in {Proceeded, SessionOpened}
  {
    assert forall x :: x in p.steps <==>
      x == Decided(d) || x in gate || x in use || x in AuditSteps(setup.hub, d, outcome);
    RecordOfUse(use, outcome);
  }

  lemma RecordOfUse(use: seq<Step>, outcome: Outcome)
    requires UseTold(use, outcome)
    ensures forall x :: x in use ==> !x.Prompted?
    ensures outcome == CredentialUnresolved <==> Resolved(false) in use
    ensures outcome == Proceeded <==> Injected(true) in use
    ensures outcome == SessionOpened <==> SessionAdded in use
  {
  }
}

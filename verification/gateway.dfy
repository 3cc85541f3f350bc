/**
 * The gateway spine: identity, policy, mechanism routing, human gate, credential, injection, audit.
 * Calls out of the gateway (the gate, the vault, the certificate authority, the target) are answered
 * by parameters; what the gateway does is recorded as a list of effects.
 */
module Gateway {
  import opened Text
  import opened Policy
  import Attestation

  // ---- Messages and setup ----

  datatype Kind = Intent | Command | Close | Unsupported

  /** What the typed parses of an operation body find in it. */
  datatype Operation = Operation(
    http: Option<HttpOperation>,
    db: Option<DbOperation>,
    command: string,
    args: seq<string>)

  datatype HttpOperation = HttpOperation(agentAuthorization: bool)

  datatype DbOperation = DbOperation(statement: Option<string>)

  datatype Envelope = Envelope(
    credRef: string,
    targetUri: string,
    mechanism: string,
    constraints: Option<Limits>,
    operation: Operation)

  /** `postgres` says whether the one-shot database path is compiled in, `hub` whether a feed is attached. */
  datatype Setup = Setup(
    rules: seq<Rule>,
    kind: Attestation.Message -> Kind,
    parse: Attestation.Message -> Option<Envelope>,
    handle: Attestation.Message -> Option<string>,
    backends: set<string>,
    allowlist: Option<(string, seq<string>) -> bool>,
    hasCa: bool,
    postgres: bool,
    hub: bool)

  /** How the outside would answer each call the gateway may make for one message. */
  datatype Answers = Answers(
    approved: bool, resolved: bool, enrolled: bool, minted: bool, connected: bool, injected: bool,
    session: SessionAnswers)

  /**
   * How the session table and the channel would answer a frame: the table has the agent's session, the channel takes
   * the input and has exited, and the session is still in the table then.
   */
  datatype SessionAnswers = SessionAnswers(found: bool, written: bool, exited: bool, still: bool)

  // ---- Effects ----

  datatype Outcome =
    | IdentityFailed
    | Denied
    | MechanismError
    | ConfirmationTimeout
    | CredentialUnresolved
    | Proceeded
    | SessionOpened
    | SessionClosed

  datatype Step =
    | Decided(decision: Decision)
    | Prompted(approved: bool)
    | Resolved(ok: bool)
    | Minted(ok: bool)
    | Connected(ok: bool)
    | Injected(ok: bool)
    | SessionAdded
    | Relayed(ok: bool)
    | SessionTaken
    | Summarised
    | Audited(effect: Effect, outcome: Outcome)
    | Fed(effect: Effect, outcome: Outcome)

  datatype Code =
    | GatewayHalted
    | Identity(error: Attestation.IdentityError)
    | PolicyDenied
    | ConfirmTimeout
    | Mechanism
    | CredUnresolved
    | SessionExpired

  datatype Reply = Failed(code: Code) | Success | Output(closed: bool) | Closed

  datatype Plan = Plan(steps: seq<Step>, reply: Reply)

  // ---- Audit ----

  /** Evidence is unconditional; the feed hears of denials and of what the rule asked to be told. */
  function AuditSteps(hub: bool, d: Decision, outcome: Outcome): seq<Step> {
    [Audited(d.effect, outcome)]
    + if hub && (d.effect == Deny || d.notifyOnUse) then [Fed(d.effect, outcome)] else []
  }

  function Ends(setup: Setup, d: Decision, outcome: Outcome, reply: Reply): Plan {
    Plan(AuditSteps(setup.hub, d, outcome), reply)
  }

  function Then(step: Step, p: Plan): Plan {
    Plan([step] + p.steps, p.reply)
  }

  // ---- The spine ----

  /** The credential is spent once to connect; a bound handle comes back. */
  function ConnectPlan(setup: Setup, d: Decision, a: Answers): Plan {
    if a.connected then Then(Connected(true), Then(SessionAdded, Ends(setup, d, SessionOpened, Success)))
    else Then(Connected(false), Ends(setup, d, MechanismError, Failed(Mechanism)))
  }

  /** A `ca://` reference is minted, anything else is resolved by the vault. */
  function OpenPlan(setup: Setup, env: Envelope, d: Decision, a: Answers): Plan {
    var refused := Ends(setup, d, MechanismError, Failed(Mechanism));
    if env.mechanism !in setup.backends then refused
    else if "ca://" <= env.credRef then
      if !setup.hasCa || !a.enrolled then refused
      else if a.minted then Then(Minted(true), ConnectPlan(setup, d, a))
      else Then(Minted(false), refused)
    else if a.resolved then Then(Resolved(true), ConnectPlan(setup, d, a))
    else Then(Resolved(false), Ends(setup, d, CredentialUnresolved, Failed(CredUnresolved)))
  }

  function InjectPlan(setup: Setup, d: Decision, a: Answers, ok: bool): Plan {
    if a.resolved then
      if ok then Then(Resolved(true), Then(Injected(true), Ends(setup, d, Proceeded, Success)))
      else Then(Resolved(true), Then(Injected(false), Ends(setup, d, MechanismError, Failed(Mechanism))))
    else Then(Resolved(false), Ends(setup, d, CredentialUnresolved, Failed(CredUnresolved)))
  }

  /** Without the database path compiled in, the credential is resolved and dropped. */
  function DropPlan(setup: Setup, d: Decision, a: Answers): Plan {
    if a.resolved then Then(Resolved(true), Ends(setup, d, MechanismError, Failed(Mechanism)))
    else Then(Resolved(false), Ends(setup, d, CredentialUnresolved, Failed(CredUnresolved)))
  }

  function OneShotPlan(setup: Setup, env: Envelope, d: Decision, a: Answers): Plan {
    var refused := Ends(setup, d, MechanismError, Failed(Mechanism));
    if env.mechanism == "db-scram" then
      if env.operation.db.None? then refused
      else if env.operation.db.value.statement.None? then OpenPlan(setup, env, d, a)
      else if setup.postgres then InjectPlan(setup, d, a, a.injected)
      else DropPlan(setup, d, a)
    else if env.operation.http.None? || env.operation.http.value.agentAuthorization then refused
    else InjectPlan(setup, d, a, a.injected)
  }

  function Gated(setup: Setup, needed: bool, d: Decision, a: Answers, rest: Plan): Plan {
    if !needed then rest
    else if a.approved then Then(Prompted(true), rest)
    else Then(Prompted(false), Ends(setup, d, ConfirmationTimeout, Failed(ConfirmTimeout)))
  }

  predicate OneShot(mechanism: string) {
    mechanism in {"http-bearer", "http-basic", "db-scram"}
  }

  predicate Pinned(setup: Setup, op: Operation) {
    setup.allowlist.Some? && setup.allowlist.value(op.command, op.args)
  }

  /** A privileged local command takes the gate even when policy allows it, unless it is pinned. */
  predicate NeedsGate(setup: Setup, env: Envelope, d: Decision) {
    || d.effect == NeedsConfirmation
    || (env.mechanism == "local-privilege" && d.effect == Allow && !Pinned(setup, env.operation))
  }

  function RoutePlan(setup: Setup, env: Envelope, d: Decision, a: Answers): Plan {
    var refused := Ends(setup, d, MechanismError, Failed(Mechanism));
    if d.effect == Deny then Ends(setup, d, Denied, Failed(PolicyDenied))
    else if OneShot(env.mechanism) then Gated(setup, NeedsGate(setup, env, d), d, a, OneShotPlan(setup, env, d, a))
    else if env.mechanism !in {"ssh", "local-privilege"} || env.mechanism !in setup.backends then refused
    else Gated(setup, NeedsGate(setup, env, d), d, a, OpenPlan(setup, env, d, a))
  }

  function RequestOf(agent: string, env: Envelope): Request {
    Request(agent, env.credRef, env.targetUri, env.mechanism, env.constraints)
  }

  lemma SomeDecision(rules: seq<Rule>, req: Request)
    ensures exists d :: Decides(rules, req, d)
  {
    var d := EveryRequestIsDecided(rules, req);
  }

  ghost function DecisionFor(rules: seq<Rule>, req: Request): (d: Decision)
    ensures Decides(rules, req, d)
  {
    SomeDecision(rules, req);
    var d :| Decides(rules, req, d);
    d
  }

  // ---- Session frames ----

  /** A removed session is summarised on the feed, where there is one. */
  function TeardownSteps(hub: bool): seq<Step> {
    [SessionTaken] + if hub then [Summarised] else []
  }

  const CLOSED_RECORD := Audited(Allow, SessionClosed)

  function ClosePlan(setup: Setup, a: SessionAnswers): Plan {
    if a.found then Plan(TeardownSteps(setup.hub) + [CLOSED_RECORD], Closed)
    else Plan([], Failed(SessionExpired))
  }

  /** Whoever finds the channel exited leaves the record, even if the session was removed meanwhile. */
  function RelayPlan(setup: Setup, a: SessionAnswers): Plan {
    if !a.found then Plan([], Failed(SessionExpired))
    else if !a.written then Plan([Relayed(false)], Failed(Mechanism))
    else if !a.exited then Plan([Relayed(true)], Output(false))
    else
      Plan([Relayed(true)] + (if a.still then TeardownSteps(setup.hub) else []) + [CLOSED_RECORD], Output(true))
  }

  function FramePlan(setup: Setup, m: Attestation.Message, a: Answers): Plan {
    if setup.handle(m).None? then Plan([], Failed(SessionExpired))
    else if setup.kind(m).Close? then ClosePlan(setup, a.session)
    else RelayPlan(setup, a.session)
  }

  type Judgement = Result<Attestation.Verified, Attestation.IdentityError>

  /** Everything the gateway does for one message once its identity has been judged. */
  ghost function PlanFor(setup: Setup, m: Attestation.Message, v: Judgement, a: Answers): Plan {
    match setup.kind(m)
    case Unsupported => Plan([], Failed(Mechanism))
    case Command => if v.Ok? then FramePlan(setup, m, a) else Plan([], Failed(Identity(v.error)))
    case Close => if v.Ok? then FramePlan(setup, m, a) else Plan([], Failed(Identity(v.error)))
    case Intent =>
      if v.Err? then Plan([Audited(Deny, IdentityFailed)], Failed(Identity(v.error)))
      else
        var env := setup.parse(m);
        if env.None? then Plan([], Failed(Mechanism))
        else
          var d := DecisionFor(setup.rules, RequestOf(v.value.agent, env.value));
          Then(Decided(d), RoutePlan(setup, env.value, d, a))
  }

  lemma Regroup(done: seq<Step>, step: Step, rest: seq<Step>)
    ensures (done + [step]) + rest == done + ([step] + rest)
  {
  }

  // ---- The code ----

  class Broker {
    const setup: Setup
    const attestor: Attestation.Attestor
    var haltReason: Option<string>
    var trace: seq<Step>

    constructor (setup: Setup, attestor: Attestation.Attestor)
      ensures this.setup == setup && this.attestor == attestor && haltReason == None && trace == []
    {
      this.setup, this.attestor := setup, attestor;
      haltReason, trace := None, [];
    }

    /** The first reason wins. */
    method Halt(reason: string)
      modifies this`haltReason
      ensures haltReason == if old(haltReason).None? then Some(reason) else old(haltReason)
    {
      if haltReason.None? { haltReason := Some(reason); }
    }

    method AuditDecision(d: Decision, outcome: Outcome)
      modifies this`trace
      ensures trace == old(trace) + AuditSteps(setup.hub, d, outcome)
    {
      trace := trace + [Audited(d.effect, outcome)];
      if d.effect == Deny || d.notifyOnUse {
        if setup.hub { trace := trace + [Fed(d.effect, outcome)]; }
      }
    }

    method OpenSession(env: Envelope, d: Decision, a: Answers) returns (reply: Reply)
      modifies this`trace
      ensures var p := OpenPlan(setup, env, d, a); trace == old(trace) + p.steps && reply == p.reply
    {
      if env.mechanism !in setup.backends {
        AuditDecision(d, MechanismError);
        return Failed(Mechanism);
      }
      if "ca://" <= env.credRef {
        if !setup.hasCa || !a.enrolled {
          AuditDecision(d, MechanismError);
          return Failed(Mechanism);
        }
        trace := trace + [Minted(a.minted)];
        if !a.minted {
          AuditDecision(d, MechanismError);
          return Failed(Mechanism);
        }
      } else {
        trace := trace + [Resolved(a.resolved)];
        if !a.resolved {
          AuditDecision(d, CredentialUnresolved);
          return Failed(CredUnresolved);
        }
      }
      trace := trace + [Connected(a.connected)];
      if !a.connected {
        AuditDecision(d, MechanismError);
        return Failed(Mechanism);
      }
      trace := trace + [SessionAdded];
      AuditDecision(d, SessionOpened);
      return Success;
    }

    /** Resolve as late as possible, inject, forget. */
    method Inject(d: Decision, a: Answers) returns (reply: Reply)
      modifies this`trace
      ensures var p := InjectPlan(setup, d, a, a.injected); trace == old(trace) + p.steps && reply == p.reply
    {
      trace := trace + [Resolved(a.resolved)];
      if !a.resolved {
        AuditDecision(d, CredentialUnresolved);
        return Failed(CredUnresolved);
      }
      trace := trace + [Injected(a.injected)];
      if a.injected {
        AuditDecision(d, Proceeded);
        return Success;
      }
      AuditDecision(d, MechanismError);
      return Failed(Mechanism);
    }

    method RunOneShot(env: Envelope, d: Decision, a: Answers) returns (reply: Reply)
      modifies this`trace
      ensures var p := OneShotPlan(setup, env, d, a); trace == old(trace) + p.steps && reply == p.reply
    {
      if env.mechanism == "db-scram" {
        if env.operation.db.None? {
          AuditDecision(d, MechanismError);
          return Failed(Mechanism);
        }
        if env.operation.db.value.statement.Some? {
          if setup.postgres { reply := Inject(d, a); return; }
          trace := trace + [Resolved(a.resolved)];
          if !a.resolved {
            AuditDecision(d, CredentialUnresolved);
            return Failed(CredUnresolved);
          }
          AuditDecision(d, MechanismError);
          return Failed(Mechanism);
        }
        reply := OpenSession(env, d, a);
        return;
      }
      if env.operation.http.None? || env.operation.http.value.agentAuthorization {
        AuditDecision(d, MechanismError);
        return Failed(Mechanism);
      }
      reply := Inject(d, a);
    }

    /** Asks the human when asked to; an answer other than approval ends the message here. */
    method Confirm(needed: bool, d: Decision, a: Answers) returns (passed: bool)
      modifies this`trace
      ensures passed == (!needed || a.approved)
      ensures !needed ==> trace == old(trace)
      ensures needed && a.approved ==> trace == old(trace) + [Prompted(true)]
      ensures needed && !a.approved ==>
                trace == old(trace) + ([Prompted(false)] + AuditSteps(setup.hub, d, ConfirmationTimeout))
    {
      if needed {
        trace := trace + [Prompted(a.approved)];
        if !a.approved {
          AuditDecision(d, ConfirmationTimeout);
          Regroup(old(trace), Prompted(false), AuditSteps(setup.hub, d, ConfirmationTimeout));
          return false;
        }
      }
      return true;
    }

    method RouteSession(env: Envelope, d: Decision, a: Answers) returns (reply: Reply)
      requires d.effect != Deny && env.mechanism in {"ssh", "local-privilege"}
      modifies this`trace
      ensures var p := RoutePlan(setup, env, d, a); trace == old(trace) + p.steps && reply == p.reply
    {
      if env.mechanism !in setup.backends {
        AuditDecision(d, MechanismError);
        return Failed(Mechanism);
      }
      var effect := d.effect;
      if env.mechanism == "local-privilege" {
        var pinned := setup.allowlist.Some? && setup.allowlist.value(env.operation.command, env.operation.args);
        if !pinned && effect == Allow { effect := NeedsConfirmation; }
      }
      var passed := Confirm(effect == NeedsConfirmation, d, a);
      if !passed { return Failed(ConfirmTimeout); }
      reply := OpenSession(env, d, a);
      Regroup(old(trace), Prompted(true), OpenPlan(setup, env, d, a).steps);
    }

    method Route(env: Envelope, d: Decision, a: Answers) returns (reply: Reply)
      modifies this`trace
      ensures var p := RoutePlan(setup, env, d, a); trace == old(trace) + p.steps && reply == p.reply
    {
      if d.effect == Deny {
        AuditDecision(d, Denied);
        return Failed(PolicyDenied);
      }
      if !OneShot(env.mechanism) {
        if env.mechanism == "ssh" || env.mechanism == "local-privilege" {
          reply := RouteSession(env, d, a);
          return;
        }
        AuditDecision(d, MechanismError);
        return Failed(Mechanism);
      }
      var passed := Confirm(d.effect == NeedsConfirmation, d, a);
      if !passed { return Failed(ConfirmTimeout); }
      reply := RunOneShot(env, d, a);
      Regroup(old(trace), Prompted(true), OneShotPlan(setup, env, d, a).steps);
    }

    method HandleIntent(m: Attestation.Message, now: int, a: Answers) returns (reply: Reply)
      requires setup.kind(m) == Intent
      modifies this`trace, attestor.cache
      ensures var (s, v) := Attestation.Verify(attestor.id, attestor.cache.cfg, old(attestor.cache.Snapshot()), m, now);
              var p := PlanFor(setup, m, v, a);
              attestor.cache.Snapshot() == s && trace == old(trace) + p.steps && reply == p.reply
      ensures var v := Attestation.Verify(attestor.id, attestor.cache.cfg, old(attestor.cache.Snapshot()), m, now).1;
              v.Ok? && setup.parse(m).Some? ==>
                && |trace| > |old(trace)| && trace[|old(trace)|].Decided?
                && var env := setup.parse(m).value;
                var asked := Request(v.value.agent, env.credRef, env.targetUri, env.mechanism, env.constraints);
                Decides(setup.rules, asked, trace[|old(trace)|].decision)
    {
      var v := attestor.VerifyMessage(m, now);
      if v.Err? {
        trace := trace + [Audited(Deny, IdentityFailed)];
        return Failed(Identity(v.error));
      }
      var env := setup.parse(m);
      if env.None? { return Failed(Mechanism); }
      var req := RequestOf(v.value.agent, env.value);
      var d := Evaluate(setup.rules, req);
      DecisionIsUnique(setup.rules, req, d, DecisionFor(setup.rules, req));
      trace := trace + [Decided(d)];
      reply := Route(env.value, d, a);
      Regroup(old(trace), Decided(d), RoutePlan(setup, env.value, d, a).steps);
    }

    /** The session has left the table: its summary goes to the feed. */
    method TearDown()
      modifies this`trace
      ensures trace == old(trace) + TeardownSteps(setup.hub)
    {
      trace := trace + [SessionTaken];
      if setup.hub { trace := trace + [Summarised]; }
    }

    method CloseSession(a: SessionAnswers) returns (reply: Reply)
      modifies this`trace
      ensures var p := ClosePlan(setup, a); trace == old(trace) + p.steps && reply == p.reply
    {
      if !a.found { return Failed(SessionExpired); }
      TearDown();
      trace := trace + [CLOSED_RECORD];
      return Closed;
    }

    method RelayInput(a: SessionAnswers) returns (reply: Reply)
      modifies this`trace
      ensures var p := RelayPlan(setup, a); trace == old(trace) + p.steps && reply == p.reply
    {
      if !a.found { return Failed(SessionExpired); }
      trace := trace + [Relayed(a.written)];
      if !a.written { return Failed(Mechanism); }
      if !a.exited { return Output(false); }
      if a.still { TearDown(); }
      trace := trace + [CLOSED_RECORD];
      return Output(true);
    }

    /** Full verification first, then the handle, then the session. */
    method HandleFrame(m: Attestation.Message, now: int, a: Answers) returns (reply: Reply)
      requires setup.kind(m) in {Command, Close}
      modifies this`trace, attestor.cache
      ensures var (s, v) := Attestation.Verify(attestor.id, attestor.cache.cfg, old(attestor.cache.Snapshot()), m, now);
              var p := PlanFor(setup, m, v, a);
              attestor.cache.Snapshot() == s && trace == old(trace) + p.steps && reply == p.reply
    {
      var v := attestor.VerifyMessage(m, now);
      if v.Err? { return Failed(Identity(v.error)); }
      if setup.handle(m).None? { return Failed(SessionExpired); }
      if setup.kind(m) == Close {
        reply := CloseSession(a.session);
      } else {
        reply := RelayInput(a.session);
      }
    }

    /** Every message type funnels through here, and a halted gateway does nothing at all. */
    method HandleMessage(m: Attestation.Message, now: int, a: Answers) returns (reply: Reply)
      modifies this`trace, attestor.cache
      ensures haltReason.Some? ==>
                reply == Failed(GatewayHalted) && trace == old(trace)
                && attestor.cache.Snapshot() == old(attestor.cache.Snapshot())
      ensures haltReason.None? && setup.kind(m).Unsupported? ==>
                reply == Failed(Mechanism) && trace == old(trace)
                && attestor.cache.Snapshot() == old(attestor.cache.Snapshot())
      ensures haltReason.None? && !setup.kind(m).Unsupported? ==>
                var (s, v) :=
                  Attestation.Verify(attestor.id, attestor.cache.cfg, old(attestor.cache.Snapshot()), m, now);
                var p := PlanFor(setup, m, v, a);
                attestor.cache.Snapshot() == s && trace == old(trace) + p.steps && reply == p.reply
    {
      if haltReason.Some? { return Failed(GatewayHalted); }
      match setup.kind(m)
      case Intent => reply := HandleIntent(m, now, a);
      case Command => reply := HandleFrame(m, now, a);
      case Close => reply := HandleFrame(m, now, a);
      case Unsupported => reply := Failed(Mechanism);
    }
  }
}

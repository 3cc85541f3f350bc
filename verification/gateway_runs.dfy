/**
 * The gateway over every interleaving of messages, halts and restarts. A message is checked against the halt
 * flag when it arrives, judged in one step (the replay cache is locked), and then takes its own steps one at a
 * time, among those of all others.
 */
module GatewayRuns {
  import opened Text
  import opened Policy
  import opened Gateway
  import opened GatewayLaws
  import Attestation
  import ReplayCache
  import ReplayRuns

  /** A message in hand. `call` is its place among the calls on the replay cache, `plan` what it will do. */
  datatype Flight = Flight(
    m: Attestation.Message,
    a: Answers,
    live: bool,
    verdict: Option<Judgement>,
    call: nat,
    plan: seq<Step>,
    done: nat)

  datatype State = State(
    halt: Option<string>,
    world: ReplayRuns.World,
    calls: seq<Attestation.Call>,
    flights: seq<Flight>,
    trace: seq<(nat, Step)>)

  datatype Event =
    | Arrive(m: Attestation.Message, a: Answers)
    | Judge(flight: nat, now: int)
    | Advance(flight: nat)
    | Halt(reason: string)
    | Reboot(cap: nat, now: int)

  /** The fixed surroundings of a run. */
  datatype Site = Site(setup: Setup, id: Attestation.Identity, cfg: ReplayCache.Config)

  // ---- Steps ----

  predicate CanJudge(site: Site, s: State, k: nat) {
    k < |s.flights| && s.flights[k].live && s.flights[k].verdict.None? && !site.setup.kind(s.flights[k].m).Unsupported?
  }

  predicate CanAdvance(s: State, k: nat) {
    k < |s.flights| && s.flights[k].live && s.flights[k].done < |s.flights[k].plan|
  }

  ghost function Judged(site: Site, s: State, k: nat, now: int): State
    requires CanJudge(site, s, k)
  {
    var f := s.flights[k];
    var (_, v) := Attestation.Verify(site.id, s.world.cfg, s.world.s, f.m, now);
    var call := Attestation.Deliver(f.m, now);
    s.(world := Attestation.Handle(site.id, s.world, call), calls := s.calls + [call],
       flights := s.flights[
         k := f.(verdict := Some(v), call := |s.calls|, plan := PlanFor(site.setup, f.m, v, f.a).steps)])
  }

  function Advanced(s: State, k: nat): State
    requires CanAdvance(s, k)
  {
    var f := s.flights[k];
    s.(flights := s.flights[k := f.(done := f.done + 1)], trace := s.trace + [(k, f.plan[f.done])])
  }

  function Rebooted(site: Site, s: State, cap: nat, now: int): State {
    var call := Attestation.Reboot(cap, now);
    State(None, Attestation.Handle(site.id, s.world, call), s.calls + [call],
          seq(|s.flights|, i requires 0 <= i < |s.flights| => s.flights[i].(live := false)), s.trace)
  }

  ghost function Next(site: Site, s: State, e: Event): State {
    match e
    case Arrive(m, a) => s.(flights := s.flights + [Flight(m, a, s.halt.None?, None, 0, [], 0)])
    case Judge(k, now) => if CanJudge(site, s, k) then Judged(site, s, k, now) else s
    case Advance(k) => if CanAdvance(s, k) then Advanced(s, k) else s
    case Halt(reason) => if s.halt.None? then s.(halt := Some(reason)) else s
    case Reboot(cap, now) => Rebooted(site, s, cap, now)
  }

  ghost function After(site: Site, events: seq<Event>): State {
    if events == [] then State(None, ReplayRuns.World(site.cfg, ReplayCache.EMPTY), [], [], [])
    else Next(site, After(site, events[..|events| - 1]), events[|events| - 1])
  }

  /** The steps of one message, in order. */
  function Of(trace: seq<(nat, Step)>, k: nat): seq<Step> {
    if trace == [] then []
    else
      var (j, step) := trace[|trace| - 1];
      Of(trace[..|trace| - 1], k) + (if j == k then [step] else [])
  }

  // ---- What every reachable state keeps ----

  /** The message was judged where the record says, and does what its verdict prescribes. */
  ghost predicate FlightGood(site: Site, s: State, k: nat)
    requires k < |s.flights|
  {
    var f := s.flights[k];
    && f.done <= |f.plan| && Of(s.trace, k) == f.plan[..f.done]
    && (f.verdict.None? ==> f.plan == [])
    && (f.verdict.Some? ==>
          && f.call < |s.calls| && s.calls[f.call].Deliver? && s.calls[f.call].m == f.m
          && f.verdict.value == Attestation.VerdictAt(site.id, site.cfg, s.calls, f.call)
          && f.plan == PlanFor(site.setup, f.m, f.verdict.value, f.a).steps)
  }

  ghost predicate WorldGood(site: Site, s: State) {
    s.world == Attestation.After(site.id, site.cfg, s.calls)
  }

  lemma {:induction false} CallsGrow(site: Site, calls: seq<Attestation.Call>, c: Attestation.Call, i: nat)
    requires i < |calls| && calls[i].Deliver?
    ensures Attestation.VerdictAt(site.id, site.cfg, calls + [c], i)
            == Attestation.VerdictAt(site.id, site.cfg, calls, i)
  {
    assert (calls + [c])[..i] == calls[..i];
  }

  lemma {:induction false} NextWorld(site: Site, s: State, e: Event)
    requires WorldGood(site, s)
    ensures WorldGood(site, Next(site, s, e))
  {
    var r := Next(site, s, e);
    if r.calls != s.calls {
      assert r.calls[..|r.calls| - 1] == s.calls;
    }
  }

  lemma {:induction false} ReachableWorld(site: Site, events: seq<Event>)
    ensures WorldGood(site, After(site, events))
  {
    if events != [] {
      var before := events[..|events| - 1];
      ReachableWorld(site, before);
      NextWorld(site, After(site, before), events[|events| - 1]);
    }
  }

  lemma {:induction false} OfGrows(trace: seq<(nat, Step)>, x: (nat, Step), k: nat)
    ensures Of(trace + [x], k) == Of(trace, k) + (if x.0 == k then [x.1] else [])
  {
    assert (trace + [x])[..|trace|] == trace;
  }

  lemma {:induction false} JudgedIsGood(site: Site, s: State, j: nat, now: int, k: nat)
    requires WorldGood(site, s) && CanJudge(site, s, j) && k < |s.flights| && FlightGood(site, s, k)
    ensures FlightGood(site, Judged(site, s, j, now), k)
  {
    var call := Attestation.Deliver(s.flights[j].m, now);
    if j == k {
      assert (s.calls + [call])[..|s.calls|] == s.calls;
    } else if s.flights[k].verdict.Some? {
      CallsGrow(site, s.calls, call, s.flights[k].call);
    }
  }

  lemma {:induction false} AdvancedIsGood(site: Site, s: State, j: nat, k: nat)
    requires CanAdvance(s, j) && k < |s.flights| && FlightGood(site, s, k)
    ensures FlightGood(site, Advanced(s, j), k)
  {
    var f := s.flights[j];
    OfGrows(s.trace, (j, f.plan[f.done]), k);
    assert f.plan[..f.done + 1] == f.plan[..f.done] + [f.plan[f.done]];
  }

  lemma {:induction false} RebootedIsGood(site: Site, s: State, cap: nat, now: int, k: nat)
    requires k < |s.flights| && FlightGood(site, s, k)
    ensures FlightGood(site, Rebooted(site, s, cap, now), k)
  {
    if s.flights[k].verdict.Some? {
      CallsGrow(site, s.calls, Attestation.Reboot(cap, now), s.flights[k].call);
    }
  }

  lemma {:induction false} NoStepsYet(site: Site, events: seq<Event>, k: nat)
    requires k >= |After(site, events).flights|
    ensures Of(After(site, events).trace, k) == []
  {
    if events != [] {
      var before, e := events[..|events| - 1], events[|events| - 1];
      NoStepsYet(site, before, k);
      var s := After(site, before);
      if e.Advance? && CanAdvance(s, e.flight) {
        var f := s.flights[e.flight];
        OfGrows(s.trace, (e.flight, f.plan[f.done]), k);
      }
    }
  }

  lemma {:induction false} NextIsGood(site: Site, s: State, e: Event, k: nat)
    requires WorldGood(site, s) && k < |s.flights| && FlightGood(site, s, k)
    ensures k < |Next(site, s, e).flights| && FlightGood(site, Next(site, s, e), k)
  {
    match e
    case Judge(j, now) => if CanJudge(site, s, j) { JudgedIsGood(site, s, j, now, k); }
    case Advance(j) => if CanAdvance(s, j) { AdvancedIsGood(site, s, j, k); }
    case Reboot(cap, now) => RebootedIsGood(site, s, cap, now, k);
    case _ =>
  }

  /** In every run, every message has done a prefix of what its verdict prescribes, in order and nothing else. */
  lemma {:induction false} ReachableFlights(site: Site, events: seq<Event>, k: nat)
    requires k < |After(site, events).flights|
    ensures FlightGood(site, After(site, events), k)
  {
    var before, e := events[..|events| - 1], events[|events| - 1];
    var s := After(site, before);
    if k < |s.flights| {
      ReachableFlights(site, before, k);
      ReachableWorld(site, before);
      NextIsGood(site, s, e, k);
    } else {
      NoStepsYet(site, before, k);
    }
  }

  /** Two messages are never judged by the same call. */
  lemma {:induction false} OwnCall(site: Site, events: seq<Event>, j: nat, k: nat)
    requires j < |After(site, events).flights| && k < |After(site, events).flights| && j != k
    requires After(site, events).flights[j].verdict.Some? && After(site, events).flights[k].verdict.Some?
    ensures After(site, events).flights[j].call != After(site, events).flights[k].call
  {
    var before, e := events[..|events| - 1], events[|events| - 1];
    var s := After(site, before);
    if j < |s.flights| { CallIsPast(site, before, j); }
    if k < |s.flights| { CallIsPast(site, before, k); }
    if j < |s.flights| && k < |s.flights| && s.flights[j].verdict.Some? && s.flights[k].verdict.Some? {
      OwnCall(site, before, j, k);
    }
  }

  lemma {:induction false} CallIsPast(site: Site, events: seq<Event>, k: nat)
    requires k < |After(site, events).flights|
    ensures After(site, events).flights[k].verdict.Some? ==>
              After(site, events).flights[k].call < |After(site, events).calls|
  {
    ReachableFlights(site, events, k);
  }

  // ---- Places in the trace ----

  /** A step of message `k` at `i` is the next of that message's own steps. */
  lemma {:induction false} PlaceOf(trace: seq<(nat, Step)>, i: nat, k: nat)
    requires i < |trace| && trace[i].0 == k
    ensures |Of(trace[..i], k)| < |Of(trace, k)|
    ensures Of(trace, k)[|Of(trace[..i], k)|] == trace[i].1
    ensures Of(trace[..i], k) == Of(trace, k)[..|Of(trace[..i], k)|]
  {
    var front := trace[..|trace| - 1];
    if i == |trace| - 1 {
      assert front == trace[..i];
    } else {
      assert front[..i] == trace[..i];
      PlaceOf(front, i, k);
    }
  }

  lemma {:induction false} LaterPlace(trace: seq<(nat, Step)>, i: nat, j: nat, k: nat)
    requires i < j < |trace| && trace[i].0 == k
    ensures |Of(trace[..i], k)| < |Of(trace[..j], k)|
  {
    assert trace[..j][..i] == trace[..i];
    PlaceOf(trace[..j], i, k);
  }

  lemma {:induction false} FoundIn(trace: seq<(nat, Step)>, k: nat, n: nat) returns (i: nat)
    requires n < |Of(trace, k)|
    ensures i < |trace| && trace[i] == (k, Of(trace, k)[n])
  {
    var front := trace[..|trace| - 1];
    if n < |Of(front, k)| {
      i := FoundIn(front, k, n);
    } else {
      i := |trace| - 1;
    }
  }

  // ---- The theorems ----

  /** The message of flight `k` passed identity and schema, and this is what policy says of it. */
  ghost predicate Admitted(site: Site, s: State, k: nat, env: Envelope, d: Decision)
    requires k < |s.flights|
  {
    var f := s.flights[k];
    && site.setup.kind(f.m).Intent? && f.verdict.Some? && f.verdict.value.Ok?
    && site.setup.parse(f.m) == Some(env)
    && Decides(site.setup.rules, RequestOf(f.verdict.value.value.agent, env), d)
    && f.plan == IntentPlan(site.setup, env, d, f.a).steps
  }

  /** Only intents take these. */
  predicate OfIntent(step: Step) {
    || step.Decided? || step.Prompted? || step.Resolved? || step.Minted? || step.Connected? || step.Injected?
    || step.SessionAdded? || step.Fed?
  }

  /** And these belong to an admitted one. */
  lemma {:induction false} OnlyAdmittedAct(site: Site, s: State, k: nat, n: nat) returns (env: Envelope, d: Decision)
    requires k < |s.flights| && FlightGood(site, s, k) && n < |s.flights[k].plan|
    requires OfIntent(s.flights[k].plan[n])
    ensures Admitted(site, s, k, env, d)
  {
    var f := s.flights[k];
    StepOfIntent(site.setup, f.m, f.verdict.value, f.a, n);
    env, d := AdmittedOf(site, s, k);
  }

  lemma {:induction false} StepOfIntent(setup: Setup, m: Attestation.Message, v: Judgement, a: Answers, n: nat)
    requires n < |PlanFor(setup, m, v, a).steps| && OfIntent(PlanFor(setup, m, v, a).steps[n])
    ensures setup.kind(m).Intent? && v.Ok? && setup.parse(m).Some?
  {
  }

  lemma {:induction false} FlightOfStep(site: Site, events: seq<Event>, i: nat)
    requires i < |After(site, events).trace|
    ensures After(site, events).trace[i].0 < |After(site, events).flights|
  {
    var before, e := events[..|events| - 1], events[|events| - 1];
    var s := After(site, before);
    if i < |s.trace| { FlightOfStep(site, before, i); }
  }

  /** Where a step of the trace sits in its message's plan. */
  lemma {:induction false} StepOfPlan(site: Site, events: seq<Event>, i: nat) returns (k: nat, n: nat)
    requires i < |After(site, events).trace|
    ensures var s := After(site, events);
            && k == s.trace[i].0 && k < |s.flights| && FlightGood(site, s, k)
            && n == |Of(s.trace[..i], k)| && n < s.flights[k].done <= |s.flights[k].plan|
            && s.flights[k].plan[n] == s.trace[i].1 && Of(s.trace[..i], k) == s.flights[k].plan[..n]
  {
    var s := After(site, events);
    k := s.trace[i].0;
    FlightOfStep(site, events, i);
    ReachableFlights(site, events, k);
    PlaceOf(s.trace, i, k);
    n := |Of(s.trace[..i], k)|;
  }

  /**
   * In every run, a credential is fetched for a message only after that message verified and policy did not
   * deny it, and after the human approved it wherever the gate is needed.
   */
  lemma {:induction false} CredentialOnlyPastTheGate(site: Site, events: seq<Event>, i: nat)
    returns (env: Envelope, d: Decision, at: nat)
    requires i < |After(site, events).trace| && Spends(After(site, events).trace[i].1)
    ensures var s := After(site, events);
            var k := s.trace[i].0;
            && k < |s.flights| && Admitted(site, s, k, env, d) && d.effect != Deny
            && (NeedsGate(site.setup, env, d) ==> at < i && s.trace[at] == (k, Prompted(true)))
  {
    var s := After(site, events);
    var k, n := StepOfPlan(site, events, i);
    env, d := OnlyAdmittedAct(site, s, k, n);
    var f := s.flights[k];
    var p := IntentPlan(site.setup, env, d, f.a);
    var gate, use, outcome := IntentIsLegal(site.setup, env, d, f.a);
    SpentPastTheGate(site.setup, env, d, p, gate, use, outcome, n);
    at := 0;
    if NeedsGate(site.setup, env, d) {
      assert Of(s.trace[..i], k)[1] == Prompted(true);
      at := FoundIn(s.trace[..i], k, 1);
    }
  }

  /** With readings at most `stale` seconds old, two judged messages of one intent are not both verified. */
  lemma {:induction false} OneOfEachIntent(site: Site, events: seq<Event>, stale: nat, j: nat, k: nat)
    requires site.cfg.persisted && Attestation.Timely(After(site, events).calls, stale)
    requires site.id.skew < 0 || site.id.skew >= stale + 3
    requires j < |After(site, events).flights| && k < |After(site, events).flights| && j != k
    requires var s := After(site, events);
             && s.flights[j].verdict.Some? && s.flights[j].verdict.value.Ok?
             && s.flights[k].verdict.Some? && s.flights[k].verdict.value.Ok?
    ensures !Attestation.SameIntent(After(site, events).flights[j].m, After(site, events).flights[k].m)
  {
    var s := After(site, events);
    ReachableFlights(site, events, j);
    ReachableFlights(site, events, k);
    OwnCall(site, events, j, k);
    var a, b := s.flights[j].call, s.flights[k].call;
    if Attestation.SameIntent(s.flights[j].m, s.flights[k].m) {
      Attestation.AcceptedOnce(site.id, site.cfg, s.calls, stale, if a < b then a else b, if a < b then b else a);
    }
  }

  /** In every such run, one intent causes at most one prompt and at most one credential to be fetched. */
  lemma {:induction false} OncePerIntent(site: Site, events: seq<Event>, stale: nat, i: nat, j: nat)
    requires site.cfg.persisted && Attestation.Timely(After(site, events).calls, stale)
    requires site.id.skew < 0 || site.id.skew >= stale + 3
    requires i < j < |After(site, events).trace|
    requires var t := After(site, events).trace;
             (t[i].1.Prompted? && t[j].1.Prompted?) || (Spends(t[i].1) && Spends(t[j].1))
    ensures var s := After(site, events);
            && s.trace[i].0 < |s.flights| && s.trace[j].0 < |s.flights|
            && !Attestation.SameIntent(s.flights[s.trace[i].0].m, s.flights[s.trace[j].0].m)
  {
    var s := After(site, events);
    var k, n := StepOfPlan(site, events, i);
    var l, o := StepOfPlan(site, events, j);
    var env, d := OnlyAdmittedAct(site, s, k, n);
    if k == l {
      LaterPlace(s.trace, i, j, k);
      var gate, use, outcome := IntentIsLegal(site.setup, env, d, s.flights[k].a);
      AskedAndSpentOnce(site.setup, env, d, IntentPlan(site.setup, env, d, s.flights[k].a), gate, use, outcome, n, o);
      assert false;
    } else {
      var env', d' := OnlyAdmittedAct(site, s, l, o);
      OneOfEachIntent(site, events, stale, k, l);
    }
  }

  // ---- Session frames ----

  /** Bytes are written to a channel, or a session is removed, summarised or recorded as closed. */
  predicate OfFrame(step: Step) {
    step.Relayed? || step.SessionTaken? || step.Summarised? || step == Audited(Allow, SessionClosed)
  }

  /** The message is a frame that named a session its agent had open. */
  predicate Reached(site: Site, f: Flight) {
    && site.setup.kind(f.m) in {Command, Close} && f.verdict.Some? && f.verdict.value.Ok?
    && site.setup.handle(f.m).Some? && f.a.session.found
  }

  lemma {:induction false} NoIntentActsAsFrame(site: Site, env: Envelope, d: Decision, a: Answers, n: nat)
    requires n < |IntentPlan(site.setup, env, d, a).steps|
    ensures !OfFrame(IntentPlan(site.setup, env, d, a).steps[n])
  {
    var gate, use, outcome := IntentIsLegal(site.setup, env, d, a);
    Places(site.setup, env, d, IntentPlan(site.setup, env, d, a), gate, use, outcome, n);
  }

  lemma {:induction false} FrameOfStep(site: Site, s: State, k: nat, n: nat)
    requires k < |s.flights| && FlightGood(site, s, k) && n < |s.flights[k].plan| && OfFrame(s.flights[k].plan[n])
    ensures Reached(site, s.flights[k])
    ensures s.flights[k].plan[n].Relayed? ==> site.setup.kind(s.flights[k].m).Command? && n == 0
  {
    var f := s.flights[k];
    if site.setup.kind(f.m).Intent? && f.verdict.value.Ok? {
      var env, d := AdmittedOf(site, s, k);
      NoIntentActsAsFrame(site, env, d, f.a, n);
    }
  }

  /**
   * In every run a channel is written to, and a session removed, summarised or recorded as closed, only by a frame
   * that verified and named a session its agent had open; only a command writes, and writing is its first step.
   */
  lemma {:induction false} OnlyVerifiedFramesAct(site: Site, events: seq<Event>, i: nat)
    requires i < |After(site, events).trace| && OfFrame(After(site, events).trace[i].1)
    ensures var s := After(site, events);
            var (k, step) := s.trace[i];
            && k < |s.flights| && Reached(site, s.flights[k])
            && (step.Relayed? ==> site.setup.kind(s.flights[k].m).Command? && Of(s.trace[..i], k) == [])
  {
    var s := After(site, events);
    var k, n := StepOfPlan(site, events, i);
    FrameOfStep(site, s, k, n);
  }

  /** One signed frame reaches a channel at most once, restarts included. */
  lemma {:induction false} OncePerFrame(site: Site, events: seq<Event>, stale: nat, i: nat, j: nat)
    requires site.cfg.persisted && Attestation.Timely(After(site, events).calls, stale)
    requires site.id.skew < 0 || site.id.skew >= stale + 3
    requires i < j < |After(site, events).trace|
    requires After(site, events).trace[i].1.Relayed? && After(site, events).trace[j].1.Relayed?
    ensures var s := After(site, events);
            && s.trace[i].0 < |s.flights| && s.trace[j].0 < |s.flights|
            && !Attestation.SameIntent(s.flights[s.trace[i].0].m, s.flights[s.trace[j].0].m)
  {
    var s := After(site, events);
    OnlyVerifiedFramesAct(site, events, i);
    OnlyVerifiedFramesAct(site, events, j);
    var k, l := s.trace[i].0, s.trace[j].0;
    if k == l {
      LaterPlace(s.trace, i, j, k);
      assert false;
    } else {
      OneOfEachIntent(site, events, stale, k, l);
    }
  }

  // ---- Evidence ----

  function Records(steps: seq<Step>): nat {
    if steps == [] then 0 else Records(steps[..|steps| - 1]) + (if steps[|steps| - 1].Audited? then 1 else 0)
  }

  lemma {:induction false} OneRecord(steps: seq<Step>, at: nat)
    requires at < |steps| && steps[at].Audited?
    requires forall i :: 0 <= i < |steps| && steps[i].Audited? ==> i == at
    ensures Records(steps) == 1
  {
    var front := steps[..|steps| - 1];
    if at == |steps| - 1 {
      NoRecords(front);
    } else {
      OneRecord(front, at);
    }
  }

  lemma {:induction false} NoRecords(steps: seq<Step>)
    requires forall i :: 0 <= i < |steps| ==> !steps[i].Audited?
    ensures Records(steps) == 0
  {
    if steps != [] { NoRecords(steps[..|steps| - 1]); }
  }

  /** A judged message that has taken all its steps. */
  predicate Finished(s: State, k: nat) {
    k < |s.flights| && s.flights[k].verdict.Some? && s.flights[k].done == |s.flights[k].plan|
  }

  /** The frame ended its session, or found its channel exited. */
  predicate Concludes(site: Site, f: Flight) {
    Reached(site, f) && (site.setup.kind(f.m).Close? || (f.a.session.written && f.a.session.exited))
  }

  predicate Evident(site: Site, f: Flight)
    requires f.verdict.Some?
  {
    || (site.setup.kind(f.m).Intent? && (f.verdict.value.Err? || site.setup.parse(f.m).Some?))
    || Concludes(site, f)
  }

  /**
   * In every run, a finished message has left at most one audit record, and exactly one if it is an intent that
   * failed verification or parses, or a frame that ended its session or found its channel exited.
   */
  lemma {:induction false} EvidenceExactly(site: Site, events: seq<Event>, k: nat)
    requires Finished(After(site, events), k)
    ensures var s := After(site, events);
            Records(Of(s.trace, k)) == if Evident(site, s.flights[k]) then 1 else 0
  {
    var s := After(site, events);
    var f := s.flights[k];
    ReachableFlights(site, events, k);
    assert f.plan[..f.done] == f.plan;
    if site.setup.kind(f.m) in {Command, Close} {
      if f.verdict.value.Ok? { FrameRecords(site, f); }
    } else if f.plan != [] {
      if f.verdict.value.Err? {
        OneRecord(f.plan, 0);
      } else {
        var env, d := AdmittedOf(site, s, k);
        var gate, use, outcome := IntentIsLegal(site.setup, env, d, f.a);
        var p := IntentPlan(site.setup, env, d, f.a);
        OneRecordThenTheFeed(site.setup, env, d, p, gate, use, outcome);
        var at :| 0 <= at < |p.steps| && p.steps[at] == Audited(d.effect, outcome);
        OneRecord(p.steps, at);
      }
    }
  }

  /** A finished frame is recorded as having closed its session exactly when it did, or found its channel exited. */
  lemma {:induction false} ClosedRecordExactly(site: Site, events: seq<Event>, k: nat)
    requires Finished(After(site, events), k)
    requires site.setup.kind(After(site, events).flights[k].m) in {Command, Close}
    ensures var s := After(site, events);
            Concludes(site, s.flights[k]) <==> Audited(Allow, SessionClosed) in Of(s.trace, k)
  {
    var f := After(site, events).flights[k];
    ReachableFlights(site, events, k);
    assert f.plan[..f.done] == f.plan;
    if f.verdict.value.Ok? { FrameRecords(site, f); }
  }

  lemma {:induction false} FrameRecords(site: Site, f: Flight)
    requires site.setup.kind(f.m) in {Command, Close} && f.verdict.Some? && f.verdict.value.Ok?
    ensures Records(FramePlan(site.setup, f.m, f.a).steps) == if Concludes(site, f) then 1 else 0
    ensures Concludes(site, f) <==> Audited(Allow, SessionClosed) in FramePlan(site.setup, f.m, f.a).steps
  {
    var steps := FramePlan(site.setup, f.m, f.a).steps;
    if Concludes(site, f) {
      OneRecord(steps, |steps| - 1);
    } else {
      NoRecords(steps);
    }
  }

  lemma {:induction false} AdmittedOf(site: Site, s: State, k: nat) returns (env: Envelope, d: Decision)
    requires k < |s.flights| && FlightGood(site, s, k) && s.flights[k].plan != [] && s.flights[k].verdict.value.Ok?
    requires site.setup.kind(s.flights[k].m).Intent?
    ensures Admitted(site, s, k, env, d)
  {
    env := site.setup.parse(s.flights[k].m).value;
    d := DecisionFor(site.setup.rules, RequestOf(s.flights[k].verdict.value.value.agent, env));
  }

  /** An admitted, finished intent was fed to the observers exactly when it was denied or its rule notifies. */
  lemma {:induction false} FeedExactly(site: Site, events: seq<Event>, k: nat, env: Envelope, d: Decision)
    returns (outcome: Outcome)
    requires Finished(After(site, events), k) && Admitted(site, After(site, events), k, env, d)
    ensures var done := Of(After(site, events).trace, k);
            && Audited(d.effect, outcome) in done
            && Ended(site.setup, env, d, After(site, events).flights[k].a, outcome)
            && (Fed(d.effect, outcome) in done <==> site.setup.hub && (d.effect == Deny || d.notifyOnUse))
  {
    var s := After(site, events);
    var f := s.flights[k];
    ReachableFlights(site, events, k);
    assert f.plan[..f.done] == f.plan;
    var gate, use, told := IntentEnds(site.setup, env, d, f.a);
    outcome := told;
    OneRecordThenTheFeed(site.setup, env, d, IntentPlan(site.setup, env, d, f.a), gate, use, told);
  }

  // ---- Halting ----

  /** A message that arrives at a halted gateway never does anything and is never judged. */
  lemma {:induction false} HaltedArrivalDoesNothing(site: Site, events: seq<Event>, at: nat)
    requires at < |events| && events[at].Arrive? && After(site, events[..at]).halt.Some?
    ensures var k := |After(site, events[..at]).flights|;
            var s := After(site, events);
            && k < |s.flights| && !s.flights[k].live && s.flights[k].verdict.None? && Of(s.trace, k) == []
  {
    var before, e := events[..|events| - 1], events[|events| - 1];
    var k := |After(site, events[..at]).flights|;
    if at == |events| - 1 {
      assert before == events[..at];
      NoStepsYet(site, before, k);
    } else {
      assert before[..at] == events[..at];
      HaltedArrivalDoesNothing(site, before, at);
      DeadStep(site, After(site, before), e, k);
    }
  }

  lemma {:induction false} DeadStep(site: Site, s: State, e: Event, k: nat)
    requires k < |s.flights| && !s.flights[k].live && s.flights[k].verdict.None?
    ensures var r := Next(site, s, e);
            && k < |r.flights| && !r.flights[k].live && r.flights[k].verdict.None? && Of(r.trace, k) == Of(s.trace, k)
  {
    if e.Advance? && CanAdvance(s, e.flight) {
      OfGrows(s.trace, (e.flight, s.flights[e.flight].plan[s.flights[e.flight].done]), k);
    }
  }

  lemma {:induction false} DeadStays(site: Site, s: State, e: Event, k: nat)
    requires k < |s.flights| && !s.flights[k].live
    ensures var r := Next(site, s, e); k < |r.flights| && !r.flights[k].live && Of(r.trace, k) == Of(s.trace, k)
  {
    if e.Advance? && CanAdvance(s, e.flight) {
      OfGrows(s.trace, (e.flight, s.flights[e.flight].plan[s.flights[e.flight].done]), k);
    }
  }

  /** A restart ends every message in hand: none of them takes another step. */
  lemma {:induction false} RestartEndsMessages(site: Site, events: seq<Event>, at: nat, k: nat)
    requires at < |events| && events[at].Reboot? && k < |After(site, events[..at]).flights|
    ensures var s := After(site, events);
            && k < |s.flights| && !s.flights[k].live && Of(s.trace, k) == Of(After(site, events[..at]).trace, k)
  {
    var before, e := events[..|events| - 1], events[|events| - 1];
    if at == |events| - 1 {
      assert before == events[..at];
    } else {
      assert before[..at] == events[..at];
      RestartEndsMessages(site, before, at, k);
      DeadStays(site, After(site, before), e, k);
    }
  }

  /** The first reason stays until the process restarts. */
  lemma {:induction false} FirstReasonStays(site: Site, events: seq<Event>, at: nat)
    requires at <= |events| && After(site, events[..at]).halt.Some?
    requires forall i :: at <= i < |events| ==> !events[i].Reboot?
    ensures After(site, events).halt == After(site, events[..at]).halt
  {
    if at == |events| {
      assert events[..at] == events;
    } else {
      var before := events[..|events| - 1];
      assert before[..at] == events[..at];
      FirstReasonStays(site, before, at);
      assert !events[|events| - 1].Reboot?;
    }
  }
}

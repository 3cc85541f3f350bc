/** What a halt stops, and what it does not: messages already in hand go on, since the flag is read once. */
module GatewayHalt {
  import opened Text
  import opened Policy
  import opened Gateway
  import opened GatewayLaws
  import opened GatewayRuns
  import Attestation
  import Matchers
  import ReplayCache
  import ReplayStale

  // ---- Continuations ----

  lemma {:induction false} AfterSnoc(site: Site, events: seq<Event>, e: Event)
    ensures After(site, events + [e]) == Next(site, After(site, events), e)
  {
    assert (events + [e])[..|events|] == events;
  }

  lemma {:induction false} AfterFront(site: Site, events: seq<Event>, more: seq<Event>)
    requires more != []
    ensures After(site, events + more)
         == Next(site, After(site, events + more[..|more| - 1]), more[|more| - 1])
  {
    var all := events + more;
    assert all[..|all| - 1] == events + more[..|more| - 1] && all[|all| - 1] == more[|more| - 1];
  }

  /** The process goes on; and, if `ordered`, its clock is read in order from here on. */
  ghost predicate Goes(ordered: bool, calls: seq<Attestation.Call>, more: seq<Event>) {
    && (forall i :: 0 <= i < |more| ==> !more[i].Reboot?)
    && (ordered ==>
          forall i, c :: 0 <= i < |more| && more[i].Judge? && 0 <= c < |calls| ==> calls[c].now <= more[i].now)
    && (ordered ==>
          forall i, j :: 0 <= i < j < |more| && more[i].Judge? && more[j].Judge? ==> more[i].now <= more[j].now)
  }

  lemma {:induction false} GoesUpto(ordered: bool, calls: seq<Attestation.Call>, more: seq<Event>, n: nat)
    requires Goes(ordered, calls, more) && n <= |more|
    ensures Goes(ordered, calls, more[..n])
  {
    assert forall i :: 0 <= i < n ==> more[..n][i] == more[i];
  }

  lemma {:induction false} TraceExtends(site: Site, events: seq<Event>, more: seq<Event>)
    ensures After(site, events).trace <= After(site, events + more).trace
    decreases |more|
  {
    if more == [] {
      assert events + more == events;
    } else {
      TraceExtends(site, events, more[..|more| - 1]);
      AfterFront(site, events, more);
    }
  }

  /** What a message was and who judged it stay; once its process is gone, it does nothing. */
  ghost predicate Kept(was: Flight, now: Flight) {
    && now.m == was.m && now.a == was.a && now.live == was.live && was.done <= now.done
    && (was.verdict.Some? ==> now.verdict == was.verdict && now.plan == was.plan)
    && (!was.live ==> now == was)
  }

  lemma {:induction false} KeptStep(site: Site, s: State, e: Event, k: nat)
    requires k < |s.flights| && !e.Reboot?
    ensures k < |Next(site, s, e).flights| && Kept(s.flights[k], Next(site, s, e).flights[k])
  {
  }

  lemma {:induction false} FlightKept(ordered: bool, site: Site, events: seq<Event>, more: seq<Event>, k: nat)
    requires k < |After(site, events).flights| && Goes(ordered, After(site, events).calls, more)
    ensures var s, r := After(site, events), After(site, events + more);
            k < |r.flights| && Kept(s.flights[k], r.flights[k])
    decreases |more|
  {
    if more == [] {
      assert events + more == events;
    } else {
      var front := more[..|more| - 1];
      GoesUpto(ordered, After(site, events).calls, more, |more| - 1);
      FlightKept(ordered, site, events, front, k);
      AfterFront(site, events, more);
      KeptStep(site, After(site, events + front), more[|more| - 1], k);
    }
  }

  // ---- Being judged later ----

  ghost predicate VerifiesAt(site: Site, s: State, k: nat, now: int) {
    CanJudge(site, s, k) && Attestation.Verify(site.id, s.world.cfg, s.world.s, s.flights[k].m, now).1.Ok?
  }

  ghost predicate VerifiesIn(ordered: bool, site: Site, events: seq<Event>, more: seq<Event>, k: nat, now: int) {
    && Goes(ordered, After(site, events).calls, more + [Judge(k, now)])
    && VerifiesAt(site, After(site, events + more), k, now)
  }

  /** Some continuation judges the message and accepts it. */
  ghost predicate CanVerify(ordered: bool, site: Site, events: seq<Event>, k: nat) {
    exists more, now :: VerifiesIn(ordered, site, events, more, k, now)
  }

  /** What the message does if it is accepted; who sent it is read off the message itself. */
  ghost function AcceptedSteps(site: Site, m: Attestation.Message, a: Answers): seq<Step> {
    if m.Object? && m.agent.Some? && m.issuedAt.Issued? && m.nonce.Some? then
      PlanFor(site.setup, m, Ok(Attestation.Verified(m.agent.value, m.issuedAt.at, m.nonce.value)), a).steps
    else []
  }

  lemma {:induction false} AcceptedPlan(site: Site, s: State, k: nat, now: int)
    requires VerifiesAt(site, s, k, now)
    ensures var r := Judged(site, s, k, now).flights[k];
            r.verdict.Some? && r.verdict.value.Ok? && r.plan == AcceptedSteps(site, r.m, r.a)
  {
    Attestation.AcceptanceMeans(site.id, s.world.cfg, s.world.s, s.flights[k].m, now);
  }

  /** The step at which a message was judged. */
  lemma {:induction false} JudgementMoment(
    ordered: bool, site: Site, events: seq<Event>, more: seq<Event>, k: nat) returns (p: nat)
    requires k < |After(site, events).flights| && After(site, events).flights[k].verdict.None?
    requires Goes(ordered, After(site, events).calls, more)
    requires k < |After(site, events + more).flights| && After(site, events + more).flights[k].verdict.Some?
    ensures p < |more| && more[p].Judge? && more[p].flight == k
    ensures JudgedBy(
              site, After(site, events + more[..p]), k, more[p].now, After(site, events + more).flights[k].verdict)
    decreases |more|
  {
    assert events + [] == events;
    var front, last := more[..|more| - 1], more[|more| - 1];
    GoesUpto(ordered, After(site, events).calls, more, |more| - 1);
    FlightKept(ordered, site, events, front, k);
    AfterFront(site, events, more);
    var s := After(site, events + front);
    if s.flights[k].verdict.Some? {
      p := JudgementMoment(ordered, site, events, front, k);
      assert front[..p] == more[..p];
      KeptStep(site, s, last, k);
    } else {
      p := |more| - 1;
      OnlyJudgingJudges(site, s, last, k);
    }
  }

  ghost predicate JudgedBy(site: Site, s: State, k: nat, now: int, verdict: Option<Judgement>) {
    && CanJudge(site, s, k)
    && verdict == Some(Attestation.Verify(site.id, s.world.cfg, s.world.s, s.flights[k].m, now).1)
  }

  lemma {:induction false} OnlyJudgingJudges(site: Site, s: State, e: Event, k: nat)
    requires k < |s.flights| && s.flights[k].verdict.None? && !e.Reboot?
    requires k < |Next(site, s, e).flights| && Next(site, s, e).flights[k].verdict.Some?
    ensures e.Judge? && e.flight == k && JudgedBy(site, s, k, e.now, Next(site, s, e).flights[k].verdict)
  {
  }

  // ---- What is still ahead of a message ----

  const IDENTITY_RECORD := Audited(Deny, IdentityFailed)

  predicate Among(steps: seq<Step>, from: nat, q: Step -> bool) {
    exists n :: from <= n < |steps| && q(steps[n])
  }

  /**
   * The message arrived in time, and a step of the wanted kind is still ahead of it: in its plan, if it was judged;
   * otherwise in what it does once accepted, if it can be, or in the record of an intent's refusal.
   */
  ghost predicate Ahead(ordered: bool, site: Site, events: seq<Event>, k: nat, q: Step -> bool) {
    var s := After(site, events);
    && k < |s.flights| && s.flights[k].live
    && var f := s.flights[k];
    if f.verdict.Some? then Among(f.plan, f.done, q)
    else
      || (site.setup.kind(f.m).Intent? && q(IDENTITY_RECORD))
      || (CanVerify(ordered, site, events, k) && Among(AcceptedSteps(site, f.m, f.a), 0, q))
  }

  /** The later state's trace has a new step of the message, of that kind. */
  predicate TakesBetween(s: State, r: State, k: nat, q: Step -> bool) {
    exists i :: |s.trace| <= i < |r.trace| && r.trace[i].0 == k && q(r.trace[i].1)
  }

  ghost predicate TakesIn(ordered: bool, site: Site, events: seq<Event>, more: seq<Event>, k: nat, q: Step -> bool) {
    && Goes(ordered, After(site, events).calls, more)
    && TakesBetween(After(site, events), After(site, events + more), k, q)
  }

  lemma {:induction false} OfPrefix(whole: seq<(nat, Step)>, part: seq<(nat, Step)>, k: nat)
    requires part <= whole
    ensures |Of(part, k)| <= |Of(whole, k)|
    decreases |whole|
  {
    if part != whole { OfPrefix(whole[..|whole| - 1], part, k); }
  }

  /** Where the new step sits in the message's plan. */
  lemma {:induction false} NewStep(
    ordered: bool, site: Site, events: seq<Event>, more: seq<Event>, k: nat, i: nat) returns (n: nat)
    requires k < |After(site, events).flights| && Goes(ordered, After(site, events).calls, more)
    requires |After(site, events).trace| <= i < |After(site, events + more).trace|
    requires After(site, events + more).trace[i].0 == k
    ensures var s, r := After(site, events), After(site, events + more);
            && k < |r.flights| && FlightGood(site, s, k) && FlightGood(site, r, k) && Kept(s.flights[k], r.flights[k])
            && s.flights[k].done <= n < r.flights[k].done <= |r.flights[k].plan|
            && r.flights[k].plan[n] == r.trace[i].1
  {
    var s, r := After(site, events), After(site, events + more);
    FlightKept(ordered, site, events, more, k);
    TraceExtends(site, events, more);
    ReachableFlights(site, events, k);
    var l, m := StepOfPlan(site, events + more, i);
    n := m;
    OfPrefix(r.trace[..i], s.trace, k);
  }

  lemma {:induction false} TakenWasAhead(
    ordered: bool, site: Site, events: seq<Event>, more: seq<Event>, k: nat, q: Step -> bool)
    requires k < |After(site, events).flights| && TakesIn(ordered, site, events, more, k, q)
    ensures Ahead(ordered, site, events, k, q)
  {
    var s, r := After(site, events), After(site, events + more);
    var i :| |s.trace| <= i < |r.trace| && r.trace[i].0 == k && q(r.trace[i].1);
    var n := NewStep(ordered, site, events, more, k, i);
    if s.flights[k].verdict.Some? {
      assert Among(s.flights[k].plan, s.flights[k].done, q);
    } else if r.flights[k].verdict.value.Ok? {
      var p := JudgementMoment(ordered, site, events, more, k);
      AcceptedLater(ordered, site, events, more, k, p);
      assert Among(AcceptedSteps(site, s.flights[k].m, s.flights[k].a), 0, q);
    }
  }

  lemma {:induction false} AcceptedLater(
    ordered: bool, site: Site, events: seq<Event>, more: seq<Event>, k: nat, p: nat)
    requires k < |After(site, events).flights| && Goes(ordered, After(site, events).calls, more)
    requires p < |more| && more[p].Judge? && more[p].flight == k
    requires var r := After(site, events + more);
             && k < |r.flights| && FlightGood(site, r, k)
             && r.flights[k].verdict.Some? && r.flights[k].verdict.value.Ok?
             && JudgedBy(site, After(site, events + more[..p]), k, more[p].now, r.flights[k].verdict)
    ensures CanVerify(ordered, site, events, k)
    ensures After(site, events + more).flights[k].plan
            == AcceptedSteps(site, After(site, events).flights[k].m, After(site, events).flights[k].a)
  {
    var then_ := After(site, events + more[..p]);
    CouldVerify(ordered, site, events, more, k, p);
    GoesUpto(ordered, After(site, events).calls, more, p);
    FlightKept(ordered, site, events, more[..p], k);
    FlightKept(ordered, site, events, more, k);
    PlanOfVerdict(site, then_, k, more[p].now, After(site, events + more).flights[k].a);
  }

  lemma {:induction false} CouldVerify(
    ordered: bool, site: Site, events: seq<Event>, more: seq<Event>, k: nat, p: nat)
    requires Goes(ordered, After(site, events).calls, more) && p < |more| && more[p].Judge? && more[p].flight == k
    requires VerifiesAt(site, After(site, events + more[..p]), k, more[p].now)
    ensures CanVerify(ordered, site, events, k)
  {
    GoesUpto(ordered, After(site, events).calls, more, p + 1);
    assert more[..p + 1] == more[..p] + [Judge(k, more[p].now)];
    assert VerifiesIn(ordered, site, events, more[..p], k, more[p].now);
  }

  lemma {:induction false} PlanOfVerdict(site: Site, s: State, k: nat, now: int, a: Answers)
    requires VerifiesAt(site, s, k, now)
    ensures var m := s.flights[k].m;
            var v := Attestation.Verify(site.id, s.world.cfg, s.world.s, m, now).1;
            PlanFor(site.setup, m, v, a).steps == AcceptedSteps(site, m, a)
  {
    Attestation.AcceptanceMeans(site.id, s.world.cfg, s.world.s, s.flights[k].m, now);
  }

  // ---- Reaching it ----

  function Advances(k: nat, n: nat): (events: seq<Event>)
    ensures |events| == n && forall i :: 0 <= i < n ==> events[i] == Advance(k)
  {
    if n == 0 then [] else Advances(k, n - 1) + [Advance(k)]
  }

  function Marked(k: nat, steps: seq<Step>): seq<(nat, Step)> {
    seq(|steps|, i requires 0 <= i < |steps| => (k, steps[i]))
  }

  lemma MarkedGrows(trace: seq<(nat, Step)>, k: nat, plan: seq<Step>, from: nat, n: nat)
    requires from + n < |plan|
    ensures trace + Marked(k, plan[from..from + n + 1])
         == trace + Marked(k, plan[from..from + n]) + [(k, plan[from + n])]
  {
  }

  /** The state after `n` more steps of a live message, one by one. */
  function AdvanceAll(s: State, k: nat, n: nat): (r: State)
    requires k < |s.flights| && s.flights[k].live && s.flights[k].done + n <= |s.flights[k].plan|
    ensures |r.flights| == |s.flights| && r.flights[k] == s.flights[k].(done := s.flights[k].done + n)
    ensures r.trace == s.trace + Marked(k, s.flights[k].plan[s.flights[k].done..s.flights[k].done + n])
  {
    if n == 0 then s
    else
      MarkedGrows(s.trace, k, s.flights[k].plan, s.flights[k].done, n - 1);
      Advanced(AdvanceAll(s, k, n - 1), k)
  }

  /** A run continued from a state. */
  ghost function Onward(site: Site, s: State, more: seq<Event>): State {
    if more == [] then s else Next(site, Onward(site, s, more[..|more| - 1]), more[|more| - 1])
  }

  lemma {:induction false} RunGoesOnward(site: Site, events: seq<Event>, more: seq<Event>)
    ensures After(site, events + more) == Onward(site, After(site, events), more)
    decreases |more|
  {
    if more == [] {
      assert events + more == events;
    } else {
      RunGoesOnward(site, events, more[..|more| - 1]);
      AfterFront(site, events, more);
    }
  }

  /** Left alone, a live message takes its steps one by one, halted or not. */
  lemma {:induction false} AdvancesRun(site: Site, s: State, k: nat, n: nat)
    requires k < |s.flights| && s.flights[k].live && s.flights[k].done + n <= |s.flights[k].plan|
    ensures Onward(site, s, Advances(k, n)) == AdvanceAll(s, k, n)
    decreases n
  {
    if n > 0 {
      AdvancesRun(site, s, k, n - 1);
      assert Advances(k, n)[..n - 1] == Advances(k, n - 1);
    }
  }

  lemma LastMarked(trace: seq<(nat, Step)>, k: nat, plan: seq<Step>, from: nat, n: nat)
    requires 0 < n && from + n <= |plan|
    ensures var t := trace + Marked(k, plan[from..from + n]);
            |t| == |trace| + n && t[|t| - 1] == (k, plan[from + n - 1])
  {
  }

  lemma LastStepTaken(s: State, k: nat, n: nat, m: nat, q: Step -> bool)
    requires k < |s.flights| && s.flights[k].live
    requires var f := s.flights[k]; f.done <= n < |f.plan| && q(f.plan[n]) && m == n + 1 - f.done
    ensures TakesBetween(s, AdvanceAll(s, k, m), k, q)
  {
    var t := AdvanceAll(s, k, m).trace;
    LastMarked(s.trace, k, s.flights[k].plan, s.flights[k].done, m);
    assert t[|t| - 1] == (k, s.flights[k].plan[n]);
  }

  lemma {:induction false} AheadIsReached(
    ordered: bool, site: Site, events: seq<Event>, s: State, k: nat, n: nat, m: nat, q: Step -> bool)
    requires After(site, events) == s && k < |s.flights| && s.flights[k].live
    requires var f := s.flights[k]; f.done <= n < |f.plan| && q(f.plan[n]) && m == n + 1 - f.done
    ensures TakesIn(ordered, site, events, Advances(k, m), k, q)
  {
    RunGoesOnward(site, events, Advances(k, m));
    AdvancesRun(site, s, k, m);
    LastStepTaken(s, k, n, m, q);
  }

  lemma {:induction false} GoesThenAdvances(
    ordered: bool, calls: seq<Attestation.Call>, more: seq<Event>, k: nat, m: nat)
    requires Goes(ordered, calls, more)
    ensures Goes(ordered, calls, more + Advances(k, m))
  {
  }

  lemma {:induction false} TakesLater(
    ordered: bool, site: Site, events: seq<Event>, first: seq<Event>, rest: seq<Event>, k: nat, q: Step -> bool)
    requires TakesBetween(After(site, events + first), After(site, events + first + rest), k, q)
    requires Goes(ordered, After(site, events).calls, first + rest)
    ensures TakesIn(ordered, site, events, first + rest, k, q)
  {
    TraceExtends(site, events, first);
    assert events + first + rest == events + (first + rest);
  }

  /** Judged next, and then left alone. */
  lemma {:induction false} JudgedThenReached(
    ordered: bool, site: Site, events: seq<Event>, more: seq<Event>, k: nat, now: int, n: nat, q: Step -> bool)
    requires Goes(ordered, After(site, events).calls, more + [Judge(k, now)])
    requires CanJudge(site, After(site, events + more), k)
    requires var f := Judged(site, After(site, events + more), k, now).flights[k];
             f.done <= n < |f.plan| && q(f.plan[n])
    ensures exists rest :: TakesIn(ordered, site, events, rest, k, q)
  {
    var judging, s := more + [Judge(k, now)], Judged(site, After(site, events + more), k, now);
    AfterSnoc(site, events + more, Judge(k, now));
    assert events + judging == (events + more) + [Judge(k, now)];
    var m := n + 1 - s.flights[k].done;
    AheadIsReached(ordered, site, events + judging, s, k, n, m, q);
    GoesThenAdvances(ordered, After(site, events).calls, judging, k, m);
    TakesLater(ordered, site, events, judging, Advances(k, m), k, q);
  }

  function Latest(calls: seq<Attestation.Call>): int {
    if calls == [] then 0
    else
      var before, last := Latest(calls[..|calls| - 1]), calls[|calls| - 1].now;
      if last > before then last else before
  }

  lemma {:induction false} NoneLater(calls: seq<Attestation.Call>, c: nat)
    requires c < |calls|
    ensures calls[c].now <= Latest(calls)
  {
    if c < |calls| - 1 { NoneLater(calls[..|calls| - 1], c); }
  }

  /** Judged far enough from its issue time, no message is fresh; and that can be as late as one likes. */
  lemma StaleVerdict(site: Site, w: ReplayCache.State, cfg: ReplayCache.Config, m: Attestation.Message, floor: int)
    returns (now: int)
    ensures now >= floor && Attestation.Verify(site.id, cfg, w, m, now).1.Err?
  {
    now := floor;
    if m.Object? && m.issuedAt.Issued? {
      var late := m.issuedAt.at + (if site.id.skew < 0 then 0 else (site.id.skew + 1) * Attestation.NANOS);
      now := if late > floor then late else floor;
      Attestation.FreshnessWindow(m.issuedAt.at, now, site.id.skew);
    }
  }

  lemma {:induction false} RefusalReached(ordered: bool, site: Site, events: seq<Event>, k: nat, q: Step -> bool)
    requires CanJudge(site, After(site, events), k) && q(IDENTITY_RECORD)
    requires site.setup.kind(After(site, events).flights[k].m).Intent?
    ensures exists more :: TakesIn(ordered, site, events, more, k, q)
  {
    var s := After(site, events);
    ReachableFlights(site, events, k);
    var now := StaleVerdict(site, s.world.s, s.world.cfg, s.flights[k].m, Latest(s.calls));
    forall c | 0 <= c < |s.calls| ensures s.calls[c].now <= now { NoneLater(s.calls, c); }
    assert events + [] == events && [] + [Judge(k, now)] == [Judge(k, now)];
    assert Judged(site, s, k, now).flights[k].plan == [IDENTITY_RECORD];
    JudgedThenReached(ordered, site, events, [], k, now, 0, q);
  }

  lemma {:induction false} AcceptanceReached(ordered: bool, site: Site, events: seq<Event>, k: nat, q: Step -> bool)
    requires k < |After(site, events).flights| && After(site, events).flights[k].verdict.None?
    requires CanVerify(ordered, site, events, k)
    requires Among(AcceptedSteps(site, After(site, events).flights[k].m, After(site, events).flights[k].a), 0, q)
    ensures exists more :: TakesIn(ordered, site, events, more, k, q)
  {
    var more, now :| VerifiesIn(ordered, site, events, more, k, now);
    var s := After(site, events + more);
    GoesUpto(ordered, After(site, events).calls, more + [Judge(k, now)], |more|);
    assert (more + [Judge(k, now)])[..|more|] == more;
    FlightKept(ordered, site, events, more, k);
    ReachableFlights(site, events + more, k);
    AcceptedPlan(site, s, k, now);
    var f := Judged(site, s, k, now).flights[k];
    assert f.done == 0;
    var n :| 0 <= n < |f.plan| && q(f.plan[n]);
    JudgedThenReached(ordered, site, events, more, k, now, n, q);
  }

  /**
   * A message in hand takes a step of a given kind in some continuation of this process if and only if one is still
   * ahead of it. Whether the gateway is halted plays no part.
   */
  lemma {:induction false} TakesExactly(ordered: bool, site: Site, events: seq<Event>, k: nat, q: Step -> bool)
    requires k < |After(site, events).flights|
    ensures (exists more :: TakesIn(ordered, site, events, more, k, q)) <==> Ahead(ordered, site, events, k, q)
  {
    var s := After(site, events);
    var f := s.flights[k];
    forall more | TakesIn(ordered, site, events, more, k, q) ensures Ahead(ordered, site, events, k, q) {
      TakenWasAhead(ordered, site, events, more, k, q);
    }
    if Ahead(ordered, site, events, k, q) {
      if f.verdict.Some? {
        var n :| f.done <= n < |f.plan| && q(f.plan[n]);
        AheadIsReached(ordered, site, events, s, k, n, n + 1 - f.done, q);
      } else if site.setup.kind(f.m).Intent? && q(IDENTITY_RECORD) {
        RefusalReached(ordered, site, events, k, q);
      } else {
        AcceptanceReached(ordered, site, events, k, q);
      }
    }
  }

  // ---- After a halt ----

  function Any(step: Step): bool { true }

  function SpendsStep(step: Step): bool { Spends(step) }

  function Writes(step: Step): bool { step == Relayed(true) }

  /**
   * The message arrived in time and has something left to do: a judged one has steps left; one still to be judged is
   * an intent, or can still be accepted and then has steps.
   */
  ghost predicate Unfinished(ordered: bool, site: Site, events: seq<Event>, k: nat) {
    var s := After(site, events);
    && k < |s.flights| && s.flights[k].live
    && var f := s.flights[k];
    if f.verdict.Some? then f.done < |f.plan|
    else site.setup.kind(f.m).Intent? || (CanVerify(ordered, site, events, k) && AcceptedSteps(site, f.m, f.a) != [])
  }

  /** What arrives at a halted gateway is dead on arrival. */
  lemma {:induction false} LateArrival(ordered: bool, site: Site, events: seq<Event>, more: seq<Event>, k: nat)
    requires After(site, events).halt.Some? && Goes(ordered, After(site, events).calls, more)
    requires k >= |After(site, events).flights|
    ensures var r := After(site, events + more);
            && r.halt.Some? && Of(r.trace, k) == Of(After(site, events).trace, k)
            && (k < |r.flights| ==> !r.flights[k].live)
    decreases |more|
  {
    if more == [] {
      assert events + more == events;
    } else {
      var front, e := more[..|more| - 1], more[|more| - 1];
      GoesUpto(ordered, After(site, events).calls, more, |more| - 1);
      LateArrival(ordered, site, events, front, k);
      AfterFront(site, events, more);
      LateStep(site, After(site, events + front), e, k);
    }
  }

  lemma {:induction false} LateStep(site: Site, s: State, e: Event, k: nat)
    requires s.halt.Some? && !e.Reboot? && (k < |s.flights| ==> !s.flights[k].live)
    ensures var r := Next(site, s, e);
            r.halt.Some? && Of(r.trace, k) == Of(s.trace, k) && (k < |r.flights| ==> !r.flights[k].live)
  {
    if e.Advance? && CanAdvance(s, e.flight) {
      OfGrows(s.trace, (e.flight, s.flights[e.flight].plan[s.flights[e.flight].done]), k);
    }
  }

  lemma {:induction false} LateArrivalTakesNothing(
    ordered: bool, site: Site, events: seq<Event>, more: seq<Event>, k: nat)
    requires After(site, events).halt.Some? && k >= |After(site, events).flights|
    ensures !TakesIn(ordered, site, events, more, k, Any)
  {
    if TakesIn(ordered, site, events, more, k, Any) {
      var s, r := After(site, events), After(site, events + more);
      var i :| |s.trace| <= i < |r.trace| && r.trace[i].0 == k && Any(r.trace[i].1);
      LateArrival(ordered, site, events, more, k);
      TraceExtends(site, events, more);
      PlaceOf(r.trace, i, k);
      OfPrefix(r.trace[..i], s.trace, k);
      assert false;
    }
  }

  /**
   * At a halted gateway and until a restart, a message can take another step if and only if it had arrived before
   * and is not finished.
   */
  lemma {:induction false} ActsAfterHaltExactly(ordered: bool, site: Site, events: seq<Event>, k: nat)
    requires After(site, events).halt.Some?
    ensures (exists more :: TakesIn(ordered, site, events, more, k, Any)) <==> Unfinished(ordered, site, events, k)
  {
    var s := After(site, events);
    if k < |s.flights| {
      var f := s.flights[k];
      TakesExactly(ordered, site, events, k, Any);
      SomeStep(f.plan, f.done);
      SomeStep(AcceptedSteps(site, f.m, f.a), 0);
    } else {
      forall more ensures !TakesIn(ordered, site, events, more, k, Any) {
        LateArrivalTakesNothing(ordered, site, events, more, k);
      }
    }
  }

  lemma SomeStep(steps: seq<Step>, from: nat)
    ensures Among(steps, from, Any) <==> from < |steps|
  {
    assert from < |steps| ==> Any(steps[from]);
  }

  /** Every step after a halt is of a message that had arrived before it and was not finished, until a restart. */
  lemma {:induction false} StepsAfterHaltArrivedBefore(
    ordered: bool, site: Site, events: seq<Event>, more: seq<Event>, i: nat)
    requires After(site, events).halt.Some? && Goes(ordered, After(site, events).calls, more)
    requires |After(site, events).trace| <= i < |After(site, events + more).trace|
    ensures After(site, events).trace <= After(site, events + more).trace
    ensures var k := After(site, events + more).trace[i].0;
            k < |After(site, events).flights| && Unfinished(ordered, site, events, k)
  {
    TraceExtends(site, events, more);
    var k := After(site, events + more).trace[i].0;
    assert Any(After(site, events + more).trace[i].1);
    assert TakesIn(ordered, site, events, more, k, Any);
    ActsAfterHaltExactly(ordered, site, events, k);
  }

  /** A credential is still fetched for a message in some continuation if and only if a fetch is ahead of it. */
  lemma {:induction false} SpendsAfterHaltExactly(ordered: bool, site: Site, events: seq<Event>, k: nat)
    requires After(site, events).halt.Some? && k < |After(site, events).flights|
    ensures var f := After(site, events).flights[k];
            (exists more :: TakesIn(ordered, site, events, more, k, SpendsStep)) <==>
            f.live && if f.verdict.Some? then Among(f.plan, f.done, SpendsStep)
                      else CanVerify(ordered, site, events, k) && Among(AcceptedSteps(site, f.m, f.a), 0, SpendsStep)
  {
    TakesExactly(ordered, site, events, k, SpendsStep);
  }

  /**
   * Bytes of a message still reach a channel in some continuation if and only if it is a command that names a session
   * which is found and takes them, and it was accepted and has not written yet, or can still be accepted.
   */
  lemma {:induction false} WritesAfterHaltExactly(ordered: bool, site: Site, events: seq<Event>, k: nat)
    requires After(site, events).halt.Some? && k < |After(site, events).flights|
    ensures var f := After(site, events).flights[k];
            (exists more :: TakesIn(ordered, site, events, more, k, Writes)) <==>
            && f.live && site.setup.kind(f.m).Command? && site.setup.handle(f.m).Some?
            && f.a.session.found && f.a.session.written
            && if f.verdict.Some? then f.verdict.value.Ok? && f.done == 0 else CanVerify(ordered, site, events, k)
  {
    var f := After(site, events).flights[k];
    TakesExactly(ordered, site, events, k, Writes);
    ReachableFlights(site, events, k);
    if f.verdict.Some? {
      WritesAhead(site, f.m, f.verdict.value, f.a, f.done);
    } else if CanVerify(ordered, site, events, k) {
      Acceptable(ordered, site, events, k);
      WritesAhead(
        site, f.m, Ok(Attestation.Verified(f.m.agent.value, f.m.issuedAt.at, f.m.nonce.value)), f.a, 0);
    }
  }

  lemma {:induction false} Acceptable(ordered: bool, site: Site, events: seq<Event>, k: nat)
    requires k < |After(site, events).flights| && CanVerify(ordered, site, events, k)
    ensures var m := After(site, events).flights[k].m;
            m.Object? && m.agent.Some? && m.issuedAt.Issued? && m.nonce.Some?
  {
    var more, now :| VerifiesIn(ordered, site, events, more, k, now);
    var s := After(site, events + more);
    GoesUpto(ordered, After(site, events).calls, more + [Judge(k, now)], |more|);
    assert (more + [Judge(k, now)])[..|more|] == more;
    FlightKept(ordered, site, events, more, k);
    Attestation.AcceptanceMeans(site.id, s.world.cfg, s.world.s, s.flights[k].m, now);
  }

  /** Writing is the first step of a command, and of nothing else. */
  lemma {:induction false} WritesAhead(site: Site, m: Attestation.Message, v: Judgement, a: Answers, done: nat)
    ensures Among(PlanFor(site.setup, m, v, a).steps, done, Writes) <==>
            && site.setup.kind(m).Command? && v.Ok? && site.setup.handle(m).Some?
            && a.session.found && a.session.written && done == 0
  {
    var steps := PlanFor(site.setup, m, v, a).steps;
    if site.setup.kind(m).Intent? && v.Ok? && site.setup.parse(m).Some? {
      var env := site.setup.parse(m).value;
      var d := DecisionFor(site.setup.rules, RequestOf(v.value.agent, env));
      forall n | 0 <= n < |steps| ensures !Writes(steps[n]) {
        NoIntentActsAsFrame(site, env, d, a, n);
      }
    } else if site.setup.kind(m).Command? && v.Ok? && steps != [] {
      assert Writes(steps[0]) <==> a.session.written;
    }
  }

  // ---- Whether a message can still be accepted ----

  /** Everything but the cache's room speaks for the message at that reading. */
  ghost predicate Welcome(site: Site, s: State, k: nat, now: int)
    requires k < |s.flights|
  {
    var m := s.flights[k].m;
    && (forall c :: 0 <= c < |s.calls| ==> s.calls[c].now <= now)
    && var v := Attestation.Preliminary(site.id, m, now);
    && v.Ok? && v.value.agent in site.id.enrolled && site.id.signed(site.id.enrolled[v.value.agent], m)
    && (v.value.agent, v.value.nonce) !in ReplayCache.Purged(s.world.s, Attestation.UnixSeconds(now)).seen
  }

  lemma {:induction false} KeysKeptAlong(site: Site, events: seq<Event>, more: seq<Event>, now: int)
    requires Goes(true, After(site, events).calls, more)
    requires forall i :: 0 <= i < |more| && more[i].Judge? ==> more[i].now <= now
    ensures var s, r := After(site, events), After(site, events + more);
            r.world.cfg == s.world.cfg && ReplayStale.KeysKept(s.world.s, r.world.s, Attestation.UnixSeconds(now))
    decreases |more|
  {
    if more == [] {
      assert events + more == events;
    } else {
      var front, e := more[..|more| - 1], more[|more| - 1];
      GoesUpto(true, After(site, events).calls, more, |more| - 1);
      KeysKeptAlong(site, events, front, now);
      AfterFront(site, events, more);
      var s := After(site, events + front);
      if e.Judge? && CanJudge(site, s, e.flight) {
        var v := Attestation.Preliminary(site.id, s.flights[e.flight].m, e.now);
        Attestation.SecondsFollowTime(e.now, now);
        if v.Ok? {
          ReplayStale.ReserveKeepsKeys(
            s.world.cfg, s.world.s, v.value.agent, v.value.nonce, Attestation.UnixSeconds(e.now),
            Attestation.Retention(site.id.skew), Attestation.UnixSeconds(now));
        }
      }
    }
  }

  /** Some reading from here on speaks for the message, the room in the journal aside. */
  ghost predicate EverWelcome(site: Site, events: seq<Event>, k: nat) {
    k < |After(site, events).flights| && exists now :: Welcome(site, After(site, events), k, now)
  }

  /** Some reading from here on gets the message accepted, if it is the next to be judged. */
  ghost predicate AcceptableNext(site: Site, events: seq<Event>, k: nat) {
    && k < |After(site, events).flights|
    && exists now :: Welcome(site, After(site, events), k, now) && VerifiesAt(site, After(site, events), k, now)
  }

  /**
   * A message still to be judged can be accepted if the cache accepts it at some reading from here on, and only if
   * everything but the room in the journal speaks for it at one. For a cache in memory the two are the same.
   */
  lemma {:induction false} CanVerifyMeans(site: Site, events: seq<Event>, k: nat)
    requires CanJudge(site, After(site, events), k)
    ensures AcceptableNext(site, events, k) ==> CanVerify(true, site, events, k)
    ensures CanVerify(true, site, events, k) ==> EverWelcome(site, events, k)
    ensures !After(site, events).world.cfg.persisted ==>
              (CanVerify(true, site, events, k) <==> EverWelcome(site, events, k))
  {
    if AcceptableNext(site, events, k) {
      var now :| Welcome(site, After(site, events), k, now) && VerifiesAt(site, After(site, events), k, now);
      AcceptedNext(site, events, k, now);
    }
    if CanVerify(true, site, events, k) { WelcomeThen(site, events, k); }
    if !After(site, events).world.cfg.persisted { InMemory(site, events, k); }
  }

  lemma {:induction false} InMemory(site: Site, events: seq<Event>, k: nat)
    requires CanJudge(site, After(site, events), k) && !After(site, events).world.cfg.persisted
    ensures EverWelcome(site, events, k) ==> CanVerify(true, site, events, k)
  {
    if EverWelcome(site, events, k) {
      var now :| Welcome(site, After(site, events), k, now);
      MemoryHasRoom(site, After(site, events), k, now);
      AcceptedNext(site, events, k, now);
    }
  }

  lemma {:induction false} AcceptedNext(site: Site, events: seq<Event>, k: nat, now: int)
    requires VerifiesAt(site, After(site, events), k, now) && Welcome(site, After(site, events), k, now)
    ensures CanVerify(true, site, events, k)
  {
    assert events + [] == events && [] + [Judge(k, now)] == [Judge(k, now)];
    assert VerifiesIn(true, site, events, [], k, now);
  }

  lemma {:induction false} MemoryHasRoom(site: Site, s: State, k: nat, now: int)
    requires CanJudge(site, s, k) && Welcome(site, s, k, now) && !s.world.cfg.persisted
    ensures VerifiesAt(site, s, k, now)
  {
    var v := Attestation.Preliminary(site.id, s.flights[k].m, now).value;
    assert ReplayCache.Reserve(s.world.cfg, s.world.s, v.agent, v.nonce, Attestation.UnixSeconds(now),
                               Attestation.Retention(site.id.skew)).1 == ReplayCache.Fresh;
  }

  lemma {:induction false} WelcomeThen(site: Site, events: seq<Event>, k: nat)
    requires CanJudge(site, After(site, events), k) && CanVerify(true, site, events, k)
    ensures EverWelcome(site, events, k)
  {
    var more, now :| VerifiesIn(true, site, events, more, k, now);
    var all := more + [Judge(k, now)];
    GoesUpto(true, After(site, events).calls, all, |more|);
    assert all[..|more|] == more && all[|more|] == Judge(k, now);
    assert forall i :: 0 <= i < |more| ==> all[i] == more[i];
    FlightKept(true, site, events, more, k);
    KeysKeptAlong(site, events, more, now);
    var s := After(site, events + more);
    Attestation.AcceptanceMeans(site.id, s.world.cfg, s.world.s, s.flights[k].m, now);
    assert Welcome(site, After(site, events), k, now);
  }

  // ---- It does happen ----

  /** Arrive, be judged, halt. */
  lemma {:induction false} HaltInHand(site: Site, m: Attestation.Message, a: Answers, now: int, reason: string)
    returns (events: seq<Event>)
    requires !site.setup.kind(m).Unsupported?
    ensures var s := After(site, events);
            var v := Attestation.Verify(site.id, site.cfg, ReplayCache.EMPTY, m, now).1;
            && s.halt == Some(reason) && s.trace == [] && |s.flights| == 1 && s.flights[0].live
            && s.flights[0].done == 0 && s.flights[0].plan == PlanFor(site.setup, m, v, a).steps
  {
    var arrived := [] + [Arrive(m, a)];
    AfterSnoc(site, [], Arrive(m, a));
    assert After(site, arrived).flights == [Flight(m, a, true, None, 0, [], 0)];
    assert CanJudge(site, After(site, arrived), 0);
    var judged := arrived + [Judge(0, now)];
    AfterSnoc(site, arrived, Judge(0, now));
    events := judged + [Halt(reason)];
    AfterSnoc(site, judged, Halt(reason));
  }

  /** And go on: every step of its plan can come after the halt. */
  lemma {:induction false} HaltedMessageGoesOn(
    site: Site, m: Attestation.Message, a: Answers, now: int, reason: string, n: nat, q: Step -> bool)
    returns (events: seq<Event>)
    requires !site.setup.kind(m).Unsupported?
    requires var v := Attestation.Verify(site.id, site.cfg, ReplayCache.EMPTY, m, now).1;
             var plan := PlanFor(site.setup, m, v, a).steps;
             n < |plan| && q(plan[n])
    ensures After(site, events).halt == Some(reason)
    ensures TakesIn(true, site, events, Advances(0, n + 1), 0, q)
  {
    events := HaltInHand(site, m, a, now, reason);
    AheadIsReached(true, site, events, After(site, events), 0, n, n + 1, q);
  }

  const ANY_RULE := Rule(None, true, Allow, Matchers.Any, Matchers.Any, Matchers.Any, Matchers.Any, [], NO_LIMITS)

  const BEARER :=
    Envelope("local://x", "https://x", "http-bearer", None, Operation(Some(HttpOperation(false)), None, "", []))

  function Bearer(m: Attestation.Message): Option<Envelope> { Some(BEARER) }

  function AnyHandle(m: Attestation.Message): Option<string> { Some("h") }

  /** One enrolled agent and one rule that allows everything; every message is of the one kind. */
  function OneRuleSite(kind: Attestation.Message -> Kind): Site {
    Site(Setup([ANY_RULE], kind, Bearer, AnyHandle, {}, None, false, false, false),
         Attestation.Identity(map["a" := 0], 5, Attestation.AnySignature),
         ReplayCache.Config(false, 0, Attestation.HundredBytes))
  }

  function AlwaysIntent(m: Attestation.Message): Kind { Intent }

  function AlwaysCommand(m: Attestation.Message): Kind { Command }

  const HONEST := Attestation.Object(Some("0.1"), Some("a"), Attestation.Issued(0), Some("n"), "")

  const YES := Answers(true, true, true, true, true, true, SessionAnswers(true, true, true, true))

  lemma {:induction false} HonestVerifies(site: Site, kind: Attestation.Message -> Kind)
    requires site == OneRuleSite(kind)
    ensures Attestation.Verify(site.id, site.cfg, ReplayCache.EMPTY, HONEST, 0).1
            == Ok(Attestation.Verified("a", 0, "n"))
  {
    Attestation.FreshnessWindow(0, 0, 5);
    assert "0.1" == "0." + "1";
    Attestation.SupportedVersions("0.1");
  }

  lemma {:induction false} AnyRuleAllows(req: Request)
    ensures DecisionFor([ANY_RULE], req).effect == Allow
  {
    assert Covers([ANY_RULE][0], req);
  }

  lemma {:induction false} BearerFetches(setup: Setup, d: Decision, a: Answers)
    requires d.effect == Allow && a.resolved
    ensures |IntentPlan(setup, BEARER, d, a).steps| > 1 && IntentPlan(setup, BEARER, d, a).steps[1] == Resolved(true)
  {
    assert RoutePlan(setup, BEARER, d, a) == InjectPlan(setup, d, a, a.injected);
  }

  /** With one rule that allows everything, a halt between the verdict and the fetch does not stop the fetch. */
  lemma {:induction false} CredentialAfterHalt(reason: string)
    returns (site: Site, events: seq<Event>, more: seq<Event>)
    ensures After(site, events).halt == Some(reason) && TakesIn(true, site, events, more, 0, SpendsStep)
  {
    site := OneRuleSite(AlwaysIntent);
    HonestVerifies(site, AlwaysIntent);
    var req := RequestOf("a", BEARER);
    var d := DecisionFor([ANY_RULE], req);
    AnyRuleAllows(req);
    BearerFetches(site.setup, d, YES);
    events := HaltedMessageGoesOn(site, HONEST, YES, 0, reason, 1, SpendsStep);
    more := Advances(0, 2);
  }

  /** Nor does a halt between the verdict on a command and its write keep the bytes from the channel. */
  lemma {:induction false} BytesAfterHalt(reason: string)
    returns (site: Site, events: seq<Event>, more: seq<Event>)
    ensures After(site, events).halt == Some(reason) && TakesIn(true, site, events, more, 0, Writes)
  {
    site := OneRuleSite(AlwaysCommand);
    HonestVerifies(site, AlwaysCommand);
    events := HaltedMessageGoesOn(site, HONEST, YES, 0, reason, 0, Writes);
    more := Advances(0, 1);
  }
}

/** Signed frames and process lives: a frame acts only in the life it was verified in, and there its owner is served. */
module SessionLives {
  import opened Text
  import opened SessionTable
  import opened SessionRuns
  import opened SessionAttested
  import Attestation

  // ---- A frame acts in its own life ----

  function Restarts(calls: seq<Attestation.Call>): nat {
    if calls == [] then 0 else Restarts(calls[..|calls| - 1]) + Bit(calls[|calls| - 1].Reboot?)
  }

  /** The arrival was judged after `l` restarts. */
  predicate JudgedIn(w: Whole, k: nat, l: nat) {
    k < |w.arrivals| && w.arrivals[k].call < |w.calls| && Restarts(w.calls[..w.arrivals[k].call]) == l
  }

  lemma {:induction false} JudgedStays(site: Site, w: Whole, move: Move, k: nat, l: nat)
    requires w.lives != [] && JudgedIn(w, k, l)
    ensures JudgedIn(Next(site, w, move), k, l)
  {
    ArrivalKept(site, w, move, k);
    var r, c := Next(site, w, move), w.arrivals[k].call;
    assert r.calls[..c] == w.calls[..c];
  }

  lemma {:induction false} LivesCounted(site: Site, moves: seq<Move>)
    ensures |Run(site, moves).lives| == Restarts(Run(site, moves).calls) + 1
  {
    if moves != [] {
      var before, last := moves[..|moves| - 1], moves[|moves| - 1];
      LivesCounted(site, before);
      var w, r := Run(site, before), Run(site, moves);
      if r.calls != w.calls { assert r.calls[..|r.calls| - 1] == w.calls; }
    }
  }

  /** An arrival that may still enter was judged in the current life. */
  lemma {:induction false} LiveIsCurrent(site: Site, moves: seq<Move>, k: nat)
    requires k < |Run(site, moves).arrivals| && Run(site, moves).arrivals[k].live
    ensures JudgedIn(Run(site, moves), k, |Run(site, moves).lives| - 1)
  {
    var before, last := moves[..|moves| - 1], moves[|moves| - 1];
    var w, r := Run(site, before), Run(site, moves);
    if k < |w.arrivals| {
      LiveIsCurrent(site, before, k);
      JudgedStays(site, w, last, k, |w.lives| - 1);
    } else {
      LivesCounted(site, before);
      assert r.calls[..|w.calls|] == w.calls;
    }
  }

  /** Every frame in a life's history was verified in that life: none is carried over a restart. */
  lemma {:induction false} FrameActsInItsLife(site: Site, moves: seq<Move>, l: nat, b: nat)
    requires var w := Run(site, moves); l < |w.lives| && b < |w.lives[l].steps| && IsFrame(w.lives[l].steps[b])
    ensures Has(Run(site, moves), l, b) && JudgedIn(Run(site, moves), Run(site, moves).lives[l].from[b], l)
  {
    OldOrEntered(site, moves, l, b);
    var before, last := moves[..|moves| - 1], moves[|moves| - 1];
    var w := Run(site, before);
    if Has(w, l, b) {
      FrameActsInItsLife(site, before, l, b);
      JudgedStays(site, w, last, w.lives[l].from[b], l);
    } else {
      LiveIsCurrent(site, before, last.arrival);
      JudgedStays(site, w, last, last.arrival, l);
    }
  }

  // ---- The owner is served ----

  /** The session steps of the current life. */
  function Steps(w: Whole): seq<Event>
    requires w.lives != []
  {
    w.lives[|w.lives| - 1].steps
  }

  lemma {:induction false} RunMore(site: Site, moves: seq<Move>, move: Move)
    ensures Run(site, moves + [move]) == Next(site, Run(site, moves), move)
  {
    assert (moves + [move])[..|moves|] == moves;
  }

  lemma {:induction false} AfterMore(steps: seq<Event>, e: Event)
    ensures After(steps + [e]) == Step(After(steps), |steps|, e)
  {
    assert (steps + [e])[..|steps|] == steps;
  }

  /** Delivered and entered, an accepted frame is the next step of the current life. */
  lemma {:induction false} AcceptedEnters(site: Site, moves: seq<Move>, m: Message, now: int, at: int)
    requires Attestation.Verify(site.id, Run(site, moves).world.cfg, Run(site, moves).world.s, m, now).1.Ok?
    ensures var w := Run(site, moves);
            var v := Attestation.Verify(site.id, w.world.cfg, w.world.s, m, now).1.value;
            var r := Run(site, moves + [Deliver(m, now)] + [Enter(|w.arrivals|, at)]);
            |r.lives| == |w.lives| && Steps(r) == Steps(w) + [FrameStep(site, m, v.agent, at)]
  {
    var w := Run(site, moves);
    RunMore(site, moves, Deliver(m, now));
    RunMore(site, moves + [Deliver(m, now)], Enter(|w.arrivals|, at));
  }

  /** The session answers this agent under this handle at this time, and its channel is free. */
  predicate Serves(s: State, id: nat, handle: Option<string>, agent: string, at: int) {
    && Live(s.store, id) && handle == Some(s.store.arena[id].handle) && s.store.arena[id].agent == agent
    && at < s.store.arena[id].expiresAt && s.store.arena[id].holder.None?
  }

  lemma {:induction false} CommandThenWrite(
    s: State, step: nat, handle: Option<string>, agent: string, input: Bytes, at: int, id: nat)
    requires Wf(s) && Serves(s, id, handle, agent, at)
    ensures var looked := Step(s, step, Command(Some(agent), handle, input, at));
            var r := Step(looked, step + 1, Write(|s.frames|, true));
            r.trace == s.trace + [Wrote(id, |s.frames|, |input|, true)]
  {
  }

  lemma {:induction false} WrittenNext(
    steps: seq<Event>, handle: Option<string>, agent: string, input: Bytes, at: int, id: nat)
    requires Serves(After(steps), id, handle, agent, at)
    ensures var s := After(steps);
            After(steps + [Command(Some(agent), handle, input, at)] + [Write(|s.frames|, true)]).trace
            == s.trace + [Wrote(id, |s.frames|, |input|, true)]
  {
    var s, command := After(steps), Command(Some(agent), handle, input, at);
    AfterMore(steps, command);
    AfterMore(steps + [command], Write(|s.frames|, true));
    CommandThenWrite(s, |steps|, handle, agent, input, at, id);
  }

  /** And then any other step. */
  lemma {:induction false} EntersThenSteps(site: Site, moves: seq<Move>, m: Message, now: int, at: int, e: Event)
    requires Attestation.Verify(site.id, Run(site, moves).world.cfg, Run(site, moves).world.s, m, now).1.Ok?
    requires !IsFrame(e)
    ensures var w := Run(site, moves);
            var v := Attestation.Verify(site.id, w.world.cfg, w.world.s, m, now).1.value;
            var r := Run(site, moves + [Deliver(m, now)] + [Enter(|w.arrivals|, at)] + [Inside(e)]);
            Steps(r) == Steps(w) + [FrameStep(site, m, v.agent, at)] + [e]
  {
    AcceptedEnters(site, moves, m, now, at);
    RunMore(site, moves + [Deliver(m, now)] + [Enter(|Run(site, moves).arrivals|, at)], Inside(e));
  }

  /**
   * In every run, a command that is accepted, from the agent that a session answers, naming it before its end while
   * its channel is free, is written to that channel when it enters and takes its turn.
   */
  lemma {:induction false} OwnersCommandIsWritten(
    site: Site, moves: seq<Move>, m: Message, now: int, at: int, agent: string, id: nat)
    requires !site.closes(m) && Serves(After(Steps(Run(site, moves))), id, site.handle(m), agent, at)
    requires var v := Attestation.Verify(site.id, Run(site, moves).world.cfg, Run(site, moves).world.s, m, now).1;
             v.Ok? && v.value.agent == agent
    ensures var w := Run(site, moves);
            var s := After(Steps(w));
            var write := Inside(Write(|s.frames|, true));
            After(Steps(Run(site, moves + [Deliver(m, now)] + [Enter(|w.arrivals|, at)] + [write]))).trace
            == s.trace + [Wrote(id, |s.frames|, |site.input(m)|, true)]
  {
    var steps := Steps(Run(site, moves));
    EntersThenSteps(site, moves, m, now, at, Write(|After(steps).frames|, true));
    WrittenNext(steps, site.handle(m), agent, site.input(m), at, id);
  }

  lemma {:induction false} ClosedNext(steps: seq<Event>, handle: Option<string>, agent: string, id: nat)
    requires Live(After(steps).store, id)
    requires var e := After(steps).store.arena[id]; handle == Some(e.handle) && e.agent == agent
    ensures var r := After(steps + [Close(Some(agent), handle)]);
            !Live(r.store, id) && r.trace == After(steps).trace + [Removed({id})]
  {
    AfterMore(steps, Close(Some(agent), handle));
    TakeUnlists(After(steps).store, handle.value, agent, id);
  }

  /** And a close that is accepted takes the session out of the table, whatever its time left or its channel. */
  lemma {:induction false} OwnersCloseEnds(
    site: Site, moves: seq<Move>, m: Message, now: int, at: int, agent: string, id: nat)
    requires site.closes(m) && Live(After(Steps(Run(site, moves))).store, id)
    requires var e := After(Steps(Run(site, moves))).store.arena[id];
             site.handle(m) == Some(e.handle) && e.agent == agent
    requires var v := Attestation.Verify(site.id, Run(site, moves).world.cfg, Run(site, moves).world.s, m, now).1;
             v.Ok? && v.value.agent == agent
    ensures var w := Run(site, moves);
            var r := After(Steps(Run(site, moves + [Deliver(m, now)] + [Enter(|w.arrivals|, at)])));
            !Live(r.store, id) && r.trace == After(Steps(w)).trace + [Removed({id})]
  {
    AcceptedEnters(site, moves, m, now, at);
    ClosedNext(Steps(Run(site, moves)), site.handle(m), agent, id);
  }
}

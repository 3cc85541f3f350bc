/**
 * Session frames with their signatures. A frame is verified under the replay cache's lock and enters the session
 * table later, among whatever else happens; a restart loses the table and keeps the cache's journal.
 */
module SessionAttested {
  import opened Text
  import opened SessionRuns
  import Attestation
  import ReplayCache
  import ReplayRuns

  type Message = Attestation.Message

  /** What a frame asks for is read off the signed message. */
  datatype Site = Site(
    id: Attestation.Identity,
    cfg: ReplayCache.Config,
    closes: Message -> bool,
    handle: Message -> Option<string>,
    input: Message -> Bytes)

  /** A frame judged by the call at place `call`; it enters the table at most once, in the life it arrived in. */
  datatype Arrival = Arrival(
    m: Message, call: nat, verdict: Result<Attestation.Verified, Attestation.IdentityError>, live: bool, entered: bool)

  /** The session steps of one process life, and for those that are frames the arrival each came from. */
  datatype Life = Life(steps: seq<Event>, from: seq<nat>)

  datatype Whole = Whole(
    world: ReplayRuns.World, calls: seq<Attestation.Call>, arrivals: seq<Arrival>, lives: seq<Life>)

  datatype Move =
    | Deliver(m: Message, now: int)
    | Enter(arrival: nat, at: int)
    | Inside(step: Event)
    | Reboot(cap: nat, now: int)

  predicate IsFrame(e: Event) {
    e.Command? || e.Close?
  }

  predicate CanEnter(w: Whole, k: nat) {
    k < |w.arrivals| && w.arrivals[k].live && !w.arrivals[k].entered && w.arrivals[k].verdict.Ok?
  }

  function FrameStep(site: Site, m: Message, agent: string, at: int): Event {
    if site.closes(m) then Close(Some(agent), site.handle(m))
    else Command(Some(agent), site.handle(m), site.input(m), at)
  }

  function Added(lives: seq<Life>, e: Event, k: nat): (r: seq<Life>)
    requires lives != []
    ensures |r| == |lives|
  {
    var last := lives[|lives| - 1];
    lives[|lives| - 1 := Life(last.steps + [e], last.from + [k])]
  }

  function Next(site: Site, w: Whole, move: Move): (r: Whole)
    requires w.lives != []
    ensures r.lives != []
  {
    match move
    case Deliver(m, now) =>
      var call := Attestation.Deliver(m, now);
      var (_, v) := Attestation.Verify(site.id, w.world.cfg, w.world.s, m, now);
      Whole(Attestation.Handle(site.id, w.world, call), w.calls + [call],
            w.arrivals + [Arrival(m, |w.calls|, v, true, false)], w.lives)
    case Enter(k, at) =>
      if CanEnter(w, k) then
        var a := w.arrivals[k];
        w.(arrivals := w.arrivals[k := a.(entered := true)],
           lives := Added(w.lives, FrameStep(site, a.m, a.verdict.value.agent, at), k))
      else w
    case Inside(e) => if IsFrame(e) then w else w.(lives := Added(w.lives, e, 0))
    case Reboot(cap, now) =>
      var call := Attestation.Reboot(cap, now);
      Whole(Attestation.Handle(site.id, w.world, call), w.calls + [call],
            seq(|w.arrivals|, i requires 0 <= i < |w.arrivals| => w.arrivals[i].(live := false)),
            w.lives + [Life([], [])])
  }

  function Run(site: Site, moves: seq<Move>): (w: Whole)
    ensures w.lives != []
  {
    if moves == [] then Whole(ReplayRuns.World(site.cfg, ReplayCache.EMPTY), [], [], [Life([], [])])
    else Next(site, Run(site, moves[..|moves| - 1]), moves[|moves| - 1])
  }

  // ---- Arrivals ----

  ghost predicate ArrivalGood(site: Site, w: Whole, k: nat)
    requires k < |w.arrivals|
  {
    var a := w.arrivals[k];
    && a.call < |w.calls| && w.calls[a.call].Deliver? && w.calls[a.call].m == a.m
    && a.verdict == Attestation.VerdictAt(site.id, site.cfg, w.calls, a.call)
  }

  lemma {:induction false} WorldFollows(site: Site, moves: seq<Move>)
    ensures Run(site, moves).world == Attestation.After(site.id, site.cfg, Run(site, moves).calls)
  {
    if moves != [] {
      WorldFollows(site, moves[..|moves| - 1]);
      WorldStep(site, Run(site, moves[..|moves| - 1]), moves[|moves| - 1]);
    }
  }

  lemma {:induction false} WorldStep(site: Site, w: Whole, move: Move)
    requires w.lives != [] && w.world == Attestation.After(site.id, site.cfg, w.calls)
    ensures Next(site, w, move).world == Attestation.After(site.id, site.cfg, Next(site, w, move).calls)
  {
    var r := Next(site, w, move);
    if r.calls != w.calls { assert r.calls[..|r.calls| - 1] == w.calls; }
  }

  lemma {:induction false} CallsGrow(site: Site, calls: seq<Attestation.Call>, c: Attestation.Call, i: nat)
    requires i < |calls| && calls[i].Deliver?
    ensures Attestation.VerdictAt(site.id, site.cfg, calls + [c], i)
            == Attestation.VerdictAt(site.id, site.cfg, calls, i)
  {
    assert (calls + [c])[..i] == calls[..i];
  }

  lemma {:induction false} ArrivalsGood(site: Site, moves: seq<Move>, k: nat)
    requires k < |Run(site, moves).arrivals|
    ensures ArrivalGood(site, Run(site, moves), k)
  {
    var before, last := moves[..|moves| - 1], moves[|moves| - 1];
    var w := Run(site, before);
    if k < |w.arrivals| {
      ArrivalsGood(site, before, k);
      if last.Deliver? { CallsGrow(site, w.calls, Attestation.Deliver(last.m, last.now), w.arrivals[k].call); }
      if last.Reboot? { CallsGrow(site, w.calls, Attestation.Reboot(last.cap, last.now), w.arrivals[k].call); }
    } else {
      WorldFollows(site, before);
      assert Run(site, moves).calls[..|w.calls|] == w.calls;
    }
  }

  /** Each arrival was judged by a call of its own. */
  lemma {:induction false} OwnCall(site: Site, moves: seq<Move>, j: nat, k: nat)
    requires j < k < |Run(site, moves).arrivals|
    ensures Run(site, moves).arrivals[j].call < Run(site, moves).arrivals[k].call
  {
    var before := moves[..|moves| - 1];
    if k < |Run(site, before).arrivals| {
      OwnCall(site, before, j, k);
    } else {
      ArrivalsGood(site, before, j);
    }
  }

  // ---- Where frames come from ----

  /** A frame in the table's history is what its arrival asked for, under the name it verified as. */
  ghost predicate Sourced(site: Site, w: Whole, l: nat, b: nat) {
    && l < |w.lives| && b < |w.lives[l].steps| && |w.lives[l].from| == |w.lives[l].steps|
    && var e, k := w.lives[l].steps[b], w.lives[l].from[b];
    IsFrame(e) ==>
      && k < |w.arrivals| && w.arrivals[k].entered && w.arrivals[k].verdict.Ok?
      && var a := w.arrivals[k];
      if site.closes(a.m) then e == Close(Some(a.verdict.value.agent), site.handle(a.m))
      else e.Command? && e == Command(Some(a.verdict.value.agent), site.handle(a.m), site.input(a.m), e.now)
  }

  lemma {:induction false} ArrivalKept(site: Site, w: Whole, move: Move, k: nat)
    requires w.lives != [] && k < |w.arrivals|
    ensures var r := Next(site, w, move);
            && k < |r.arrivals| && r.arrivals[k].m == w.arrivals[k].m && r.arrivals[k].verdict == w.arrivals[k].verdict
            && r.arrivals[k].call == w.arrivals[k].call && (w.arrivals[k].entered ==> r.arrivals[k].entered)
  {
  }

  /** A move adds at most one step, to the current life. */
  lemma {:induction false} LivesGrow(site: Site, w: Whole, move: Move, l: nat)
    requires w.lives != [] && l < |w.lives|
    ensures var r := Next(site, w, move);
            && l < |r.lives|
            && (r.lives[l] == w.lives[l]
                || (exists e, k :: r.lives[l] == Life(w.lives[l].steps + [e], w.lives[l].from + [k])
                                   && l == |w.lives| - 1 && Adds(site, w, move, e, k)))
  {
    var last := w.lives[|w.lives| - 1];
    match move
    case Enter(k, at) =>
      if CanEnter(w, k) {
        var e := FrameStep(site, w.arrivals[k].m, w.arrivals[k].verdict.value.agent, at);
        assert Adds(site, w, move, e, k);
      }
    case Inside(e) => if !IsFrame(e) { assert Adds(site, w, move, e, 0); }
    case _ =>
  }

  ghost predicate Adds(site: Site, w: Whole, move: Move, e: Event, k: nat) {
    if IsFrame(e) then
      && move.Enter? && move.arrival == k && CanEnter(w, k)
      && e == FrameStep(site, w.arrivals[k].m, w.arrivals[k].verdict.value.agent, move.at)
    else true
  }

  lemma {:induction false} SameLengths(site: Site, moves: seq<Move>, l: nat)
    requires l < |Run(site, moves).lives|
    ensures |Run(site, moves).lives[l].from| == |Run(site, moves).lives[l].steps|
  {
    if moves != [] {
      var before, last := moves[..|moves| - 1], moves[|moves| - 1];
      if l < |Run(site, before).lives| {
        SameLengths(site, before, l);
        LivesGrow(site, Run(site, before), last, l);
      }
    }
  }

  lemma {:induction false} FramesSourced(site: Site, moves: seq<Move>, l: nat, b: nat)
    requires l < |Run(site, moves).lives| && b < |Run(site, moves).lives[l].steps|
    ensures Sourced(site, Run(site, moves), l, b)
  {
    SameLengths(site, moves, l);
    var before, last := moves[..|moves| - 1], moves[|moves| - 1];
    var w := Run(site, before);
    if l < |w.lives| {
      SameLengths(site, before, l);
      LivesGrow(site, w, last, l);
      if b < |w.lives[l].steps| {
        FramesSourced(site, before, l, b);
        if IsFrame(w.lives[l].steps[b]) { ArrivalKept(site, w, last, w.lives[l].from[b]); }
      }
    }
  }

  predicate Has(w: Whole, l: nat, b: nat) {
    l < |w.lives| && b < |w.lives[l].steps| && b < |w.lives[l].from|
  }

  /** A frame in the history was there before the last move, or that move entered it at the very end. */
  lemma {:induction false} OldOrEntered(site: Site, moves: seq<Move>, l: nat, b: nat)
    requires var w := Run(site, moves); l < |w.lives| && b < |w.lives[l].steps| && IsFrame(w.lives[l].steps[b])
    ensures moves != [] && Has(Run(site, moves), l, b)
    ensures var w, r, last := Run(site, moves[..|moves| - 1]), Run(site, moves), moves[|moves| - 1];
            || (Has(w, l, b) && r.lives[l].steps[b] == w.lives[l].steps[b] && r.lives[l].from[b] == w.lives[l].from[b])
            || (l == |w.lives| - 1 && b == |w.lives[l].steps|
                && last.Enter? && r.lives[l].from[b] == last.arrival && CanEnter(w, last.arrival))
  {
    SameLengths(site, moves, l);
    var before, last := moves[..|moves| - 1], moves[|moves| - 1];
    var w := Run(site, before);
    if l < |w.lives| {
      SameLengths(site, before, l);
      LivesGrow(site, w, last, l);
    }
  }

  /** No arrival enters twice, in one life or in two. */
  lemma {:induction false} OneEntry(site: Site, moves: seq<Move>, l: nat, b: nat, l': nat, b': nat)
    requires var w := Run(site, moves);
             && l < |w.lives| && b < |w.lives[l].steps| && IsFrame(w.lives[l].steps[b])
             && l' < |w.lives| && b' < |w.lives[l'].steps| && IsFrame(w.lives[l'].steps[b'])
             && (l, b) != (l', b')
    ensures var w := Run(site, moves);
            && b < |w.lives[l].from| && b' < |w.lives[l'].from| && w.lives[l].from[b] != w.lives[l'].from[b']
  {
    OldOrEntered(site, moves, l, b);
    OldOrEntered(site, moves, l', b');
    var before := moves[..|moves| - 1];
    var w := Run(site, before);
    if Has(w, l, b) && Has(w, l', b') {
      OneEntry(site, before, l, b, l', b');
    } else if Has(w, l, b) {
      FramesSourced(site, before, l, b);
    } else if Has(w, l', b') {
      FramesSourced(site, before, l', b');
    }
  }

  // ---- The theorems ----

  /** The message behind a write: the arrival from which the writing frame was born. */
  ghost function SourceOf(w: Whole, l: nat, i: nat): nat
    requires l < |w.lives| && |w.lives[l].from| == |w.lives[l].steps|
    requires i < |After(w.lives[l].steps).trace| && After(w.lives[l].steps).trace[i].Wrote?
  {
    var s := After(w.lives[l].steps);
    var f := s.trace[i].frame;
    if f < |s.frames| && s.frames[f].born < |w.lives[l].from| then w.lives[l].from[s.frames[f].born] else 0
  }

  /** An effect of life `l` that wrote to a channel. */
  ghost predicate WroteAt(w: Whole, l: nat, i: nat) {
    && l < |w.lives| && |w.lives[l].from| == |w.lives[l].steps|
    && i < |After(w.lives[l].steps).trace| && After(w.lives[l].steps).trace[i].Wrote?
  }

  /** The frame is what arrival `k` asked for, and that message carries its agent's signature and was accepted. */
  ghost predicate SignedFrame(site: Site, w: Whole, f: Frame, k: nat) {
    && k < |w.arrivals| && w.arrivals[k].call < |w.calls| && w.arrivals[k].verdict.Ok?
    && Attestation.AcceptedAt(site.id, site.cfg, w.calls, w.arrivals[k].call)
    && var m := w.arrivals[k].m;
    && m.Object? && m.agent == Some(f.agent) && site.handle(m) == Some(f.handle) && site.input(m) == f.input
    && f.agent in site.id.enrolled && site.id.signed(site.id.enrolled[f.agent], m)
  }

  /** The frame whose write is effect `i` of the life, and the step it was born at. */
  ghost predicate Writer(steps: seq<Event>, i: nat, f: nat, b: nat) {
    && i < |After(steps).trace| && After(steps).trace[i].Wrote? && After(steps).trace[i].frame == f
    && f < |After(steps).frames| && After(steps).frames[f].id == After(steps).trace[i].id
    && Authorised(steps, After(steps).frames[f]) && After(steps).frames[f].born == b
  }

  /**
   * Whatever is written to a channel is the input of a message that carries the signature of the agent who opened
   * the session, names that session, and was fresh and unused when it was judged.
   */
  lemma {:induction false} WritesAreSigned(site: Site, moves: seq<Move>, l: nat, i: nat) returns (f: nat, b: nat)
    requires WroteAt(Run(site, moves), l, i)
    ensures Writer(Run(site, moves).lives[l].steps, i, f, b)
    ensures var w := Run(site, moves);
            && b < |w.lives[l].from| && SourceOf(w, l, i) == w.lives[l].from[b] && IsFrame(w.lives[l].steps[b])
            && SignedFrame(site, w, After(w.lives[l].steps).frames[f], SourceOf(w, l, i))
  {
    var w := Run(site, moves);
    var steps := w.lives[l].steps;
    OnlyTheOpenerWrites(steps, i);
    f := After(steps).trace[i].frame;
    b := After(steps).frames[f].born;
    SourceSigned(site, moves, l, After(steps).frames[f]);
  }

  lemma {:induction false} SourceSigned(site: Site, moves: seq<Move>, l: nat, f: Frame)
    requires l < |Run(site, moves).lives| && Authorised(Run(site, moves).lives[l].steps, f)
    ensures var life := Run(site, moves).lives[l];
            f.born < |life.from| && SignedFrame(site, Run(site, moves), f, life.from[f.born])
  {
    var w := Run(site, moves);
    FramesSourced(site, moves, l, f.born);
    var k := w.lives[l].from[f.born];
    ArrivalsGood(site, moves, k);
    var c := w.arrivals[k].call;
    var then_ := Attestation.After(site.id, site.cfg, w.calls[..c]);
    Attestation.AcceptanceMeans(site.id, then_.cfg, then_.s, w.calls[c].m, w.calls[c].now);
  }

  /** One signed frame reaches a channel at most once, in one life or over restarts. */
  lemma {:induction false} SignedFrameWritesOnce(
    site: Site, moves: seq<Move>, stale: nat, l: nat, i: nat, l': nat, i': nat)
    requires site.cfg.persisted && Attestation.Timely(Run(site, moves).calls, stale)
    requires site.id.skew < 0 || site.id.skew >= stale + 3
    requires WroteAt(Run(site, moves), l, i) && WroteAt(Run(site, moves), l', i') && (l, i) != (l', i')
    ensures var w := Run(site, moves);
            var k, k' := SourceOf(w, l, i), SourceOf(w, l', i');
            && k < |w.arrivals| && k' < |w.arrivals| && !Attestation.SameIntent(w.arrivals[k].m, w.arrivals[k'].m)
  {
    var w := Run(site, moves);
    var k, k' := SourceOf(w, l, i), SourceOf(w, l', i');
    var f, b := WritesAreSigned(site, moves, l, i);
    var f', b' := WritesAreSigned(site, moves, l', i');
    if l == l' {
      var steps := w.lives[l].steps;
      if i < i' { BornApart(steps, i, f, b, i', f', b'); } else { BornApart(steps, i', f', b', i, f, b); }
    }
    OneEntry(site, moves, l, b, l', b');
    TwoIntents(site, moves, stale, k, k');
  }

  /** Two arrivals that were both accepted are of two intents. */
  lemma {:induction false} TwoIntents(site: Site, moves: seq<Move>, stale: nat, k: nat, k': nat)
    requires site.cfg.persisted && Attestation.Timely(Run(site, moves).calls, stale)
    requires site.id.skew < 0 || site.id.skew >= stale + 3
    requires k < |Run(site, moves).arrivals| && k' < |Run(site, moves).arrivals| && k != k'
    requires Run(site, moves).arrivals[k].verdict.Ok? && Run(site, moves).arrivals[k'].verdict.Ok?
    ensures !Attestation.SameIntent(Run(site, moves).arrivals[k].m, Run(site, moves).arrivals[k'].m)
  {
    var w := Run(site, moves);
    var c, c' := w.arrivals[k].call, w.arrivals[k'].call;
    if k < k' { OwnCall(site, moves, k, k'); } else { OwnCall(site, moves, k', k); }
    ArrivalsGood(site, moves, k);
    ArrivalsGood(site, moves, k');
    if Attestation.SameIntent(w.arrivals[k].m, w.arrivals[k'].m) {
      Attestation.AcceptedOnce(site.id, site.cfg, w.calls, stale, if c < c' then c else c', if c < c' then c' else c);
    }
  }

  /** Two writes of one life are of frames born at different steps. */
  lemma {:induction false} BornApart(steps: seq<Event>, i: nat, f: nat, b: nat, i': nat, f': nat, b': nat)
    requires Writer(steps, i, f, b) && Writer(steps, i', f', b') && i < i'
    ensures b != b'
  {
    FrameWritesOnce(steps, i, i');
    if f < f' { OwnBirth(steps, f, f'); } else { OwnBirth(steps, f', f); }
  }
}

/** How long a session answers, said of the steps alone: the opening step fixes its owner, its handle and its end. */
module SessionLifetimes {
  import opened Text
  import opened SessionTable
  import opened SessionRuns

  function Openings(events: seq<Event>): nat {
    if events == [] then 0 else Openings(events[..|events| - 1]) + Bit(events[|events| - 1].Opens?)
  }

  /** Step `o` opens session `id`: sessions are numbered in the order they are opened. */
  predicate OpensSession(events: seq<Event>, o: nat, id: nat) {
    o < |events| && events[o].Opens? && Openings(events[..o]) == id
  }

  // ---- A session keeps what its opening gave it ----

  predicate OpenedAs(entry: Entry, e: Event) {
    e.Opens? && entry.handle == e.handle && entry.agent == e.agent && entry.openedAt == e.now
    && entry.expiresAt == e.now + e.ttl
  }

  lemma {:induction false} StepOpens(s: State, step: nat, e: Event)
    requires Wf(s)
    ensures |Step(s, step, e).store.arena| == |s.store.arena| + Bit(e.Opens?)
    ensures e.Opens? ==> OpenedAs(Step(s, step, e).store.arena[|s.store.arena|], e)
  {
  }

  lemma {:induction false} StepKeepsOpening(s: State, step: nat, e: Event, id: nat, opening: Event)
    requires Wf(s) && id < |s.store.arena| && OpenedAs(s.store.arena[id], opening)
    ensures id < |Step(s, step, e).store.arena| && OpenedAs(Step(s, step, e).store.arena[id], opening)
  {
  }

  lemma {:induction false} OpeningsCounted(events: seq<Event>)
    ensures |After(events).store.arena| == Openings(events)
  {
    if events != [] {
      var before := events[..|events| - 1];
      OpeningsCounted(before);
      StepOpens(After(before), |events| - 1, events[|events| - 1]);
    }
  }

  /** Every session there is was opened by one step, as that step says. */
  lemma {:induction false} HasItsOpening(events: seq<Event>, id: nat) returns (o: nat)
    requires id < |After(events).store.arena|
    ensures OpensSession(events, o, id) && OpenedAs(After(events).store.arena[id], events[o])
  {
    var before, last := events[..|events| - 1], events[|events| - 1];
    var s := After(before);
    OpeningsCounted(before);
    StepOpens(s, |events| - 1, last);
    if id < |s.store.arena| {
      o := HasItsOpening(before, id);
      assert before[..o] == events[..o];
      StepKeepsOpening(s, |events| - 1, last, id, events[o]);
    } else {
      o := |events| - 1;
    }
  }

  lemma {:induction false} OpeningsGrow(events: seq<Event>, i: nat, j: nat)
    requires i < j <= |events| && events[i].Opens?
    ensures Openings(events[..i]) < Openings(events[..j])
    decreases j
  {
    assert events[..j][..j - 1] == events[..j - 1];
    if i < j - 1 { OpeningsGrow(events, i, j - 1); }
  }

  /** No two steps open the same session. */
  lemma {:induction false} OneOpening(events: seq<Event>, o: nat, p: nat, id: nat)
    requires OpensSession(events, o, id) && OpensSession(events, p, id)
    ensures o == p
  {
    if o < p { OpeningsGrow(events, o, p); }
    if p < o { OpeningsGrow(events, p, o); }
  }

  // ---- Writing ----

  /**
   * In every run, what is written to a session's channel is the input of a command that came after the session was
   * opened, verified as the agent it was opened for, named its handle, and was looked up before the opening time
   * plus the lifetime it was opened with.
   */
  lemma {:induction false} WrittenInItsTime(events: seq<Event>, i: nat) returns (o: nat, b: nat)
    requires i < |After(events).trace| && After(events).trace[i].Wrote?
    ensures OpensSession(events, o, After(events).trace[i].id) && o < b < |events| && events[b].Command?
    ensures events[b].verified == Some(events[o].agent) && events[b].named == Some(events[o].handle)
    ensures events[b].now < events[o].now + events[o].ttl && |events[b].input| == After(events).trace[i].length
  {
    OnlyTheOpenerWrites(events, i);
    WritesMatch(events, i);
    var f := After(events).frames[After(events).trace[i].frame];
    b := f.born;
    o := HasItsOpening(events[..b], f.id);
    assert events[..b][..o] == events[..o];
  }

  // ---- Leaving the table ----

  predicate Leaves(events: seq<Event>, k: nat, id: nat)
    requires k < |events|
  {
    Live(After(events[..k]).store, id) && !Live(After(events[..k + 1]).store, id)
  }

  lemma {:induction false} AfterStep(events: seq<Event>, k: nat)
    requires k < |events|
    ensures After(events[..k + 1]) == Step(After(events[..k]), k, events[k])
  {
    assert events[..k + 1][..k] == events[..k];
  }

  /**
   * In every run a session leaves the table only by its own agent's close of its handle, by an exited channel found
   * by its own agent's command, by a reap at or after its end, or by another opening under its handle.
   */
  lemma {:induction false} LeavesForAReason(events: seq<Event>, k: nat, id: nat) returns (o: nat, b: nat)
    requires k < |events| && Leaves(events, k, id)
    ensures OpensSession(events, o, id) && o < k
    ensures var e, opening := events[k], events[o];
            || (e.Close? && e.verified == Some(opening.agent) && e.named == Some(opening.handle))
            || (e.ExitTake? && b < k && events[b].Command?
                && events[b].verified == Some(opening.agent) && events[b].named == Some(opening.handle))
            || (e.Reap? && e.now >= opening.now + opening.ttl)
            || (e.Opens? && e.handle == opening.handle)
  {
    AfterStep(events, k);
    var s := After(events[..k]);
    o := HasItsOpening(events[..k], id);
    assert events[..k][..o] == events[..o];
    b := 0;
    RemovalHasCause(s, k, events[k], id);
    if events[k].ExitTake? {
      b := ExitedFrame(events, k, events[k].frame);
    }
  }

  lemma {:induction false} ExitedFrame(events: seq<Event>, k: nat, f: nat) returns (b: nat)
    requires k < |events| && f < |After(events[..k]).frames|
    ensures b < k && events[b].Command?
    ensures var frame := After(events[..k]).frames[f];
            events[b].verified == Some(frame.agent) && events[b].named == Some(frame.handle)
  {
    FramesAuthorised(events[..k], f);
    b := After(events[..k]).frames[f].born;
  }

  lemma {:induction false} DoneStays(s: State, step: nat, e: Event, f: nat)
    requires Wf(s) && f < |s.frames| && s.frames[f].phase.Done?
    ensures f < |Step(s, step, e).frames| && Step(s, step, e).frames[f].phase.Done?
  {
  }

  predicate DoneIn(s: State, f: nat) {
    f < |s.frames| && s.frames[f].phase.Done?
  }

  /** A frame with nothing left to do stays so. */
  lemma {:induction false} DoneFrom(events: seq<Event>, j: nat, f: nat)
    requires j <= |events| && DoneIn(After(events[..j]), f)
    ensures DoneIn(After(events), f)
  {
    if j == |events| {
      assert events[..j] == events;
    } else {
      var before, last := events[..|events| - 1], events[|events| - 1];
      assert before[..j] == events[..j];
      DoneFrom(before, j, f);
      DoneStays(After(before), |events| - 1, last, f);
    }
  }

  lemma {:induction false} ExitIsDone(s: State, step: nat, e: Event, id: nat)
    requires Wf(s) && e.ExitTake? && Live(s.store, id) && !Live(Step(s, step, e).store, id)
    ensures e.frame < |s.frames| && s.frames[e.frame].phase.Exited?
    ensures e.frame < |Step(s, step, e).frames| && Step(s, step, e).frames[e.frame].phase.Done?
  {
  }

  /** One command's exited channel takes at most one session out of the table. */
  lemma {:induction false} ExitsOnce(events: seq<Event>, j: nat, a: nat, k: nat, b: nat)
    requires j < k < |events| && events[j].ExitTake? && events[k].ExitTake?
    requires Leaves(events, j, a) && Leaves(events, k, b)
    ensures events[j].frame != events[k].frame
  {
    AfterStep(events, j);
    AfterStep(events, k);
    ExitIsDone(After(events[..j]), j, events[j], a);
    ExitIsDone(After(events[..k]), k, events[k], b);
    assert events[..k][..j + 1] == events[..j + 1];
    DoneFrom(events[..k], j + 1, events[j].frame);
  }

  predicate AtMostThree(s: State, id: nat) {
    id in s.closing ==> |s.closing[id]| <= 3
  }

  lemma {:induction false} LoadsAtMostThree(s: State, step: nat, e: Event, id: nat)
    requires Wf(s) && AtMostThree(s, id)
    ensures AtMostThree(Step(s, step, e), id)
  {
  }

  /** In every run a summary in the making has loaded at most its three numbers. */
  lemma {:induction false} ThreeNumbers(events: seq<Event>, id: nat)
    ensures AtMostThree(After(events), id)
  {
    if events != [] {
      var before := events[..|events| - 1];
      ThreeNumbers(before, id);
      LoadsAtMostThree(After(before), |events| - 1, events[|events| - 1], id);
    }
  }

  /** One removal is reported; the session is among the removed, and gone, exactly if it was due. */
  predicate RemovesIf(s: State, r: State, id: nat, due: bool) {
    && |r.trace| == |s.trace| + 1 && r.trace[|s.trace|].Removed?
    && (id in r.trace[|s.trace|].ids <==> due) && (Live(r.store, id) <==> !due)
  }

  lemma {:induction false} ReapsWhenDue(s: State, step: nat, e: Event, id: nat)
    requires Wf(s) && Live(s.store, id) && e.Reap?
    ensures RemovesIf(s, Step(s, step, e), id, e.now >= s.store.arena[id].expiresAt)
  {
    ReapUnlists(s.store, e.now, id);
  }

  /** A reap removes a session that is still in the table exactly when it comes at or after the session's end. */
  lemma {:induction false} ReapedExactlyAtItsEnd(events: seq<Event>, k: nat, id: nat) returns (o: nat)
    requires k < |events| && events[k].Reap? && Live(After(events[..k]).store, id)
    ensures OpensSession(events, o, id) && o < k
    ensures RemovesIf(After(events[..k]), After(events[..k + 1]), id, events[k].now >= events[o].now + events[o].ttl)
  {
    o := HasItsOpening(events[..k], id);
    assert events[..k][..o] == events[..o];
    ReapsWhenDue(After(events[..k]), k, events[k], id);
    AfterStep(events, k);
  }

  /** The session answers its own agent before its end and nobody after it, for as long as it is in the table. */
  lemma {:induction false} AnswersUntilItsEnd(events: seq<Event>, id: nat, agent: string, now: int) returns (o: nat)
    requires Live(After(events).store, id)
    ensures OpensSession(events, o, id)
    ensures var found := Lookup(After(events).store, events[o].handle, agent, now);
            && (found.Ok? <==> agent == events[o].agent && now < events[o].now + events[o].ttl)
            && (found.Ok? ==> found.value == (id, events[o].now + events[o].ttl - now))
            && (found.Err? ==> found.error == if agent != events[o].agent then ForeignAgent else Expired)
  {
    o := HasItsOpening(events, id);
  }
}

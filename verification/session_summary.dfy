/** What the summary of a session says, against what was relayed: its numbers are loaded one by one, with no lock. */
module SessionSummary {
  import opened Text
  import opened SessionTable
  import opened SessionRuns

  // ---- Each number at its own moment ----

  /** A summary reports the numbers loaded for it. */
  lemma {:induction false} SummaryAdded(s: State, step: nat, e: Event, i: nat)
    requires Wf(s) && |s.trace| <= i < |Step(s, step, e).trace| && Step(s, step, e).trace[i].Summary?
    ensures var w := Step(s, step, e).trace[i];
            && e == Summarise(w.id) && w.id in s.closing && s.closing[w.id] == [w.commands, w.bytesIn, w.bytesOut]
            && s.trace == Step(s, step, e).trace[..i]
  {
    TraceGrows(s, step, e, i);
  }

  lemma {:induction false} EarlierEffect(events: seq<Event>, i: nat)
    requires events != [] && i < |After(events[..|events| - 1]).trace|
    ensures i < |After(events).trace| && After(events).trace[i] == After(events[..|events| - 1]).trace[i]
    ensures After(events).trace[..i] == After(events[..|events| - 1]).trace[..i]
  {
    var s := After(events[..|events| - 1]);
    if s.trace != After(events).trace { TraceGrows(s, |events| - 1, events[|events| - 1], i); }
  }

  /** Where in the run a summary was sent, and the numbers it had by then. */
  lemma {:induction false} SummaryMoment(events: seq<Event>, i: nat) returns (k: nat)
    requires i < |After(events).trace| && After(events).trace[i].Summary?
    ensures k < |events| && events[k] == Summarise(After(events).trace[i].id)
    ensures After(events[..k]).trace == After(events).trace[..i]
    ensures var w := After(events).trace[i];
            var s := After(events[..k]);
            w.id in s.closing && s.closing[w.id] == [w.commands, w.bytesIn, w.bytesOut]
  {
    var before, last := events[..|events| - 1], events[|events| - 1];
    var s := After(before);
    if i < |s.trace| {
      EarlierEffect(events, i);
      k := SummaryMoment(before, i);
      assert before[..k] == events[..k];
    } else {
      k := |events| - 1;
      SummaryAdded(s, k, last, i);
    }
  }

  /** How the numbers loaded for a session change in one step. */
  lemma {:induction false} ClosingStep(s: State, step: nat, e: Event, id: nat)
    requires Wf(s) && id in Step(s, step, e).closing && Step(s, step, e).closing[id] != []
    ensures id in s.closing
    ensures var was, now := s.closing[id], Step(s, step, e).closing[id];
            || now == was
            || (e == Load(id) && id < |s.store.arena| && now == was + [Counter(s.store.arena[id], |was|)])
  {
  }

  /** Where in the run the number at place `n` was loaded. */
  lemma {:induction false} LoadMoment(events: seq<Event>, id: nat, n: nat) returns (k: nat)
    requires id in After(events).closing && n < |After(events).closing[id]|
    ensures k < |events| && events[k] == Load(id)
    ensures var s := After(events[..k]);
            && id < |s.store.arena| && id in s.closing && s.closing[id] == After(events).closing[id][..n]
            && After(events).closing[id][n] == Counter(s.store.arena[id], n)
  {
    var before, last := events[..|events| - 1], events[|events| - 1];
    var s := After(before);
    ClosingStep(s, |events| - 1, last, id);
    if n < |s.closing[id]| {
      k := LoadMoment(before, id, n);
      assert before[..k] == events[..k];
      assert After(events).closing[id][..n] == s.closing[id][..n];
    } else {
      k := |events| - 1;
      assert After(events).closing[id][..n] == s.closing[id];
    }
  }

  /** What had been relayed for the session when event `k` came, and the frame that held its channel then. */
  function RelayedBy(events: seq<Event>, k: nat, id: nat): Meter
    requires k <= |events|
  {
    MeterOf(After(events[..k]).trace, id)
  }

  function HolderAt(events: seq<Event>, k: nat, id: nat): Option<Frame>
    requires k <= |events|
  {
    HolderOf(After(events[..k]), id)
  }

  /** At every moment the session's counters are what was relayed, less what the holder has not counted. */
  lemma {:induction false} CountersAt(events: seq<Event>, k: nat, id: nat)
    requires k <= |events| && id < |After(events[..k]).store.arena|
    ensures Metered(RelayedBy(events, k, id), After(events[..k]).store.arena[id], HolderAt(events, k, id))
  {
    BooksBalance(events[..k], id);
  }

  /** The number at place `n` of the summary is the counter as event `k` found it. */
  ghost predicate LoadedAt(events: seq<Event>, k: nat, id: nat, n: nat, number: nat) {
    && k < |events| && events[k] == Load(id) && id < |After(events[..k]).store.arena|
    && number == Counter(After(events[..k]).store.arena[id], n)
  }

  lemma {:induction false} LoadMoments(events: seq<Event>, i: nat) returns (c: nat, x: nat, y: nat)
    requires i < |After(events).trace| && After(events).trace[i].Summary?
    ensures c < x < y
    ensures var w := After(events).trace[i];
            && LoadedAt(events, c, w.id, 0, w.commands) && LoadedAt(events, x, w.id, 1, w.bytesIn)
            && LoadedAt(events, y, w.id, 2, w.bytesOut)
  {
    var id := After(events).trace[i].id;
    var k := SummaryMoment(events, i);
    y := LoadMoment(events[..k], id, 2);
    PrefixOfPrefix(events, k, y);
    x := LoadMoment(events[..y], id, 1);
    PrefixOfPrefix(events, y, x);
    c := LoadMoment(events[..x], id, 0);
    PrefixOfPrefix(events, x, c);
  }

  /**
   * The three numbers of a summary are loaded at moments `c`, `x` and `y`, one after the other. Each falls short of
   * what was relayed by its own moment by exactly what the frame that holds the channel at that moment has not counted
   * yet, so it is exact if and only if the holder, if there is one, has counted that much.
   */
  lemma {:induction false} SummaryIsHonest(events: seq<Event>, i: nat) returns (c: nat, x: nat, y: nat)
    requires i < |After(events).trace| && After(events).trace[i].Summary?
    ensures c < x < y < |events|
    ensures var id := After(events).trace[i].id; events[c] == events[x] == events[y] == Load(id)
    ensures var w := After(events).trace[i];
            && RelayedBy(events, c, w.id).writes == w.commands + Bit(CommandUncounted(HolderAt(events, c, w.id)))
            && RelayedBy(events, x, w.id).written == w.bytesIn + UncountedIn(HolderAt(events, x, w.id))
            && RelayedBy(events, y, w.id).got == w.bytesOut + UncountedOut(HolderAt(events, y, w.id))
    ensures var w := After(events).trace[i];
            && (w.commands == RelayedBy(events, c, w.id).writes <==> !CommandUncounted(HolderAt(events, c, w.id)))
            && (w.bytesIn == RelayedBy(events, x, w.id).written <==>
                !(InputUncounted(HolderAt(events, x, w.id)) && HolderAt(events, x, w.id).value.input != ""))
            && (w.bytesOut == RelayedBy(events, y, w.id).got <==> UncountedOut(HolderAt(events, y, w.id)) == 0)
  {
    var id := After(events).trace[i].id;
    c, x, y := LoadMoments(events, i);
    CountersAt(events, c, id);
    CountersAt(events, x, id);
    CountersAt(events, y, id);
  }

  lemma PrefixOfPrefix(events: seq<Event>, k: nat, n: nat)
    requires n <= k <= |events|
    ensures events[..k][..n] == events[..n]
  {
  }

  lemma {:induction false} AfterSnoc(events: seq<Event>, e: Event)
    ensures After(events + [e]) == Step(After(events), |events|, e)
  {
    assert (events + [e])[..|events|] == events;
  }

  // ---- Summaries that fall short ----

  /** A session removed and shut down, the numbers loaded so far, and a frame that looked it up before. */
  ghost predicate Going(s: State, id: nat, f: nat, input: Bytes, phase: Phase, e: Entry, loads: seq<nat>) {
    && id < |s.store.arena| && s.store.arena[id] == e && id in s.closing && s.closing[id] == loads
    && f < |s.frames| && s.frames[f].id == id && s.frames[f].input == input && s.frames[f].phase == phase
  }

  lemma {:induction false} LoadGoes(
    events: seq<Event>, id: nat, f: nat, input: Bytes, phase: Phase, e: Entry, loads: seq<nat>)
    requires Going(After(events), id, f, input, phase, e, loads) && |loads| < 3
    ensures Going(After(events + [Load(id)]), id, f, input, phase, e, loads + [Counter(e, |loads|)])
  {
    AfterSnoc(events, Load(id));
  }

  lemma {:induction false} WriteGoes(events: seq<Event>, id: nat, f: nat, input: Bytes, e: Entry, loads: seq<nat>)
    requires Going(After(events), id, f, input, Accessed, e, loads) && e.holder.None?
    ensures Going(After(events + [Write(f, true)]), id, f, input, Writing, e.(holder := Some(f)), loads)
  {
    AfterSnoc(events, Write(f, true));
  }

  lemma {:induction false} ReadGoes(events: seq<Event>, id: nat, f: nat, input: Bytes, e: Entry, loads: seq<nat>)
    requires Going(After(events), id, f, input, Writing, e, loads) && e.holder == Some(f)
    ensures Going(After(events + [Read(f, [], false)]), id, f, input, Fetched([], false, 0), e, loads)
  {
    AfterSnoc(events, Read(f, [], false));
  }

  lemma {:induction false} CountGoes(
    events: seq<Event>, id: nat, f: nat, input: Bytes, n: nat, e: Entry, loads: seq<nat>)
    requires Going(After(events), id, f, input, Fetched([], false, n), e, loads) && e.holder == Some(f) && n < 2
    ensures Going(After(events + [Count(f)]), id, f, input, Fetched([], false, n + 1),
                  if n == 0 then e.(commands := e.commands + 1) else e.(bytesIn := e.bytesIn + |input|), loads)
  {
    AfterSnoc(events, Count(f));
  }

  /** The summary, against all that was relayed before it, while the frame holds the channel. */
  lemma {:induction false} SummaryGoes(
    events: seq<Event>, id: nat, f: nat, input: Bytes, phase: Phase, e: Entry, n: seq<nat>)
    requires Going(After(events), id, f, input, phase, e, n) && |n| == 3 && e.holder == Some(f)
    ensures var trace := After(events + [Summarise(id)]).trace;
            && |trace| > 0 && trace[|trace| - 1] == Summary(id, n[0], n[1], n[2])
            && Metered(MeterOf(trace[..|trace| - 1], id), e, Some(After(events).frames[f]))
  {
    AfterSnoc(events, Summarise(id));
    BooksBalance(events, id);
    var trace := After(events + [Summarise(id)]).trace;
    assert trace[..|trace| - 1] == After(events).trace;
  }

  /** A frame has looked up the session `id`, which is in the table and idle. */
  ghost predicate LookedUp(s: State, id: nat, f: nat, handle: string, e: Entry, input: Bytes) {
    && id < |s.store.arena| && s.store.arena[id] == e && e.holder.None?
    && handle in s.store.table && s.store.table[handle] == id
    && f < |s.frames| && s.frames[f].id == id && s.frames[f].input == input && s.frames[f].phase == Accessed
  }

  lemma {:induction false} OpenedAndLookedUp(handle: string, agent: string, input: Bytes, now: int)
    returns (run: seq<Event>)
    ensures LookedUp(After(run), 0, 0, handle, NewEntry(handle, agent, now, 1), input)
  {
    var opens, command := Opens(handle, agent, now, 1), Command(Some(agent), Some(handle), input, now);
    var first := [] + [opens];
    AfterSnoc([], opens);
    var s := After(first);
    assert s.store.arena == [NewEntry(handle, agent, now, 1)] && Live(s.store, 0);
    run := first + [command];
    AfterSnoc(first, command);
  }

  lemma {:induction false} CloseShutsDown(
    events: seq<Event>, id: nat, f: nat, handle: string, e: Entry, input: Bytes) returns (run: seq<Event>)
    requires LookedUp(After(events), id, f, handle, e, input)
    ensures Going(After(run), id, f, input, Accessed, e, [])
  {
    var closed := events + [Close(Some(e.agent), Some(handle))];
    AfterSnoc(events, Close(Some(e.agent), Some(handle)));
    assert After(closed) == TakeStep(After(events), handle, e.agent);
    run := closed + [Shutdown(id)];
    AfterSnoc(closed, Shutdown(id));
  }

  lemma {:induction false} LoadsTwo(
    events: seq<Event>, id: nat, f: nat, input: Bytes, phase: Phase, e: Entry, first: nat) returns (run: seq<Event>)
    requires Going(After(events), id, f, input, phase, e, [first])
    ensures Going(After(run), id, f, input, phase, e, [first, e.bytesIn, e.bytesOut])
  {
    LoadGoes(events, id, f, input, phase, e, [first]);
    run := events + [Load(id)];
    assert [first] + [e.bytesIn] == [first, e.bytesIn];
    LoadGoes(run, id, f, input, phase, e, [first, e.bytesIn]);
    run := run + [Load(id)];
    assert [first, e.bytesIn] + [e.bytesOut] == [first, e.bytesIn, e.bytesOut];
  }

  lemma {:induction false} LoadsOne(events: seq<Event>, id: nat, f: nat, input: Bytes, phase: Phase, e: Entry)
    returns (run: seq<Event>)
    requires Going(After(events), id, f, input, phase, e, [])
    ensures Going(After(run), id, f, input, phase, e, [e.commands])
  {
    LoadGoes(events, id, f, input, phase, e, []);
    run := events + [Load(id)];
    assert [] + [e.commands] == [e.commands];
  }

  /** The frame writes, reads nothing, and counts itself and its input. */
  lemma {:induction false} CountsItself(events: seq<Event>, id: nat, f: nat, input: Bytes, e: Entry, loads: seq<nat>)
    returns (run: seq<Event>)
    requires Going(After(events), id, f, input, Accessed, e, loads) && e.holder.None?
    ensures Going(After(run), id, f, input, Fetched([], false, 2),
                  e.(holder := Some(f), commands := e.commands + 1, bytesIn := e.bytesIn + |input|), loads)
  {
    var h := e.(holder := Some(f));
    WriteGoes(events, id, f, input, e, loads);
    run := events + [Write(f, true)];
    ReadGoes(run, id, f, input, h, loads);
    run := run + [Read(f, [], false)];
    CountGoes(run, id, f, input, 0, h, loads);
    run := run + [Count(f)];
    CountGoes(run, id, f, input, 1, h.(commands := e.commands + 1), loads);
    run := run + [Count(f)];
  }

  /**
   * A frame that looked its session up before it was closed may write after the shutdown and go unreported: for
   * every input there is a run whose summary is one frame and that input short.
   */
  lemma {:induction false} SummaryMayMissAFrame(handle: string, agent: string, input: Bytes, now: int)
    returns (run: seq<Event>, i: nat)
    ensures i < |After(run).trace| && After(run).trace[i].Summary?
    ensures var w := After(run).trace[i];
            var m := MeterOf(After(run).trace[..i], w.id);
            m.writes == w.commands + 1 && m.written == w.bytesIn + |input|
  {
    var e := NewEntry(handle, agent, now, 1);
    var h := e.(holder := Some(0));
    run := OpenedAndLookedUp(handle, agent, input, now);
    run := CloseShutsDown(run, 0, 0, handle, e, input);
    WriteGoes(run, 0, 0, input, e, []);
    run := LoadsOne(run + [Write(0, true)], 0, 0, input, Writing, h);
    run := LoadsTwo(run, 0, 0, input, Writing, h, h.commands);
    SummaryGoes(run, 0, 0, input, Writing, h, [h.commands, h.bytesIn, h.bytesOut]);
    run := run + [Summarise(0)];
    i := |After(run).trace| - 1;
  }

  /**
   * The numbers of one summary need not fit together: for every input there is a run whose summary has the input of a
   * frame that it does not count.
   */
  lemma {:induction false} SummaryMayDisagree(handle: string, agent: string, input: Bytes, now: int)
    returns (run: seq<Event>, i: nat)
    ensures i < |After(run).trace| && After(run).trace[i].Summary?
    ensures var w := After(run).trace[i];
            var m := MeterOf(After(run).trace[..i], w.id);
            m.writes == w.commands + 1 && m.written == w.bytesIn == |input|
  {
    var e := NewEntry(handle, agent, now, 1);
    var h := e.(holder := Some(0), commands := e.commands + 1, bytesIn := e.bytesIn + |input|);
    run := OpenedAndLookedUp(handle, agent, input, now);
    run := CloseShutsDown(run, 0, 0, handle, e, input);
    run := LoadsOne(run, 0, 0, input, Accessed, e);
    run := CountsItself(run, 0, 0, input, e, [e.commands]);
    run, i := CountedTooLate(run, 0, 0, input, h, e.commands);
  }

  /** The frame is counted after the number of frames was loaded, and before that of bytes is. */
  lemma {:induction false} CountedTooLate(events: seq<Event>, id: nat, f: nat, input: Bytes, e: Entry, first: nat)
    returns (run: seq<Event>, i: nat)
    requires Going(After(events), id, f, input, Fetched([], false, 2), e, [first])
    requires e.holder == Some(f) && e.commands == first + 1
    ensures i < |After(run).trace| && After(run).trace[i].Summary?
    ensures var w := After(run).trace[i];
            var m := MeterOf(After(run).trace[..i], w.id);
            m.writes == w.commands + 1 && m.written == w.bytesIn == e.bytesIn
  {
    run := LoadsTwo(events, id, f, input, Fetched([], false, 2), e, first);
    SummaryGoes(run, id, f, input, Fetched([], false, 2), e, [first, e.bytesIn, e.bytesOut]);
    run := run + [Summarise(id)];
    i := |After(run).trace| - 1;
  }
}

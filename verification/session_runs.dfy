/**
 * Sessions over every interleaving. Each step is what the code does at once: under the table's lock (lookup,
 * removal, reaping), while it holds the channel's lock (write, read, each counter, the numbering), or with no lock
 * at all (each number a summary loads, and the summary itself). A run is any list of steps, and one that its state
 * does not permit changes nothing.
 */
module SessionRuns {
  import opened Text
  import opened SessionTable

  type Bytes = string

  /** A frame holds its channel from `Writing` on, until its batch is counted (three additions) and numbered. */
  datatype Phase =
    | Accessed
    | Writing
    | Fetched(batch: seq<Bytes>, closed: bool, counted: nat)
    | Exited
    | Done

  /** A command frame in flight, born at step `born` when its lookup succeeded at time `at`. */
  datatype Frame = Frame(id: nat, handle: string, agent: string, input: Bytes, at: int, born: nat, phase: Phase)

  datatype Effect =
    | Wrote(id: nat, frame: nat, length: nat, ok: bool)
    | Got(id: nat, length: nat)
    | Output(id: nat, number: nat, data: Bytes)
    | Replaced(id: nat)
    | Removed(ids: set<nat>)
    | Summary(id: nat, commands: nat, bytesIn: nat, bytesOut: nat)

  /**
   * Sessions removed from the table are `pending` until shut down, then `closing` until their summary, with the
   * numbers loaded for it so far.
   */
  datatype State = State(
    store: Store, frames: seq<Frame>, pending: set<nat>, closing: map<nat, seq<nat>>, trace: seq<Effect>)

  /** A frame arrives with the agent its signature verified as, or none if it did not verify. */
  datatype Event =
    | Opens(handle: string, agent: string, now: int, ttl: nat)
    | Command(verified: Option<string>, named: Option<string>, input: Bytes, now: int)
    | Write(frame: nat, ok: bool)
    | Read(frame: nat, chunks: seq<Bytes>, closed: bool)
    | Count(frame: nat)
    | Number(frame: nat)
    | ExitTake(frame: nat)
    | Close(verified: Option<string>, named: Option<string>)
    | Reap(now: int)
    | Shutdown(id: nat)
    | Load(id: nat)
    | Summarise(id: nat)

  const START := State(Store([], map[]), [], {}, map[], [])

  // ---- Steps ----

  predicate Wf(s: State) {
    && WellFormed(s.store)
    && (forall f :: 0 <= f < |s.frames| ==> s.frames[f].id < |s.store.arena|)
    && (forall id :: 0 <= id < |s.store.arena| && s.store.arena[id].holder.Some? ==>
          Holding(s.frames, id, s.store.arena[id].holder.value))
  }

  predicate Holding(frames: seq<Frame>, id: nat, f: nat) {
    f < |frames| && frames[f].id == id
  }

  /** The frame holds its channel's lock. */
  predicate Holds(s: State, f: nat)
    requires Wf(s)
  {
    f < |s.frames| && s.store.arena[s.frames[f].id].holder == Some(f)
  }

  predicate CanWrite(s: State, f: nat)
    requires Wf(s)
  {
    f < |s.frames| && s.frames[f].phase.Accessed? && s.store.arena[s.frames[f].id].holder.None?
  }

  function Length(chunks: seq<Bytes>): nat {
    if chunks == [] then 0 else Length(chunks[..|chunks| - 1]) + |chunks[|chunks| - 1]|
  }

  /** The chunks of one batch, numbered on from `last`. */
  function Outputs(id: nat, last: nat, chunks: seq<Bytes>): seq<Effect> {
    if chunks == [] then []
    else
      var front := chunks[..|chunks| - 1];
      Outputs(id, last, front) + [Output(id, last + |chunks|, chunks[|chunks| - 1])]
  }

  function Moved(s: State, f: nat, phase: Phase, entry: Entry, more: seq<Effect>): (r: State)
    requires Wf(s) && f < |s.frames| && entry.handle == s.store.arena[s.frames[f].id].handle
    requires entry.holder.Some? ==> entry.holder.value == f
    ensures Wf(r)
  {
    s.(store := Updated(s.store, s.frames[f].id, entry), frames := s.frames[f := s.frames[f].(phase := phase)],
       trace := s.trace + more)
  }

  /** The channel lock is taken and the input written. A failed write lets the lock go at once. */
  function WriteStep(s: State, f: nat, ok: bool): (r: State)
    requires Wf(s)
    ensures Wf(r)
  {
    if CanWrite(s, f) then
      var id, n := s.frames[f].id, |s.frames[f].input|;
      if ok then Moved(s, f, Writing, s.store.arena[id].(holder := Some(f)), [Wrote(id, f, n, true)])
      else Moved(s, f, Done, s.store.arena[id], [Wrote(id, f, n, false)])
    else s
  }

  /** Still under the lock, a batch is read. */
  function ReadStep(s: State, f: nat, chunks: seq<Bytes>, closed: bool): (r: State)
    requires Wf(s)
    ensures Wf(r)
  {
    if Holds(s, f) && s.frames[f].phase.Writing? then
      var id := s.frames[f].id;
      Moved(s, f, Fetched(chunks, closed, 0), s.store.arena[id], [Got(id, Length(chunks))])
    else s
  }

  /** The three counters are added to one after the other: frames, bytes in, bytes out. */
  function CountedEntry(e: Entry, f: Frame): Entry
    requires f.phase.Fetched?
  {
    match f.phase.counted
    case 0 => e.(commands := e.commands + 1)
    case 1 => e.(bytesIn := e.bytesIn + |f.input|)
    case _ => e.(bytesOut := e.bytesOut + Length(f.phase.batch))
  }

  function CountStep(s: State, f: nat): (r: State)
    requires Wf(s)
    ensures Wf(r)
  {
    if Holds(s, f) && s.frames[f].phase.Fetched? && s.frames[f].phase.counted < 3 then
      var x := s.frames[f];
      Moved(s, f, x.phase.(counted := x.phase.counted + 1), CountedEntry(s.store.arena[x.id], x), [])
    else s
  }

  function NumberedEntry(e: Entry, f: Frame): Entry
    requires f.phase.Fetched?
  {
    e.(outSeq := e.outSeq + |f.phase.batch|, holder := None)
  }

  /** The outputs are numbered, and the lock is let go. */
  function NumberStep(s: State, f: nat): (r: State)
    requires Wf(s)
    ensures Wf(r)
  {
    if Holds(s, f) && s.frames[f].phase.Fetched? && s.frames[f].phase.counted >= 3 then
      var x := s.frames[f];
      var e := s.store.arena[x.id];
      Moved(s, f, if x.phase.closed then Exited else Done, NumberedEntry(e, x),
            Outputs(x.id, e.outSeq, x.phase.batch))
    else s
  }

  function TakeStep(s: State, handle: string, agent: string): (r: State)
    requires Wf(s)
    ensures Wf(r)
  {
    var id := Takes(s.store, handle, agent);
    if id.None? then s
    else s.(store := Taken(s.store, handle, agent), pending := s.pending + {id.value},
            trace := s.trace + [Removed({id.value})])
  }

  /** A frame whose channel has exited removes its session, once. */
  function ExitStep(s: State, f: nat): (r: State)
    requires Wf(s)
    ensures Wf(r)
  {
    if f < |s.frames| && s.frames[f].phase.Exited? then
      var x := s.frames[f];
      TakeStep(s.(frames := s.frames[f := x.(phase := Done)]), x.handle, x.agent)
    else s
  }

  function ReapStep(s: State, now: int): (r: State)
    requires Wf(s)
    ensures Wf(r)
  {
    var ids := ReapedIds(s.store, now);
    s.(store := Reaped(s.store, now), pending := s.pending + ids, trace := s.trace + [Removed(ids)])
  }

  /** The remover takes the channel's lock for as long as the shutdown lasts. */
  function ShutdownStep(s: State, id: nat): (r: State)
    requires Wf(s)
    ensures Wf(r)
  {
    if id in s.pending && id < |s.store.arena| && s.store.arena[id].holder.None? then
      s.(pending := s.pending - {id}, closing := s.closing[id := []])
    else s
  }

  /** The numbers of a summary, in the order they are loaded. */
  function Counter(e: Entry, n: nat): nat {
    match n
    case 0 => e.commands
    case 1 => e.bytesIn
    case _ => e.bytesOut
  }

  /** Then it loads the counters one after the other, with no lock, */
  function LoadStep(s: State, id: nat): (r: State)
    requires Wf(s)
    ensures Wf(r)
  {
    if id in s.closing && |s.closing[id]| < 3 && id < |s.store.arena| then
      s.(closing := s.closing[id := s.closing[id] + [Counter(s.store.arena[id], |s.closing[id]|)]])
    else s
  }

  /** and reports them. */
  function SummaryStep(s: State, id: nat): (r: State)
    requires Wf(s)
    ensures Wf(r)
  {
    if id in s.closing && |s.closing[id]| == 3 then
      var n := s.closing[id];
      s.(closing := s.closing - {id}, trace := s.trace + [Summary(id, n[0], n[1], n[2])])
    else s
  }

  function CommandStep(
    s: State, step: nat, verified: Option<string>, handle: Option<string>, input: Bytes, now: int): (r: State)
    requires Wf(s)
    ensures Wf(r)
  {
    if verified.None? || handle.None? then s
    else
      var found := Lookup(s.store, handle.value, verified.value, now);
      if found.Err? then s
      else s.(frames := s.frames + [Frame(found.value.0, handle.value, verified.value, input, now, step, Accessed)])
  }

  /** A handle drawn while a session still answers to it replaces that session in the table. */
  function OpenStep(s: State, handle: string, agent: string, now: int, ttl: nat): (r: State)
    requires Wf(s)
    ensures Wf(r)
  {
    s.(store := Inserted(s.store, handle, agent, now, ttl),
       trace := s.trace + if handle in s.store.table then [Replaced(s.store.table[handle])] else [])
  }

  function Step(s: State, step: nat, e: Event): (r: State)
    requires Wf(s)
    ensures Wf(r)
  {
    match e
    case Opens(handle, agent, now, ttl) => OpenStep(s, handle, agent, now, ttl)
    case Command(verified, handle, input, now) => CommandStep(s, step, verified, handle, input, now)
    case Write(f, ok) => WriteStep(s, f, ok)
    case Read(f, chunks, closed) => ReadStep(s, f, chunks, closed)
    case Count(f) => CountStep(s, f)
    case Number(f) => NumberStep(s, f)
    case ExitTake(f) => ExitStep(s, f)
    case Close(verified, handle) =>
      if verified.Some? && handle.Some? then TakeStep(s, handle.value, verified.value) else s
    case Reap(now) => ReapStep(s, now)
    case Shutdown(id) => ShutdownStep(s, id)
    case Load(id) => LoadStep(s, id)
    case Summarise(id) => SummaryStep(s, id)
  }

  function After(events: seq<Event>): (s: State)
    ensures Wf(s)
  {
    if events == [] then START
    else Step(After(events[..|events| - 1]), |events| - 1, events[|events| - 1])
  }

  // ---- The account of one session, read off the trace ----

  /** Successful writes and their bytes, bytes read, and outputs with their numbers. */
  datatype Meter = Meter(writes: nat, written: nat, got: nat, numbers: seq<nat>, outputBytes: nat)

  function Metering(m: Meter, e: Effect, id: nat): Meter {
    match e
    case Wrote(i, _, n, ok) => if i == id && ok then m.(writes := m.writes + 1, written := m.written + n) else m
    case Got(i, n) => if i == id then m.(got := m.got + n) else m
    case Output(i, number, data) =>
      if i == id then m.(numbers := m.numbers + [number], outputBytes := m.outputBytes + |data|) else m
    case _ => m
  }

  function MeterOf(trace: seq<Effect>, id: nat): Meter {
    if trace == [] then Meter(0, 0, 0, [], 0)
    else Metering(MeterOf(trace[..|trace| - 1], id), trace[|trace| - 1], id)
  }

  /** How often the session was replaced, removed and summarised. */
  datatype Ending = Ending(replaced: nat, removals: nat, summaries: nat)

  function Concluding(x: Ending, e: Effect, id: nat): Ending {
    match e
    case Replaced(i) => if i == id then x.(replaced := x.replaced + 1) else x
    case Removed(ids) => if id in ids then x.(removals := x.removals + 1) else x
    case Summary(i, _, _, _) => if i == id then x.(summaries := x.summaries + 1) else x
    case _ => x
  }

  function EndingOf(trace: seq<Effect>, id: nat): Ending {
    if trace == [] then Ending(0, 0, 0)
    else Concluding(EndingOf(trace[..|trace| - 1], id), trace[|trace| - 1], id)
  }

  lemma {:induction false} OneMoreEffect(trace: seq<Effect>, e: Effect, id: nat)
    ensures MeterOf(trace + [e], id) == Metering(MeterOf(trace, id), e, id)
    ensures EndingOf(trace + [e], id) == Concluding(EndingOf(trace, id), e, id)
  {
    assert (trace + [e])[..|trace|] == trace;
  }

  /** 1, 2, 3 … n. */
  function Upto(n: nat): (numbers: seq<nat>)
    ensures |numbers| == n && forall i :: 0 <= i < n ==> numbers[i] == i + 1
  {
    if n == 0 then [] else Upto(n - 1) + [n]
  }

  lemma {:induction false} MeterOutputs(trace: seq<Effect>, at: nat, last: nat, chunks: seq<Bytes>, id: nat)
    requires at == id ==> MeterOf(trace, id).numbers == Upto(last)
    ensures var m, r := MeterOf(trace, id), MeterOf(trace + Outputs(at, last, chunks), id);
            if at != id then r == m
            else r == m.(numbers := Upto(last + |chunks|), outputBytes := m.outputBytes + Length(chunks))
    decreases |chunks|
  {
    if chunks == [] {
      assert trace + Outputs(at, last, chunks) == trace;
    } else {
      var front := chunks[..|chunks| - 1];
      MeterOutputs(trace, at, last, front, id);
      LastOutput(trace, at, last, chunks, id);
      assert Upto(last + |chunks|) == Upto(last + |front|) + [last + |chunks|];
    }
  }

  lemma {:induction false} LastOutput(trace: seq<Effect>, at: nat, last: nat, chunks: seq<Bytes>, id: nat)
    requires chunks != []
    ensures var before := trace + Outputs(at, last, chunks[..|chunks| - 1]);
            var o := Output(at, last + |chunks|, chunks[|chunks| - 1]);
            && MeterOf(trace + Outputs(at, last, chunks), id) == Metering(MeterOf(before, id), o, id)
            && EndingOf(trace + Outputs(at, last, chunks), id) == EndingOf(before, id)
  {
    var before := trace + Outputs(at, last, chunks[..|chunks| - 1]);
    var o := Output(at, last + |chunks|, chunks[|chunks| - 1]);
    assert trace + Outputs(at, last, chunks) == before + [o];
    OneMoreEffect(before, o, id);
  }

  lemma {:induction false} OutputsEndNothing(trace: seq<Effect>, at: nat, last: nat, chunks: seq<Bytes>, id: nat)
    ensures EndingOf(trace + Outputs(at, last, chunks), id) == EndingOf(trace, id)
    decreases |chunks|
  {
    if chunks == [] {
      assert trace + Outputs(at, last, chunks) == trace;
    } else {
      OutputsEndNothing(trace, at, last, chunks[..|chunks| - 1], id);
      LastOutput(trace, at, last, chunks, id);
    }
  }

  function Bit(b: bool): nat {
    if b then 1 else 0
  }

  /** The frame that holds a session's channel. */
  function HolderOf(s: State, id: nat): Option<Frame>
    requires Wf(s)
  {
    if id < |s.store.arena| && s.store.arena[id].holder.Some? then Some(s.frames[s.store.arena[id].holder.value])
    else None
  }

  // What the holder has done and not yet entered in the counters, or numbered.

  predicate CommandUncounted(h: Option<Frame>) {
    h.Some? && (h.value.phase.Writing? || (h.value.phase.Fetched? && h.value.phase.counted < 1))
  }

  predicate InputUncounted(h: Option<Frame>) {
    h.Some? && (h.value.phase.Writing? || (h.value.phase.Fetched? && h.value.phase.counted < 2))
  }

  function UncountedIn(h: Option<Frame>): nat {
    if InputUncounted(h) then |h.value.input| else 0
  }

  function UncountedOut(h: Option<Frame>): nat {
    if h.Some? && h.value.phase.Fetched? && h.value.phase.counted < 3 then Length(h.value.phase.batch) else 0
  }

  function Unnumbered(h: Option<Frame>): nat {
    if h.Some? && h.value.phase.Fetched? then Length(h.value.phase.batch) else 0
  }

  /**
   * The counters are the sums over relayed frames, but for what the holder has not counted yet; output numbers run
   * 1, 2, 3 …; and every byte read is output, but for the batch in hand.
   */
  predicate Metered(m: Meter, e: Entry, h: Option<Frame>) {
    && m.writes == e.commands + Bit(CommandUncounted(h))
    && m.written == e.bytesIn + UncountedIn(h)
    && m.got == e.bytesOut + UncountedOut(h) == m.outputBytes + Unnumbered(h)
    && m.numbers == Upto(e.outSeq)
  }

  predicate Untouched(m: Meter) {
    m.writes == m.written == m.got == m.outputBytes == 0 && m.numbers == []
  }

  predicate MeteredAt(s: State, id: nat)
    requires Wf(s)
  {
    if id < |s.store.arena| then Metered(MeterOf(s.trace, id), s.store.arena[id], HolderOf(s, id))
    else Untouched(MeterOf(s.trace, id))
  }

  /** A session is in the table, replaced or removed, just one of these; each removal has its one summary or will. */
  predicate PairedAt(s: State, id: nat) {
    var x := EndingOf(s.trace, id);
    && x.removals + x.replaced + Bit(Live(s.store, id)) == Bit(id < |s.store.arena|)
    && x.removals == x.summaries + Bit(id in s.pending) + Bit(id in s.closing)
  }

  // ---- Steps of a frame under the lock ----

  /** Only the session of the frame that moves has its meters changed, and no session comes or goes. */
  lemma {:induction false} MovedKeeps(s: State, f: nat, phase: Phase, entry: Entry, more: seq<Effect>, id: nat)
    requires Wf(s) && f < |s.frames| && entry.handle == s.store.arena[s.frames[f].id].handle
    requires entry.holder.Some? ==> entry.holder.value == f
    requires EndingOf(s.trace + more, id) == EndingOf(s.trace, id)
    requires id != s.frames[f].id ==> MeterOf(s.trace + more, id) == MeterOf(s.trace, id)
    ensures var r := Moved(s, f, phase, entry, more);
            && (PairedAt(s, id) ==> PairedAt(r, id))
            && (id != s.frames[f].id && MeteredAt(s, id) ==> MeteredAt(r, id))
            && (id == s.frames[f].id ==> r.store.arena[id] == entry)
            && (id == s.frames[f].id && entry.holder.Some? ==> HolderOf(r, id) == Some(s.frames[f].(phase := phase)))
            && (id == s.frames[f].id && entry.holder.None? ==> HolderOf(r, id) == None)
  {
    var r := Moved(s, f, phase, entry, more);
    assert Live(r.store, id) == Live(s.store, id);
    if id != s.frames[f].id {
      assert HolderOf(r, id) == HolderOf(s, id);
    }
  }

  lemma {:induction false} WriteSettles(s: State, f: nat, ok: bool, id: nat)
    requires Wf(s) && MeteredAt(s, id) && PairedAt(s, id)
    ensures MeteredAt(WriteStep(s, f, ok), id) && PairedAt(WriteStep(s, f, ok), id)
  {
    if CanWrite(s, f) {
      var at, n := s.frames[f].id, |s.frames[f].input|;
      OneMoreEffect(s.trace, Wrote(at, f, n, ok), id);
      MovedKeeps(s, f, if ok then Writing else Done,
                 if ok then s.store.arena[at].(holder := Some(f)) else s.store.arena[at], [Wrote(at, f, n, ok)], id);
    }
  }

  lemma {:induction false} ReadSettles(s: State, f: nat, chunks: seq<Bytes>, closed: bool, id: nat)
    requires Wf(s) && MeteredAt(s, id) && PairedAt(s, id)
    ensures MeteredAt(ReadStep(s, f, chunks, closed), id) && PairedAt(ReadStep(s, f, chunks, closed), id)
  {
    if Holds(s, f) && s.frames[f].phase.Writing? {
      var at := s.frames[f].id;
      OneMoreEffect(s.trace, Got(at, Length(chunks)), id);
      MovedKeeps(s, f, Fetched(chunks, closed, 0), s.store.arena[at], [Got(at, Length(chunks))], id);
    }
  }

  lemma {:induction false} CountSettles(s: State, f: nat, id: nat)
    requires Wf(s) && MeteredAt(s, id) && PairedAt(s, id)
    ensures MeteredAt(CountStep(s, f), id) && PairedAt(CountStep(s, f), id)
  {
    if Holds(s, f) && s.frames[f].phase.Fetched? && s.frames[f].phase.counted < 3 {
      var x := s.frames[f];
      assert s.trace + [] == s.trace;
      MovedKeeps(s, f, x.phase.(counted := x.phase.counted + 1), CountedEntry(s.store.arena[x.id], x), [], id);
      if id == x.id { CountedMeters(MeterOf(s.trace, id), s.store.arena[id], x); }
    }
  }

  lemma {:induction false} CountedMeters(m: Meter, e: Entry, x: Frame)
    requires x.phase.Fetched? && x.phase.counted < 3 && Metered(m, e, Some(x))
    ensures Metered(m, CountedEntry(e, x), Some(x.(phase := x.phase.(counted := x.phase.counted + 1))))
  {
  }

  lemma {:induction false} NumberSettles(s: State, f: nat, id: nat)
    requires Wf(s) && MeteredAt(s, id) && PairedAt(s, id)
    ensures MeteredAt(NumberStep(s, f), id) && PairedAt(NumberStep(s, f), id)
  {
    if Holds(s, f) && s.frames[f].phase.Fetched? && s.frames[f].phase.counted >= 3 {
      var x := s.frames[f];
      var e := s.store.arena[x.id];
      OutputsEndNothing(s.trace, x.id, e.outSeq, x.phase.batch, id);
      MeterOutputs(s.trace, x.id, e.outSeq, x.phase.batch, id);
      MovedKeeps(s, f, if x.phase.closed then Exited else Done, NumberedEntry(e, x),
                 Outputs(x.id, e.outSeq, x.phase.batch), id);
      if id == x.id { NumberedMeters(MeterOf(s.trace, id), e, x); }
    }
  }

  lemma {:induction false} NumberedMeters(m: Meter, e: Entry, x: Frame)
    requires x.phase.Fetched? && x.phase.counted >= 3 && Metered(m, e, Some(x))
    ensures var n := m.(numbers := Upto(e.outSeq + |x.phase.batch|),
                        outputBytes := m.outputBytes + Length(x.phase.batch));
            Metered(n, NumberedEntry(e, x), None)
  {
  }

  // ---- Opening, removing and reporting ----

  /** These move no bytes. */
  lemma {:induction false} MetersKept(s: State, r: State, e: Effect, id: nat)
    requires Wf(s) && Wf(r) && MeteredAt(s, id) && (e.Replaced? || e.Removed? || e.Summary?)
    requires r.store.arena == s.store.arena && HolderOf(r, id) == HolderOf(s, id) && r.trace == s.trace + [e]
    ensures MeteredAt(r, id) && EndingOf(r.trace, id) == Concluding(EndingOf(s.trace, id), e, id)
  {
    OneMoreEffect(s.trace, e, id);
  }

  lemma {:induction false} OpenSettles(s: State, handle: string, agent: string, now: int, ttl: nat, id: nat)
    requires Wf(s) && MeteredAt(s, id) && PairedAt(s, id)
    ensures var r := OpenStep(s, handle, agent, now, ttl); MeteredAt(r, id) && PairedAt(r, id)
  {
    OpenMeters(s, handle, agent, now, ttl, id);
    OpenLives(s.store, handle, agent, now, ttl, id);
  }

  lemma {:induction false} OpenMeters(s: State, handle: string, agent: string, now: int, ttl: nat, id: nat)
    requires Wf(s) && MeteredAt(s, id)
    ensures var r := OpenStep(s, handle, agent, now, ttl);
            && MeteredAt(r, id)
            && EndingOf(r.trace, id) == if handle !in s.store.table then EndingOf(s.trace, id)
                                        else Concluding(EndingOf(s.trace, id), Replaced(s.store.table[handle]), id)
  {
    var r := OpenStep(s, handle, agent, now, ttl);
    assert HolderOf(r, id) == HolderOf(s, id);
    if handle in s.store.table {
      OneMoreEffect(s.trace, Replaced(s.store.table[handle]), id);
    } else {
      assert r.trace == s.trace;
    }
  }

  lemma {:induction false} OpenLives(store: Store, handle: string, agent: string, now: int, ttl: nat, id: nat)
    requires WellFormed(store)
    ensures Live(Inserted(store, handle, agent, now, ttl), id) <==>
            id == |store.arena| || (Live(store, id) && !(handle in store.table && store.table[handle] == id))
    ensures handle in store.table ==> Live(store, store.table[handle])
  {
  }

  lemma {:induction false} TakeSettles(s: State, handle: string, agent: string, id: nat)
    requires Wf(s) && MeteredAt(s, id) && PairedAt(s, id)
    ensures MeteredAt(TakeStep(s, handle, agent), id) && PairedAt(TakeStep(s, handle, agent), id)
  {
    var taken := Takes(s.store, handle, agent);
    if taken.Some? {
      MetersKept(s, TakeStep(s, handle, agent), Removed({taken.value}), id);
      TakeUnlists(s.store, handle, agent, id);
    }
  }

  lemma {:induction false} TakeUnlists(store: Store, handle: string, agent: string, id: nat)
    requires WellFormed(store) && Takes(store, handle, agent).Some?
    ensures Live(Taken(store, handle, agent), id) <==> Live(store, id) && id != Takes(store, handle, agent).value
    ensures Live(store, Takes(store, handle, agent).value)
  {
  }

  lemma {:induction false} ExitSettles(s: State, f: nat, id: nat)
    requires Wf(s) && MeteredAt(s, id) && PairedAt(s, id)
    ensures MeteredAt(ExitStep(s, f), id) && PairedAt(ExitStep(s, f), id)
  {
    if f < |s.frames| && s.frames[f].phase.Exited? {
      var x := s.frames[f];
      var r := s.(frames := s.frames[f := x.(phase := Done)]);
      assert HolderOf(r, id) == HolderOf(s, id) || HolderOf(r, id) == Some(x.(phase := Done));
      assert MeteredAt(r, id);
      TakeSettles(r, x.handle, x.agent, id);
    }
  }

  lemma {:induction false} ReapSettles(s: State, now: int, id: nat)
    requires Wf(s) && MeteredAt(s, id) && PairedAt(s, id)
    ensures MeteredAt(ReapStep(s, now), id) && PairedAt(ReapStep(s, now), id)
  {
    MetersKept(s, ReapStep(s, now), Removed(ReapedIds(s.store, now)), id);
    ReapPairs(s, now, id);
  }

  lemma {:induction false} ReapPairs(s: State, now: int, id: nat)
    requires Wf(s) && PairedAt(s, id)
    requires EndingOf(ReapStep(s, now).trace, id)
             == Concluding(EndingOf(s.trace, id), Removed(ReapedIds(s.store, now)), id)
    ensures PairedAt(ReapStep(s, now), id)
  {
    ReapUnlists(s.store, now, id);
  }

  lemma {:induction false} ReapUnlists(store: Store, now: int, id: nat)
    requires WellFormed(store)
    ensures id in ReapedIds(store, now) <==> Live(store, id) && !Live(Reaped(store, now), id)
    ensures Live(Reaped(store, now), id) ==> Live(store, id)
  {
  }

  lemma {:induction false} SummarySettles(s: State, at: nat, id: nat)
    requires Wf(s) && MeteredAt(s, id) && PairedAt(s, id)
    ensures MeteredAt(SummaryStep(s, at), id) && PairedAt(SummaryStep(s, at), id)
  {
    if at in s.closing && |s.closing[at]| == 3 {
      var n := s.closing[at];
      MetersKept(s, SummaryStep(s, at), Summary(at, n[0], n[1], n[2]), id);
    }
  }

  lemma {:induction false} CommandSettles(
    s: State, step: nat, verified: Option<string>, handle: Option<string>, input: Bytes, now: int, id: nat)
    requires Wf(s) && MeteredAt(s, id) && PairedAt(s, id)
    ensures var r := CommandStep(s, step, verified, handle, input, now); MeteredAt(r, id) && PairedAt(r, id)
  {
    var r := CommandStep(s, step, verified, handle, input, now);
    assert HolderOf(r, id) == HolderOf(s, id);
  }

  lemma {:induction false} StepSettles(s: State, step: nat, e: Event, id: nat)
    requires Wf(s) && MeteredAt(s, id) && PairedAt(s, id)
    ensures MeteredAt(Step(s, step, e), id) && PairedAt(Step(s, step, e), id)
  {
    match e
    case Opens(handle, agent, now, ttl) => OpenSettles(s, handle, agent, now, ttl, id);
    case Command(verified, handle, input, now) => CommandSettles(s, step, verified, handle, input, now, id);
    case Write(f, ok) => WriteSettles(s, f, ok, id);
    case Read(f, chunks, closed) => ReadSettles(s, f, chunks, closed, id);
    case Count(f) => CountSettles(s, f, id);
    case Number(f) => NumberSettles(s, f, id);
    case ExitTake(f) => ExitSettles(s, f, id);
    case Close(verified, handle) =>
      if verified.Some? && handle.Some? { TakeSettles(s, handle.value, verified.value, id); }
    case Reap(now) => ReapSettles(s, now, id);
    case Shutdown(at) => ShutdownSettles(s, at, id);
    case Load(at) => LoadSettles(s, at, id);
    case Summarise(at) => SummarySettles(s, at, id);
  }

  lemma {:induction false} ShutdownSettles(s: State, at: nat, id: nat)
    requires Wf(s) && MeteredAt(s, id) && PairedAt(s, id)
    ensures MeteredAt(ShutdownStep(s, at), id) && PairedAt(ShutdownStep(s, at), id)
  {
  }

  lemma {:induction false} LoadSettles(s: State, at: nat, id: nat)
    requires Wf(s) && MeteredAt(s, id) && PairedAt(s, id)
    ensures MeteredAt(LoadStep(s, at), id) && PairedAt(LoadStep(s, at), id)
  {
  }

  /** In every run, every session's books balance. */
  lemma {:induction false} BooksBalance(events: seq<Event>, id: nat)
    ensures MeteredAt(After(events), id) && PairedAt(After(events), id)
  {
    if events != [] {
      var before := events[..|events| - 1];
      BooksBalance(before, id);
      var s, last := After(before), events[|events| - 1];
      StepSettles(s, |events| - 1, last, id);
      assert After(events) == Step(s, |events| - 1, last);
    }
  }

  // ---- Who may write ----

  /** The frame was verified as the session's opener and found it live, before its expiry. */
  ghost predicate Authorised(events: seq<Event>, f: Frame) {
    && f.born < |events|
    && events[f.born] == Command(Some(f.agent), Some(f.handle), f.input, f.at)
    && var then_ := After(events[..f.born]).store;
    && Live(then_, f.id) && then_.arena[f.id].handle == f.handle
    && then_.arena[f.id].agent == f.agent && f.at < then_.arena[f.id].expiresAt
  }

  lemma {:induction false} AuthorisedStays(events: seq<Event>, f: Frame)
    requires events != [] && Authorised(events[..|events| - 1], f)
    ensures Authorised(events, f)
  {
    assert events[..|events| - 1][..f.born] == events[..f.born];
  }

  /** Steps change a frame's phase and nothing else about it. */
  lemma {:induction false} FramesKept(s: State, step: nat, e: Event, f: nat)
    requires Wf(s) && f < |s.frames|
    ensures f < |Step(s, step, e).frames|
    ensures Step(s, step, e).frames[f] == s.frames[f].(phase := Step(s, step, e).frames[f].phase)
    ensures Step(s, step, e).frames[f].phase.Accessed? ==> s.frames[f].phase.Accessed?
  {
  }

  lemma {:induction false} OldFrame(events: seq<Event>, f: nat)
    requires events != [] && f < |After(events[..|events| - 1]).frames|
    ensures f < |After(events).frames|
    ensures var was, now := After(events[..|events| - 1]).frames[f], After(events).frames[f];
            now == was.(phase := now.phase) && (now.phase.Accessed? ==> was.phase.Accessed?)
  {
    FramesKept(After(events[..|events| - 1]), |events| - 1, events[|events| - 1], f);
  }

  lemma {:induction false} AnyPhase(events: seq<Event>, f: Frame, phase: Phase)
    requires Authorised(events, f)
    ensures Authorised(events, f.(phase := phase))
  {
  }

  /** Every frame in flight is authorised. */
  lemma {:induction false} FramesAuthorised(events: seq<Event>, f: nat)
    requires f < |After(events).frames|
    ensures Authorised(events, After(events).frames[f])
  {
    var before := events[..|events| - 1];
    if f < |After(before).frames| {
      FramesAuthorised(before, f);
      OldFrame(events, f);
      AuthorisedStays(events, After(before).frames[f]);
      AnyPhase(events, After(before).frames[f], After(events).frames[f].phase);
    } else {
      NewFrame(After(before), |events| - 1, events[|events| - 1]);
    }
  }

  lemma {:induction false} NewFrame(s: State, step: nat, e: Event)
    requires Wf(s) && |Step(s, step, e).frames| > |s.frames|
    ensures |Step(s, step, e).frames| == |s.frames| + 1
    ensures var f := Step(s, step, e).frames[|s.frames|];
            && e == Command(Some(f.agent), Some(f.handle), f.input, f.at) && f.born == step
            && Live(s.store, f.id) && s.store.arena[f.id].handle == f.handle
            && s.store.arena[f.id].agent == f.agent && f.at < s.store.arena[f.id].expiresAt
  {
  }

  predicate WriteMatches(s: State, i: nat)
    requires i < |s.trace|
  {
    var w := s.trace[i];
    w.Wrote? ==>
      && w.frame < |s.frames| && s.frames[w.frame].id == w.id && |s.frames[w.frame].input| == w.length
      && !s.frames[w.frame].phase.Accessed?
  }

  lemma {:induction false} OutputsOnly(id: nat, last: nat, chunks: seq<Bytes>, i: nat)
    ensures |Outputs(id, last, chunks)| == |chunks|
    ensures i < |chunks| ==> Outputs(id, last, chunks)[i] == Output(id, last + i + 1, chunks[i])
    decreases |chunks|
  {
    if chunks != [] { OutputsOnly(id, last, chunks[..|chunks| - 1], i); }
  }

  /** What a step adds to the trace. */
  lemma {:induction false} TraceGrows(s: State, step: nat, e: Event, i: nat)
    requires Wf(s) && i < |Step(s, step, e).trace|
    ensures s.trace <= Step(s, step, e).trace
    ensures i >= |s.trace| ==> WriteMatches(Step(s, step, e), i)
    ensures i >= |s.trace| && Step(s, step, e).trace[i].Summary? ==>
              && e.Summarise? && e.id in s.closing && |s.closing[e.id]| == 3 && i == |s.trace|
              && var n := s.closing[e.id]; Step(s, step, e).trace[i] == Summary(e.id, n[0], n[1], n[2])
  {
    if e.Number? && Holds(s, e.frame) && s.frames[e.frame].phase.Fetched? && i >= |s.trace| {
      var x := s.frames[e.frame];
      OutputsOnly(x.id, s.store.arena[x.id].outSeq, x.phase.batch, i - |s.trace|);
    }
  }

  lemma {:induction false} WritesMatch(events: seq<Event>, i: nat)
    requires i < |After(events).trace|
    ensures WriteMatches(After(events), i)
  {
    var before, last := events[..|events| - 1], events[|events| - 1];
    var s := After(before);
    TraceGrows(s, |events| - 1, last, i);
    if i < |s.trace| {
      WritesMatch(before, i);
      if s.trace[i].Wrote? { OldFrame(events, s.trace[i].frame); }
    }
  }

  /** Bytes reach a channel only from a frame verified as the opener whose lookup came before the expiry. */
  lemma {:induction false} OnlyTheOpenerWrites(events: seq<Event>, i: nat)
    requires i < |After(events).trace| && After(events).trace[i].Wrote?
    ensures var w := After(events).trace[i];
            && w.frame < |After(events).frames| && After(events).frames[w.frame].id == w.id
            && Authorised(events, After(events).frames[w.frame])
  {
    WritesMatch(events, i);
    FramesAuthorised(events, After(events).trace[i].frame);
  }

  /** A frame writes at most once. */
  lemma {:induction false} FrameWritesOnce(events: seq<Event>, i: nat, j: nat)
    requires i < j < |After(events).trace| && After(events).trace[i].Wrote? && After(events).trace[j].Wrote?
    ensures After(events).trace[i].frame != After(events).trace[j].frame
  {
    var before, last := events[..|events| - 1], events[|events| - 1];
    var s := After(before);
    TraceGrows(s, |events| - 1, last, j);
    if j < |s.trace| {
      FrameWritesOnce(before, i, j);
    } else {
      WriteAdds(s, |events| - 1, last, j);
      WritesMatch(before, i);
    }
  }

  lemma {:induction false} WriteAdds(s: State, step: nat, e: Event, j: nat)
    requires Wf(s) && |s.trace| <= j < |Step(s, step, e).trace| && Step(s, step, e).trace[j].Wrote?
    ensures j == |s.trace| && e.Write? && e.frame == Step(s, step, e).trace[j].frame && CanWrite(s, e.frame)
  {
    if e.Number? && Holds(s, e.frame) && s.frames[e.frame].phase.Fetched? {
      var x := s.frames[e.frame];
      OutputsOnly(x.id, s.store.arena[x.id].outSeq, x.phase.batch, j - |s.trace|);
    }
  }

  /** Frames are born one at a time. */
  lemma {:induction false} OwnBirth(events: seq<Event>, f: nat, g: nat)
    requires f < g < |After(events).frames|
    ensures After(events).frames[f].born < After(events).frames[g].born
  {
    var before := events[..|events| - 1];
    if g < |After(before).frames| {
      OldFrame(events, f);
      OldFrame(events, g);
      OwnBirth(before, f, g);
    } else {
      BornLast(events, g);
      OldFrame(events, f);
      BornBefore(before, f);
    }
  }

  lemma {:induction false} BornBefore(events: seq<Event>, f: nat)
    requires f < |After(events).frames|
    ensures After(events).frames[f].born < |events|
  {
    FramesAuthorised(events, f);
  }

  lemma {:induction false} BornLast(events: seq<Event>, g: nat)
    requires events != [] && |After(events[..|events| - 1]).frames| <= g < |After(events).frames|
    ensures g == |After(events[..|events| - 1]).frames| && After(events).frames[g].born == |events| - 1
  {
    NewFrame(After(events[..|events| - 1]), |events| - 1, events[|events| - 1]);
  }

  // ---- How a session ends ----

  /** A session leaves the table by its opener's close or exited channel, by expiring, or by a repeated handle. */
  lemma {:induction false} RemovalHasCause(s: State, step: nat, e: Event, id: nat)
    requires Wf(s) && Live(s.store, id) && !Live(Step(s, step, e).store, id)
    ensures var owner, handle := s.store.arena[id].agent, s.store.arena[id].handle;
            || (e.Close? && e.verified == Some(owner) && e.named == Some(handle))
            || (e.ExitTake? && e.frame < |s.frames| && s.frames[e.frame].phase.Exited?
                && s.frames[e.frame].agent == owner && s.frames[e.frame].handle == handle)
            || (e.Reap? && e.now >= s.store.arena[id].expiresAt)
            || (e.Opens? && e.handle == handle)
  {
  }

  /** No handle is drawn while an earlier session still answers to it. */
  ghost predicate FreshHandles(events: seq<Event>) {
    forall k :: 0 <= k < |events| && events[k].Opens? ==> events[k].handle !in After(events[..k]).store.table
  }

  /** Only a handle that is still answered to replaces anything. */
  lemma {:induction false} OnlyOpensReplace(s: State, step: nat, e: Event, id: nat)
    requires Wf(s) && MeteredAt(s, id) && PairedAt(s, id) && (e.Opens? ==> e.handle !in s.store.table)
    ensures EndingOf(Step(s, step, e).trace, id).replaced == EndingOf(s.trace, id).replaced
  {
    var r := Step(s, step, e);
    if e.Number? {
      NumberReplacesNothing(s, e.frame, id);
    } else if r.trace != s.trace {
      OneEffect(s, step, e);
      OneMoreEffect(s.trace, r.trace[|s.trace|], id);
    }
  }

  lemma {:induction false} OneEffect(s: State, step: nat, e: Event)
    requires Wf(s) && !e.Number? && (e.Opens? ==> e.handle !in s.store.table) && Step(s, step, e).trace != s.trace
    ensures var r := Step(s, step, e);
            |r.trace| == |s.trace| + 1 && r.trace == s.trace + [r.trace[|s.trace|]] && !r.trace[|s.trace|].Replaced?
  {
  }

  lemma {:induction false} NumberReplacesNothing(s: State, f: nat, id: nat)
    requires Wf(s) && MeteredAt(s, id)
    ensures EndingOf(NumberStep(s, f).trace, id) == EndingOf(s.trace, id)
  {
    if Holds(s, f) && s.frames[f].phase.Fetched? {
      var x := s.frames[f];
      OutputsEndNothing(s.trace, x.id, s.store.arena[x.id].outSeq, x.phase.batch, id);
    }
  }

  lemma {:induction false} FreshBefore(events: seq<Event>)
    requires FreshHandles(events) && events != []
    ensures FreshHandles(events[..|events| - 1])
    ensures events[|events| - 1].Opens? ==>
              events[|events| - 1].handle !in After(events[..|events| - 1]).store.table
  {
    var before := events[..|events| - 1];
    forall k | 0 <= k < |before| && before[k].Opens? ensures before[k].handle !in After(before[..k]).store.table {
      assert before[..k] == events[..k] && events[k] == before[k];
    }
  }

  /** With fresh handles nothing is replaced. */
  lemma {:induction false} NothingReplaced(events: seq<Event>, id: nat)
    requires FreshHandles(events)
    ensures EndingOf(After(events).trace, id).replaced == 0
  {
    if events != [] {
      var before, last := events[..|events| - 1], events[|events| - 1];
      FreshBefore(events);
      NothingReplaced(before, id);
      BooksBalance(before, id);
      OnlyOpensReplace(After(before), |events| - 1, last, id);
    }
  }

  /**
   * Every session opened is still in the table, was removed exactly once, or was replaced by a repeated handle,
   * just one of the three. With fresh handles the third never happens.
   */
  lemma {:induction false} LiveOrRemovedOnce(events: seq<Event>, id: nat)
    requires id < |After(events).store.arena|
    ensures var x := EndingOf(After(events).trace, id);
            && x.removals + x.replaced + Bit(Live(After(events).store, id)) == 1
            && (FreshHandles(events) ==> x.replaced == 0)
  {
    BooksBalance(events, id);
    if FreshHandles(events) { NothingReplaced(events, id); }
  }
}

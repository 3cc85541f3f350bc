/** The code that handles session frames and the liveness scan, against the steps of `SessionRuns`. */
module SessionFrames {
  import opened Text
  import opened SessionTable
  import opened SessionRuns

  datatype Reply =
    | NotVerified
    | NoHandle
    | Refused(error: AccessError)
    | WriteFailed
    | Output(outputs: seq<(nat, Bytes)>, closed: bool)
    | NotClosed
    | Closed

  /** What the channel does for one frame: the write succeeds or not, then a batch is read. */
  datatype Channel = Channel(writes: bool, chunks: seq<Bytes>, closed: bool)

  /** The steps of one command frame from its lookup to the end of its batch, nothing else happening meanwhile. */
  function Relay(
    s: State, verified: Option<string>, named: Option<string>, input: Bytes, now: int, ch: Channel): (r: State)
    requires Wf(s)
    ensures Wf(r)
  {
    var f := |s.frames|;
    var written := WriteStep(CommandStep(s, 0, verified, named, input, now), f, ch.writes);
    NumberStep(Counts(ReadStep(written, f, ch.chunks, ch.closed), f), f)
  }

  function Counts(s: State, f: nat): (r: State)
    requires Wf(s)
    ensures Wf(r)
  {
    CountStep(CountStep(CountStep(s, f), f), f)
  }

  /** And then the removal, if the channel has exited. */
  function Alone(
    s: State, verified: Option<string>, named: Option<string>, input: Bytes, now: int, ch: Channel): (r: State)
    requires Wf(s)
    ensures Wf(r)
  {
    ExitStep(Relay(s, verified, named, input, now, ch), |s.frames|)
  }

  function Numbered(last: nat, chunks: seq<Bytes>): seq<(nat, Bytes)> {
    seq(|chunks|, i requires 0 <= i < |chunks| => (last + i + 1, chunks[i]))
  }

  function RelayedEntry(e: Entry, input: Bytes, chunks: seq<Bytes>): Entry {
    Recorded(e, |input|, Length(chunks)).(outSeq := e.outSeq + |chunks|)
  }

  lemma {:induction false} LengthSnoc(chunks: seq<Bytes>, i: nat)
    requires i < |chunks|
    ensures Length(chunks[..i + 1]) == Length(chunks[..i]) + |chunks[i]|
  {
    assert chunks[..i + 1][..i] == chunks[..i];
  }

  /** The chunks of a batch are counted together, then numbered one by one. */
  method CountAndNumber(t: Sessions, id: nat, input: Bytes, chunks: seq<Bytes>) returns (outputs: seq<(nat, Bytes)>)
    requires t.Valid() && id < |t.arena|
    modifies t
    ensures t.Valid()
    ensures t.Snapshot() == Updated(old(t.Snapshot()), id, RelayedEntry(old(t.arena[id]), input, chunks))
    ensures outputs == Numbered(old(t.arena[id]).outSeq, chunks)
  {
    ghost var e := t.arena[id];
    ghost var was := t.Snapshot();
    var total := 0;
    for i := 0 to |chunks|
      invariant total == Length(chunks[..i]) && t.Snapshot() == was
    {
      LengthSnoc(chunks, i);
      total := total + |chunks[i]|;
    }
    assert chunks[..|chunks|] == chunks;
    t.RecordRelay(id, |input|, total);
    outputs := [];
    for i := 0 to |chunks|
      invariant t.Valid() && outputs == Numbered(e.outSeq, chunks)[..i]
      invariant t.Snapshot() == Updated(was, id, Recorded(e, |input|, Length(chunks)).(outSeq := e.outSeq + i))
    {
      var number := t.NextOutSeq(id);
      outputs := outputs + [(number, chunks[i])];
    }
  }

  /** The session the frame may use. */
  ghost predicate Found(s: State, agent: string, handle: string, now: int, id: nat)
    requires Wf(s)
  {
    Lookup(s.store, handle, agent, now).Ok? && id == Lookup(s.store, handle, agent, now).value.0
  }

  /**
   * A command frame: verify first, then look up, then relay under the channel's lock, then tear down on exit.
   * `world` is all that is in flight; the call waits until no other frame holds the channel it wants.
   */
  method HandleCommand(
    t: Sessions, verified: Option<string>, named: Option<string>, input: Bytes, now: int, ch: Channel,
    ghost world: State)
    returns (reply: Reply)
    requires Wf(world) && world.store == t.Snapshot()
    requires verified.Some? && named.Some? ==>
               forall id: nat ::
                 Found(world, verified.value, named.value, now, id) ==> world.store.arena[id].holder.None?
    modifies t
    ensures t.Valid() && t.Snapshot() == Alone(world, verified, named, input, now, ch).store
    ensures reply.Output? <==>
              && verified.Some? && named.Some? && ch.writes
              && Lookup(old(t.Snapshot()), named.value, verified.value, now).Ok?
    ensures reply.Output? ==>
              var id := Lookup(old(t.Snapshot()), named.value, verified.value, now).value.0;
              reply == Reply.Output(Numbered(old(t.Snapshot()).arena[id].outSeq, ch.chunks), ch.closed)
  {
    NothingToRelay(world, verified, named, input, now, ch);
    if verified.None? { return NotVerified; }
    if named.None? { return NoHandle; }
    var found := t.Access(named.value, verified.value, now);
    if found.Err? { return Refused(found.error); }
    var id := found.value.0;
    RelayStore(world, verified.value, named.value, input, now, ch, id);
    if !ch.writes { return WriteFailed; }
    var outputs := CountAndNumber(t, id, input, ch.chunks);
    if ch.closed {
      var _ := t.Take(named.value, verified.value);
    }
    return Reply.Output(outputs, ch.closed);
  }

  /** A frame that does not get past its lookup has no further steps. */
  lemma {:induction false} NothingToRelay(
    s: State, verified: Option<string>, named: Option<string>, input: Bytes, now: int, ch: Channel)
    requires Wf(s)
    ensures verified.None? || named.None? || Lookup(s.store, named.value, verified.value, now).Err? ==>
              Alone(s, verified, named, input, now, ch) == s
  {
  }

  /** The steps of a frame, as one change of the store. */
  lemma {:induction false} RelayStore(
    s: State, agent: string, handle: string, input: Bytes, now: int, ch: Channel, id: nat)
    requires Wf(s) && Found(s, agent, handle, now, id) && s.store.arena[id].holder.None?
    ensures var r := Alone(s, Some(agent), Some(handle), input, now, ch).store;
            if !ch.writes then r == s.store
            else
              var relayed := Updated(s.store, id, RelayedEntry(s.store.arena[id], input, ch.chunks));
              r == if ch.closed then Taken(relayed, handle, agent) else relayed
  {
    var f := |s.frames|;
    if ch.writes {
      RelayWritten(s, agent, handle, input, now, ch, id);
    } else {
      WriteStage(s, agent, handle, input, now, false, id);
    }
  }

  lemma {:induction false} WriteStage(
    s: State, agent: string, handle: string, input: Bytes, now: int, ok: bool, id: nat)
    requires Wf(s) && Found(s, agent, handle, now, id) && s.store.arena[id].holder.None?
    ensures var r := WriteStep(CommandStep(s, 0, Some(agent), Some(handle), input, now), |s.frames|, ok);
            && r.store.table == s.store.table && id < |s.store.arena|
            && r.frames == s.frames + [Frame(id, handle, agent, input, now, 0, if ok then Writing else Done)]
            && r.store.arena == if ok then s.store.arena[id := s.store.arena[id].(holder := Some(|s.frames|))]
                                else s.store.arena
  {
    var arrived := CommandStep(s, 0, Some(agent), Some(handle), input, now);
    assert arrived.frames == s.frames + [Frame(id, handle, agent, input, now, 0, Accessed)];
    assert CanWrite(arrived, |s.frames|);
  }

  lemma {:induction false} RelayWritten(
    s: State, agent: string, handle: string, input: Bytes, now: int, ch: Channel, id: nat)
    requires Wf(s) && Found(s, agent, handle, now, id) && s.store.arena[id].holder.None? && ch.writes
    ensures var r := Relay(s, Some(agent), Some(handle), input, now, ch);
            && r.store == Updated(s.store, id, RelayedEntry(s.store.arena[id], input, ch.chunks))
            && |r.frames| == |s.frames| + 1
            && r.frames[|s.frames|] == Frame(id, handle, agent, input, now, 0, if ch.closed then Exited else Done)
  {
    WriteStage(s, agent, handle, input, now, true, id);
    FromWritten(s, WriteStep(CommandStep(s, 0, Some(agent), Some(handle), input, now), |s.frames|, true), ch, id,
                Frame(id, handle, agent, input, now, 0, Writing));
  }

  lemma {:induction false} FromWritten(s: State, w: State, ch: Channel, id: nat, x: Frame)
    requires Wf(s) && Wf(w) && id < |s.store.arena| && s.store.arena[id].holder.None? && x.id == id && x.phase.Writing?
    requires w.store.table == s.store.table && w.frames == s.frames + [x]
    requires w.store.arena == s.store.arena[id := s.store.arena[id].(holder := Some(|s.frames|))]
    ensures var r := NumberStep(Counts(ReadStep(w, |s.frames|, ch.chunks, ch.closed), |s.frames|), |s.frames|);
            && r.store == Updated(s.store, id, RelayedEntry(s.store.arena[id], x.input, ch.chunks))
            && |r.frames| == |s.frames| + 1
            && r.frames[|s.frames|] == x.(phase := if ch.closed then Exited else Done)
  {
    FinishStage(w, |s.frames|, ch.chunks, ch.closed);
    SameEntry(s.store.arena, id, w.store.arena[id], RelayedEntry(s.store.arena[id], x.input, ch.chunks));
  }

  lemma SameEntry(arena: seq<Entry>, id: nat, first: Entry, second: Entry)
    requires id < |arena|
    ensures arena[id := first][id := second] == arena[id := second]
  {
  }

  lemma {:induction false} FinishStage(s: State, f: nat, chunks: seq<Bytes>, closed: bool)
    requires Wf(s) && Holds(s, f) && s.frames[f].phase.Writing?
    ensures var r := NumberStep(Counts(ReadStep(s, f, chunks, closed), f), f);
            var x := s.frames[f];
            && r.store.table == s.store.table && |r.frames| == |s.frames|
            && r.store.arena
               == s.store.arena[x.id := RelayedEntry(s.store.arena[x.id], x.input, chunks).(holder := None)]
            && r.frames[f] == x.(phase := if closed then Exited else Done)
  {
    CountStage(s, f, chunks, closed);
    var counted, x := Counts(ReadStep(s, f, chunks, closed), f), s.frames[f];
    assert counted.frames[f] == x.(phase := Fetched(chunks, closed, 3));
    NumberStage(counted, f);
    var e := counted.store.arena[x.id];
    SameEntry(s.store.arena, x.id, e, NumberedEntry(e, counted.frames[f]));
  }

  lemma {:induction false} CountStage(s: State, f: nat, chunks: seq<Bytes>, closed: bool)
    requires Wf(s) && Holds(s, f) && s.frames[f].phase.Writing?
    ensures var r := Counts(ReadStep(s, f, chunks, closed), f);
            var x := s.frames[f];
            && r.store.table == s.store.table && Holds(r, f)
            && r.store.arena == s.store.arena[x.id := Recorded(s.store.arena[x.id], |x.input|, Length(chunks))]
            && r.frames == s.frames[f := x.(phase := Fetched(chunks, closed, 3))]
  {
    var x := s.frames[f];
    var read := ReadStep(s, f, chunks, closed);
    assert read.frames == s.frames[f := x.(phase := Fetched(chunks, closed, 0))] && read.store.arena == s.store.arena;
    CountOnce(read, f);
    CountOnce(CountStep(read, f), f);
    CountOnce(CountStep(CountStep(read, f), f), f);
  }

  lemma {:induction false} CountOnce(s: State, f: nat)
    requires Wf(s) && Holds(s, f) && s.frames[f].phase.Fetched? && s.frames[f].phase.counted < 3
    ensures var r, x := CountStep(s, f), s.frames[f];
            && r.store.table == s.store.table && Holds(r, f)
            && r.store.arena == s.store.arena[x.id := CountedEntry(s.store.arena[x.id], x)]
            && r.frames == s.frames[f := x.(phase := x.phase.(counted := x.phase.counted + 1))]
  {
  }

  lemma {:induction false} NumberStage(s: State, f: nat)
    requires Wf(s) && Holds(s, f) && s.frames[f].phase.Fetched? && s.frames[f].phase.counted == 3
    ensures var r, x := NumberStep(s, f), s.frames[f];
            && r.store.table == s.store.table
            && r.store.arena == s.store.arena[x.id := NumberedEntry(s.store.arena[x.id], x)]
            && r.frames == s.frames[f := x.(phase := if x.phase.closed then Exited else Done)]
  {
  }

  /** A close frame takes the opener's session, expired or not, and no one else's. */
  method HandleClose(t: Sessions, verified: Option<string>, named: Option<string>, ghost world: State)
    returns (reply: Reply)
    requires Wf(world) && world.store == t.Snapshot()
    modifies t
    ensures t.Valid() && t.Snapshot() == Step(world, 0, Close(verified, named)).store
    ensures reply.Closed? <==> t.Snapshot() != old(t.Snapshot())
  {
    if verified.None? { return NotVerified; }
    if named.None? { return NoHandle; }
    var taken := t.Take(named.value, verified.value);
    return if taken.Some? then Closed else NotClosed;
  }

  // ---- The liveness scan ----

  function ScannedEntry(was: Store, id: nat, done: set<string>, now: int, threshold: nat): Entry
    requires id < |was.arena|
  {
    if was.arena[id].handle in done && Live(was, id) then Beaten(was.arena[id], now, threshold) else was.arena[id]
  }

  /** The sessions scanned so far have their beat remembered where one was due; nothing else has changed. */
  ghost predicate Scanned(was: Store, s: Store, done: set<string>, now: int, threshold: nat) {
    && s.table == was.table && |s.arena| == |was.arena|
    && (forall id :: 0 <= id < |s.arena| ==> s.arena[id] == ScannedEntry(was, id, done, now, threshold))
  }

  lemma {:induction false} ScanOneMore(was: Store, s: Store, done: set<string>, now: int, threshold: nat, h: string)
    requires WellFormed(was) && Scanned(was, s, done, now, threshold) && h in was.table && h !in done
    ensures s.arena[was.table[h]] == was.arena[was.table[h]]
    ensures var id := was.table[h];
            Scanned(was, s.(arena := s.arena[id := Beaten(s.arena[id], now, threshold)]), done + {h}, now, threshold)
  {
    var id := was.table[h];
    assert Live(was, id) && was.arena[id].handle == h;
    var r := s.(arena := s.arena[id := Beaten(s.arena[id], now, threshold)]);
    forall k | 0 <= k < |r.arena| ensures r.arena[k] == ScannedEntry(was, k, done + {h}, now, threshold) {
      assert s.arena[k] == ScannedEntry(was, k, done, now, threshold);
    }
  }

  function Due(s: Store, handles: set<string>, now: int, threshold: nat): set<string>
    requires WellFormed(s) && handles <= s.table.Keys
  {
    set h | h in handles && BeatDue(s.arena[s.table[h]], now, threshold)
  }

  /** Scans every live session once, in some order. */
  method ScanLive(t: Sessions, now: int, threshold: nat) returns (beats: set<string>)
    requires t.Valid()
    modifies t
    ensures t.Valid() && Scanned(old(t.Snapshot()), t.Snapshot(), old(t.table).Keys, now, threshold)
    ensures beats == Due(old(t.Snapshot()), old(t.table).Keys, now, threshold)
  {
    ghost var live := t.Snapshot();
    var todo := t.table.Keys;
    beats := {};
    while todo != {}
      invariant t.Valid() && todo <= live.table.Keys
      invariant Scanned(live, t.Snapshot(), live.table.Keys - todo, now, threshold)
      invariant beats == Due(live, live.table.Keys - todo, now, threshold)
      decreases todo
    {
      var h :| h in todo;
      ScanOneMore(live, t.Snapshot(), live.table.Keys - todo, now, threshold, h);
      assert live.table.Keys - (todo - {h}) == live.table.Keys - todo + {h};
      var due := t.HeartbeatDue(t.table[h], now, threshold);
      if due { beats := beats + {h}; }
      todo := todo - {h};
    }
    assert live.table.Keys - {} == live.table.Keys;
  }

  /**
   * Expired sessions are reaped first, each with its summary; then every live session is scanned once, and
   * beats exactly where a beat is due. A threshold of zero beats nowhere.
   */
  method EmitHeartbeats(t: Sessions, now: int, threshold: nat)
    returns (summaries: seq<(string, nat)>, beats: set<string>)
    requires t.Valid()
    modifies t
    ensures t.Valid()
    ensures forall h, id :: (h, id) in summaries <==>
              h in ExpiredHandles(old(t.Snapshot()), now) && id == old(t.table)[h]
    ensures var live := Reaped(old(t.Snapshot()), now);
            if threshold == 0 then beats == {} && t.Snapshot() == live
            else
              && Scanned(live, t.Snapshot(), live.table.Keys, now, threshold)
              && beats == Due(live, live.table.Keys, now, threshold)
  {
    summaries := t.ReapExpired(now);
    if threshold == 0 { return summaries, {}; }
    beats := ScanLive(t, now, threshold);
  }
}

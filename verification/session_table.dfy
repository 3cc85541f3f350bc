/** The table of live sessions: owner binding, expiry, output numbering and usage counters. */
module SessionTable {
  import opened Text
  import opened Words

  /**
   * One session. Its `handle` names the key it was inserted under, and `holder` the frame that
   * holds its channel lock. A session outlives its table entry while a frame still refers to it.
   */
  datatype Entry = Entry(
    handle: string,
    agent: string,
    openedAt: int,
    expiresAt: int,
    outSeq: nat,
    commands: nat,
    bytesIn: nat,
    bytesOut: nat,
    lastBeat: Option<int>,
    holder: Option<nat>)

  /** Every session ever opened, and the handles that still reach one. */
  datatype Store = Store(arena: seq<Entry>, table: map<string, nat>)

  datatype AccessError = UnknownHandle | ForeignAgent | Expired

  predicate WellFormed(s: Store) {
    forall h :: h in s.table ==> s.table[h] < |s.arena| && s.arena[s.table[h]].handle == h
  }

  /** The session is reachable: its own handle leads to it. */
  predicate Live(s: Store, id: nat) {
    id < |s.arena| && s.arena[id].handle in s.table && s.table[s.arena[id].handle] == id
  }

  function NewEntry(handle: string, agent: string, now: int, ttl: nat): Entry {
    Entry(handle, agent, now, now + ttl, 0, 0, 0, 0, None, None)
  }

  function Inserted(s: Store, handle: string, agent: string, now: int, ttl: nat): (r: Store)
    requires WellFormed(s)
    ensures WellFormed(r)
  {
    Store(s.arena + [NewEntry(handle, agent, now, ttl)], s.table[handle := |s.arena|])
  }

  /** Owner-checked lookup: the session's identity and the time it has left. */
  function Lookup(s: Store, handle: string, agent: string, now: int): (r: Result<(nat, nat), AccessError>)
    requires WellFormed(s)
    ensures r.Ok? <==> exists id: nat :: Live(s, id) && s.arena[id].handle == handle
                                         && s.arena[id].agent == agent && now < s.arena[id].expiresAt
    ensures r.Ok? ==> var id := r.value.0;
                      Live(s, id) && s.arena[id].handle == handle && s.arena[id].agent == agent
                      && now + r.value.1 == s.arena[id].expiresAt && r.value.1 > 0
  {
    if handle !in s.table then Err(UnknownHandle)
    else
      var id := s.table[handle];
      assert Live(s, id);
      if s.arena[id].agent != agent then Err(ForeignAgent)
      else if s.arena[id].expiresAt <= now then Err(Expired)
      else Ok((id, s.arena[id].expiresAt - now))
  }

  /** What a deliberate removal takes: nothing for an unknown handle or another agent's session. */
  function Takes(s: Store, handle: string, agent: string): Option<nat>
    requires WellFormed(s)
  {
    if handle in s.table && s.arena[s.table[handle]].agent == agent then Some(s.table[handle]) else None
  }

  function Taken(s: Store, handle: string, agent: string): (r: Store)
    requires WellFormed(s)
    ensures WellFormed(r)
  {
    if Takes(s, handle, agent).Some? then s.(table := s.table - {handle}) else s
  }

  function ExpiredHandles(s: Store, now: int): set<string>
    requires WellFormed(s)
  {
    set h | h in s.table && now >= s.arena[s.table[h]].expiresAt
  }

  function ReapedIds(s: Store, now: int): set<nat>
    requires WellFormed(s)
  {
    set h | h in ExpiredHandles(s, now) :: s.table[h]
  }

  function Reaped(s: Store, now: int): (r: Store)
    requires WellFormed(s)
    ensures WellFormed(r)
  {
    s.(table := s.table - ExpiredHandles(s, now))
  }

  function Updated(s: Store, id: nat, e: Entry): (r: Store)
    requires WellFormed(s) && id < |s.arena| && e.handle == s.arena[id].handle
    ensures WellFormed(r)
  {
    s.(arena := s.arena[id := e])
  }

  function Recorded(e: Entry, bytesIn: nat, bytesOut: nat): Entry {
    e.(commands := e.commands + 1, bytesIn := e.bytesIn + bytesIn, bytesOut := e.bytesOut + bytesOut)
  }

  /** A beat is due once the session has been open for the threshold and none came within the last one. */
  predicate BeatDue(e: Entry, now: int, threshold: nat) {
    now - e.openedAt >= threshold && (e.lastBeat.Some? ==> now - e.lastBeat.value >= threshold)
  }

  function Beaten(e: Entry, now: int, threshold: nat): Entry {
    if BeatDue(e, now, threshold) then e.(lastBeat := Some(now)) else e
  }

  /** The three wrapping additions on the counters' words. */
  predicate WordsAdded(before: Entry, after: Entry, bytesIn: nat, bytesOut: nat) {
    && Word(after.commands) == (Word(before.commands) + 1) % WORD
    && Word(after.bytesIn) == (Word(before.bytesIn) + Word(bytesIn)) % WORD
    && Word(after.bytesOut) == (Word(before.bytesOut) + Word(bytesOut)) % WORD
  }

  lemma RecordedWords(e: Entry, bytesIn: nat, bytesOut: nat)
    ensures WordsAdded(e, Recorded(e, bytesIn, bytesOut), bytesIn, bytesOut)
  {
    WordAdds(e.commands, 1);
    WordAdds(e.bytesIn, bytesIn);
    WordAdds(e.bytesOut, bytesOut);
  }

  class Sessions {
    var arena: seq<Entry>
    var table: map<string, nat>

    function Snapshot(): Store
      reads this
    {
      Store(arena, table)
    }

    predicate Valid()
      reads this
    {
      WellFormed(Snapshot())
    }

    constructor ()
      ensures Valid() && Snapshot() == Store([], map[])
    {
      arena, table := [], map[];
    }

    /** The handle is drawn at random by the caller's generator. */
    method Insert(handle: string, agent: string, now: int, ttl: nat) returns (id: nat)
      requires Valid()
      modifies this
      ensures Valid() && Snapshot() == Inserted(old(Snapshot()), handle, agent, now, ttl)
      ensures Live(Snapshot(), id) && arena[id] == Entry(handle, agent, now, now + ttl, 0, 0, 0, 0, None, None)
    {
      id := |arena|;
      arena := arena + [NewEntry(handle, agent, now, ttl)];
      table := table[handle := id];
    }

    method Access(handle: string, agent: string, now: int) returns (r: Result<(nat, nat), AccessError>)
      requires Valid()
      ensures r == Lookup(Snapshot(), handle, agent, now)
    {
      if handle !in table { return Err(UnknownHandle); }
      var e := arena[table[handle]];
      if e.agent != agent { return Err(ForeignAgent); }
      var remaining := if e.expiresAt > now then e.expiresAt - now else 0;
      if remaining == 0 { return Err(Expired); }
      return Ok((table[handle], remaining));
    }

    method Take(handle: string, agent: string) returns (r: Option<nat>)
      requires Valid()
      modifies this
      ensures Valid() && r == Takes(old(Snapshot()), handle, agent)
      ensures Snapshot() == Taken(old(Snapshot()), handle, agent)
    {
      if handle in table && arena[table[handle]].agent != agent { return None; }
      if handle !in table { return None; }
      r := Some(table[handle]);
      table := table - {handle};
    }

    /** Collects the expired handles in some order, then removes each. */
    method ReapExpired(now: int) returns (reaped: seq<(string, nat)>)
      requires Valid()
      modifies this
      ensures Valid() && Snapshot() == Reaped(old(Snapshot()), now)
      ensures |reaped| == |ExpiredHandles(old(Snapshot()), now)|
      ensures forall h, id :: (h, id) in reaped <==>
                h in ExpiredHandles(old(Snapshot()), now) && id == old(table)[h]
    {
      ghost var was := Snapshot();
      var todo := set h | h in table && now >= arena[table[h]].expiresAt;
      ghost var expired := todo;
      assert expired == ExpiredHandles(was, now);
      reaped := [];
      while todo != {}
        invariant todo <= expired && arena == was.arena
        invariant table == was.table - (expired - todo)
        invariant |reaped| + |todo| == |expired|
        invariant forall h, id :: (h, id) in reaped <==> h in expired - todo && id == was.table[h]
        decreases todo
      {
        var h :| h in todo;
        reaped := reaped + [(h, table[h])];
        table := table - {h};
        todo := todo - {h};
        assert table == was.table - (expired - todo);
      }
      assert expired - todo == expired;
    }

    method NextOutSeq(id: nat) returns (number: nat)
      requires Valid() && id < |arena|
      modifies this
      ensures Valid() && number == old(arena[id]).outSeq + 1
      ensures Snapshot() == Updated(old(Snapshot()), id, old(arena[id]).(outSeq := number))
      ensures Word(number) == (Word(old(arena[id]).outSeq) + 1) % WORD
    {
      WordAdds(arena[id].outSeq, 1);
      number := arena[id].outSeq + 1;
      arena := arena[id := arena[id].(outSeq := number)];
    }

    method RecordRelay(id: nat, bytesIn: nat, bytesOut: nat)
      requires Valid() && id < |arena|
      modifies this
      ensures Valid()
      ensures Snapshot() == Updated(old(Snapshot()), id, Recorded(old(arena[id]), bytesIn, bytesOut))
      ensures WordsAdded(old(arena[id]), arena[id], bytesIn, bytesOut)
    {
      RecordedWords(arena[id], bytesIn, bytesOut);
      var e := arena[id];
      e := e.(commands := e.commands + 1);
      e := e.(bytesIn := e.bytesIn + bytesIn);
      e := e.(bytesOut := e.bytesOut + bytesOut);
      arena := arena[id := e];
    }

    method HeartbeatDue(id: nat, now: int, threshold: nat) returns (due: bool)
      requires Valid() && id < |arena|
      modifies this
      ensures Valid() && due == BeatDue(old(arena[id]), now, threshold)
      ensures Snapshot() == Updated(old(Snapshot()), id, Beaten(old(arena[id]), now, threshold))
    {
      var e := arena[id];
      if now - e.openedAt < threshold {
        assert arena == arena[id := e];
        return false;
      }
      due := e.lastBeat.None? || now - e.lastBeat.value >= threshold;
      if due { e := e.(lastBeat := Some(now)); }
      arena := arena[id := e];
    }
  }

  // ---- Heartbeats over a run of scans ----

  function ScannedAt(e: Entry, times: seq<int>, threshold: nat): Entry {
    if times == [] then e
    else Beaten(ScannedAt(e, times[..|times| - 1], threshold), times[|times| - 1], threshold)
  }

  predicate BeatsAt(e: Entry, times: seq<int>, threshold: nat, i: nat)
    requires i < |times|
  {
    BeatDue(ScannedAt(e, times[..i], threshold), times[i], threshold)
  }

  lemma {:induction false} LastBeatSeen(e: Entry, times: seq<int>, threshold: nat, i: nat)
    requires i < |times| && BeatsAt(e, times, threshold, i)
    requires forall j, k :: 0 <= j < k < |times| ==> times[j] <= times[k]
    ensures var r := ScannedAt(e, times, threshold);
            r.lastBeat.Some? && r.lastBeat.value >= times[i] && r.openedAt == e.openedAt
  {
    var before := times[..|times| - 1];
    OpenedKept(e, times, threshold);
    if i < |times| - 1 {
      assert before[..i] == times[..i];
      LastBeatSeen(e, before, threshold, i);
      assert times[i] <= times[|times| - 1];
    } else {
      assert before == times[..i];
    }
  }

  lemma {:induction false} OpenedKept(e: Entry, times: seq<int>, threshold: nat)
    ensures ScannedAt(e, times, threshold).openedAt == e.openedAt
  {
    if times != [] { OpenedKept(e, times[..|times| - 1], threshold); }
  }

  /** However often the scan runs, beats are a threshold apart, and the first a threshold after opening. */
  lemma {:induction false} BeatsAreSpaced(e: Entry, times: seq<int>, threshold: nat, i: nat, j: nat)
    requires i < j < |times| && BeatsAt(e, times, threshold, i) && BeatsAt(e, times, threshold, j)
    requires forall a, b :: 0 <= a < b < |times| ==> times[a] <= times[b]
    ensures times[j] - times[i] >= threshold && times[i] - e.openedAt >= threshold
  {
    assert times[..j][..i] == times[..i];
    LastBeatSeen(e, times[..j], threshold, i);
    OpenedKept(e, times[..i], threshold);
  }
}

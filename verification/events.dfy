/**
 * The event feed: a registry of subscribers, a bounded queue for each, and one delivery thread for each.
 * Broadcasts, deliveries, stalls and failures interleave freely.
 */
module Events {
  import opened Text
  import opened Words
  import JournalText

  const SUB_QUEUE_LEN: nat := 256

  /** One delivery thread: the lines it still has to write, the one it is writing, and those written. */
  datatype Thread = Thread(alive: bool, queue: seq<string>, writing: Option<string>, delivered: seq<string>)

  /**
   * `registry` lists the threads a broadcast still offers lines to. The counter beside it is the word of `count`.
   * `uncounted` is the number of callers that have registered a subscriber and not yet counted it.
   */
  datatype State = State(registry: seq<nat>, threads: seq<Thread>, count: int, uncounted: nat)

  const EMPTY := State([], [], 0, 0)

  predicate Distinct(ids: seq<nat>) {
    ids != [] ==> ids[|ids| - 1] !in ids[..|ids| - 1] && Distinct(ids[..|ids| - 1])
  }

  lemma {:induction false} NotEarlier(ids: seq<nat>, pos: nat)
    requires Distinct(ids) && pos < |ids|
    ensures ids[pos] !in ids[..pos]
  {
    if pos < |ids| - 1 {
      NotEarlier(ids[..|ids| - 1], pos);
      assert ids[..|ids| - 1][..pos] == ids[..pos];
    }
  }

  predicate Listed(ids: seq<nat>, threads: seq<Thread>) {
    Distinct(ids) && forall i :: 0 <= i < |ids| ==> ids[i] < |threads|
  }

  predicate WellFormed(s: State) {
    Listed(s.registry, s.threads)
  }

  function Wire(line: string): string {
    line + "\n"
  }

  /** A non-blocking send succeeds: the thread is there and its queue has room. */
  predicate Accepts(t: Thread) {
    t.alive && |t.queue| < SUB_QUEUE_LEN
  }

  function Offer(t: Thread, wire: string): Thread {
    if Accepts(t) then t.(queue := t.queue + [wire]) else t
  }

  /** The line offered to each thread listed, one after the other. */
  function Offered(threads: seq<Thread>, ids: seq<nat>, wire: string): (r: seq<Thread>)
    requires forall i :: 0 <= i < |ids| ==> ids[i] < |threads|
    ensures |r| == |threads|
  {
    if ids == [] then threads
    else
      var before, id := Offered(threads, ids[..|ids| - 1], wire), ids[|ids| - 1];
      before[id := Offer(before[id], wire)]
  }

  /** Each thread listed is offered the line once, and no other is touched. */
  lemma {:induction false} OfferedAt(threads: seq<Thread>, ids: seq<nat>, wire: string, i: nat)
    requires Listed(ids, threads) && i < |threads|
    ensures Offered(threads, ids, wire)[i] == if i in ids then Offer(threads[i], wire) else threads[i]
  {
    if ids != [] {
      var front := ids[..|ids| - 1];
      assert Listed(front, threads);
      OfferedAt(threads, front, wire, i);
      assert ids == front + [ids[|ids| - 1]];
    }
  }

  function Kept(threads: seq<Thread>, ids: seq<nat>): (kept: seq<nat>)
    requires forall i :: 0 <= i < |ids| ==> ids[i] < |threads|
    ensures |kept| <= |ids|
    ensures forall id :: id in kept <==> id in ids && id < |threads| && Accepts(threads[id])
  {
    if ids == [] then []
    else
      var id := ids[|ids| - 1];
      Kept(threads, ids[..|ids| - 1]) + (if Accepts(threads[id]) then [id] else [])
  }

  lemma {:induction false} KeptDistinct(threads: seq<Thread>, ids: seq<nat>)
    requires Listed(ids, threads)
    ensures Listed(Kept(threads, ids), threads)
  {
    if ids != [] {
      var rest := ids[..|ids| - 1];
      KeptDistinct(threads, rest);
      var kept := Kept(threads, ids);
      if Accepts(threads[ids[|ids| - 1]]) {
        assert kept[..|kept| - 1] == Kept(threads, rest);
      } else {
        assert kept == Kept(threads, rest);
      }
    }
  }

  /** One more subscriber offered the line. */
  lemma {:induction false} OneMore(threads: seq<Thread>, ids: seq<nat>, pos: nat, wire: string)
    requires Listed(ids, threads) && pos < |ids|
    ensures var id, before := ids[pos], Offered(threads, ids[..pos], wire);
            && before[id] == threads[id]
            && Offered(threads, ids[..pos + 1], wire)
               == (if Accepts(threads[id]) then before[id := Offer(threads[id], wire)] else before)
            && Kept(threads, ids[..pos + 1])
               == Kept(threads, ids[..pos]) + (if Accepts(threads[id]) then [id] else [])
  {
    var id := ids[pos];
    NotEarlier(ids, pos);
    DistinctFront(ids, pos);
    assert ids[..pos + 1][..pos] == ids[..pos];
    OfferedAt(threads, ids[..pos], wire, id);
    var before := Offered(threads, ids[..pos], wire);
    assert before[id := before[id]] == before;
  }

  lemma {:induction false} DistinctFront(ids: seq<nat>, n: nat)
    requires Distinct(ids) && n <= |ids|
    ensures Distinct(ids[..n])
  {
    if n == |ids| {
      assert ids[..n] == ids;
    } else {
      DistinctFront(ids[..|ids| - 1], n);
      assert ids[..|ids| - 1][..n] == ids[..n];
    }
  }

  // ---- The hub ----

  function Broadcast(s: State, line: string): (r: State)
    requires WellFormed(s)
    ensures WellFormed(r) && |r.threads| == |s.threads|
  {
    KeptDistinct(s.threads, s.registry);
    var kept := Kept(s.threads, s.registry);
    State(kept, Offered(s.threads, s.registry, Wire(line)), s.count - (|s.registry| - |kept|), s.uncounted)
  }

  /** A subscriber whose thread could not be spawned is not registered. */
  function Registered(s: State, spawned: bool): (r: State)
    requires WellFormed(s)
    ensures WellFormed(r)
  {
    if !spawned then s
    else
      var joined := s.registry + [|s.threads|];
      assert joined[..|joined| - 1] == s.registry;
      s.(registry := joined, threads := s.threads + [Thread(true, [], None, [])], uncounted := s.uncounted + 1)
  }

  /** Counting comes after the registry's lock is given back. */
  function CountedIn(s: State): State {
    if s.uncounted == 0 then s else s.(count := s.count + 1, uncounted := s.uncounted - 1)
  }

  class EventHub {
    var registry: seq<nat>
    var threads: seq<Thread>
    var count: int
    ghost var uncounted: nat

    ghost function Snapshot(): State
      reads this
    {
      State(registry, threads, count, uncounted)
    }

    ghost predicate Valid()
      reads this
    {
      WellFormed(Snapshot())
    }

    constructor ()
      ensures Valid() && Snapshot() == EMPTY
    {
      registry, threads, count, uncounted := [], [], 0, 0;
    }

    /** Offers the line to each subscriber in turn, and says which could take it. */
    method OfferAll(wire: string) returns (kept: seq<nat>)
      requires Valid()
      modifies this`threads, this`count
      ensures threads == Offered(old(threads), registry, wire) && kept == Kept(old(threads), registry)
      ensures count == old(count) - (|registry| - |kept|)
    {
      kept := [];
      var pos := 0;
      ghost var was := threads;
      while pos < |registry|
        invariant 0 <= pos <= |registry|
        invariant threads == Offered(was, registry[..pos], wire)
        invariant kept == Kept(was, registry[..pos])
        invariant count == old(count) - (pos - |kept|)
      {
        var id := registry[pos];
        OneMore(was, registry, pos, wire);
        if Accepts(threads[id]) {
          threads := threads[id := Offer(threads[id], wire)];
          kept := kept + [id];
        } else {
          count := count - 1;
        }
        pos := pos + 1;
      }
      assert registry[..pos] == registry;
    }

    /** Drops those that could not take the line. */
    method Send(line: string)
      requires Valid()
      modifies this
      ensures Valid() && Snapshot() == Broadcast(old(Snapshot()), line)
    {
      KeptDistinct(threads, registry);
      registry := OfferAll(Wire(line));
    }

    method Register(spawned: bool)
      requires Valid()
      modifies this
      ensures Valid() && Snapshot() == Registered(old(Snapshot()), spawned)
    {
      if !spawned { return; }
      threads := threads + [Thread(true, [], None, [])];
      registry := registry + [|threads| - 1];
      uncounted := uncounted + 1;
    }

    method CountIn()
      requires Valid() && uncounted > 0
      modifies this`count, this`uncounted
      ensures Valid() && Snapshot() == CountedIn(old(Snapshot()))
    {
      count, uncounted := count + 1, uncounted - 1;
    }

    method SubscriberCount() returns (n: nat)
      ensures n == Word(count)
    {
      n := Word(count);
    }
  }

  // ---- Every interleaving ----

  /** A thread takes its next line, finishes writing it, or finds its peer gone. */
  datatype Event =
    | Sent(line: string)
    | Joined(spawned: bool)
    | Counted
    | Taken(id: nat)
    | Wrote(id: nat)
    | WriteFailed(id: nat)

  function Step(s: State, e: Event): (r: State)
    requires WellFormed(s)
    ensures WellFormed(r) && |s.threads| <= |r.threads|
  {
    match e
    case Sent(line) => Broadcast(s, line)
    case Joined(spawned) => Registered(s, spawned)
    case Counted => CountedIn(s)
    case Taken(id) =>
      if id < |s.threads| && s.threads[id].alive && s.threads[id].writing.None? && s.threads[id].queue != [] then
        var t := s.threads[id];
        s.(threads := s.threads[id := t.(queue := t.queue[1..], writing := Some(t.queue[0]))])
      else s
    case Wrote(id) =>
      if id < |s.threads| && s.threads[id].writing.Some? then
        var t := s.threads[id];
        s.(threads := s.threads[id := t.(writing := None, delivered := t.delivered + [t.writing.value])])
      else s
    case WriteFailed(id) =>
      if id < |s.threads| && s.threads[id].writing.Some? then
        s.(threads := s.threads[id := s.threads[id].(alive := false, writing := None, queue := [])])
      else s
  }

  function After(events: seq<Event>): (s: State)
    ensures WellFormed(s)
  {
    if events == [] then EMPTY else Step(After(events[..|events| - 1]), events[|events| - 1])
  }

  /** The lines broadcast by a run, as written on the wire. */
  function Wires(events: seq<Event>): seq<string> {
    if events == [] then []
    else
      var e := events[|events| - 1];
      Wires(events[..|events| - 1]) + (if e.Sent? then [Wire(e.line)] else [])
  }

  lemma {:induction false} WiresSplit(a: seq<Event>, b: seq<Event>)
    ensures Wires(a + b) == Wires(a) + Wires(b)
    decreases |b|
  {
    if b == [] {
      assert a + b == a;
    } else {
      assert (a + b)[..|a + b| - 1] == a + b[..|b| - 1];
      WiresSplit(a, b[..|b| - 1]);
    }
  }

  /** Everything a thread has been given and not lost, in order. */
  function Total(t: Thread): seq<string> {
    t.delivered + (if t.writing.Some? then [t.writing.value] else []) + t.queue
  }

  /** What one thread holds, against all lines sent since it joined. */
  predicate Follows(s: State, id: nat, lines: seq<string>)
    requires id < |s.threads|
  {
    var t := s.threads[id];
    && Total(t) <= lines
    && |t.queue| <= SUB_QUEUE_LEN
    && (!t.alive ==> t.writing.None? && t.queue == [])
    && (t.alive && id in s.registry ==> Total(t) == lines)
  }

  lemma {:induction false} SentFollows(s: State, line: string, id: nat, lines: seq<string>)
    requires WellFormed(s) && id < |s.threads| && Follows(s, id, lines)
    ensures Follows(Broadcast(s, line), id, lines + [Wire(line)])
  {
    var t := s.threads[id];
    OfferedAt(s.threads, s.registry, Wire(line), id);
    if id in s.registry && Accepts(t) {
      assert Total(Offer(t, Wire(line))) == Total(t) + [Wire(line)];
    }
  }

  /** Whatever is not a broadcast to it moves a thread's lines along, or loses those not yet written. */
  lemma {:induction false} TotalStep(s: State, e: Event, id: nat)
    requires WellFormed(s) && id < |s.threads| && (e.Sent? ==> id !in s.registry)
    ensures var t, r := s.threads[id], Step(s, e).threads[id];
            Total(r) <= Total(t) && (r.alive ==> Total(r) == Total(t))
  {
    var t := s.threads[id];
    if e.Sent? {
      OfferedAt(s.threads, s.registry, Wire(e.line), id);
    } else if e.Taken? && t.queue != [] && t.writing.None? {
      assert t.delivered + [] + t.queue == t.delivered + [t.queue[0]] + t.queue[1..];
    } else if e.Wrote? && t.writing.Some? {
      assert t.delivered + [t.writing.value] + t.queue == (t.delivered + [t.writing.value]) + [] + t.queue;
    } else if e.WriteFailed? && t.writing.Some? {
      assert t.delivered + [] + [] <= Total(t);
    }
  }

  lemma {:induction false} ThreadStep(s: State, e: Event, id: nat)
    requires WellFormed(s) && id < |s.threads| && !e.Sent?
    ensures var t, r := s.threads[id], Step(s, e).threads[id];
            && |r.queue| <= |t.queue| && (r.alive ==> t.alive)
            && (!r.alive && (!t.alive ==> t.writing.None? && t.queue == []) ==> r.writing.None? && r.queue == [])
  {
  }

  lemma {:induction false} ThreadStepFollows(s: State, e: Event, id: nat, lines: seq<string>)
    requires WellFormed(s) && id < |s.threads| && Follows(s, id, lines) && !e.Sent?
    ensures Follows(Step(s, e), id, lines)
  {
    TotalStep(s, e, id);
    ThreadStep(s, e, id);
    var t, r := s.threads[id], Step(s, e).threads[id];
    assert Total(r) <= Total(t) <= lines;
  }

  /** The thread that event `k` of the run creates. */
  ghost predicate JoinsAt(events: seq<Event>, k: nat, id: nat) {
    k < |events| && events[k] == Joined(true) && id == |After(events[..k]).threads|
  }

  /**
   * Whatever the interleaving, the subscriber that joined at event `k` holds a prefix of the lines sent since,
   * in order and without a gap. It holds all of them for as long as it stays registered and alive.
   */
  lemma {:induction false} SubscriberFollowsFeed(events: seq<Event>, k: nat, id: nat)
    requires JoinsAt(events, k, id)
    ensures id < |After(events).threads| && Follows(After(events), id, Wires(events[k..]))
  {
    var before, last := events[..|events| - 1], events[|events| - 1];
    if k == |events| - 1 {
      JustJoined(events, id);
    } else {
      assert before[..k] == events[..k];
      SubscriberFollowsFeed(before, k, id);
      WiresSince(events, k);
      if last.Sent? {
        SentFollows(After(before), last.line, id, Wires(before[k..]));
      } else {
        ThreadStepFollows(After(before), last, id, Wires(before[k..]));
      }
    }
  }

  lemma {:induction false} JustJoined(events: seq<Event>, id: nat)
    requires events != [] && JoinsAt(events, |events| - 1, id)
    ensures id < |After(events).threads| && Follows(After(events), id, Wires(events[|events| - 1..]))
  {
    var last := events[|events| - 1];
    assert events[|events| - 1..] == [last] && [last][..0] == [];
    assert Wires([last]) == [];
  }

  lemma {:induction false} WiresSince(events: seq<Event>, k: nat)
    requires k < |events| - 1
    ensures var last := events[|events| - 1];
            Wires(events[k..]) == Wires(events[..|events| - 1][k..]) + (if last.Sent? then [Wire(last.line)] else [])
  {
    assert events[k..][..|events[k..]| - 1] == events[..|events| - 1][k..];
  }

  lemma DeliveredFirst(s: State, id: nat, lines: seq<string>)
    requires id < |s.threads| && Follows(s, id, lines)
    ensures s.threads[id].delivered <= lines
  {
    var t := s.threads[id];
    assert t.delivered <= Total(t);
  }

  /** A subscriber receives a contiguous in-order prefix of the lines broadcast since it registered. */
  lemma {:induction false} DeliveredIsPrefix(events: seq<Event>, k: nat, id: nat)
    requires JoinsAt(events, k, id)
    ensures id < |After(events).threads|
    ensures After(events).threads[id].delivered <= Wires(events[k..])
    ensures Wires(events) == Wires(events[..k]) + Wires(events[k..])
  {
    SubscriberFollowsFeed(events, k, id);
    DeliveredFirst(After(events), id, Wires(events[k..]));
    assert events == events[..k] + events[k..];
    WiresSplit(events[..k], events[k..]);
  }

  /** The lines broadcast by a run. */
  function Lines(events: seq<Event>): seq<string> {
    if events == [] then []
    else
      var e := events[|events| - 1];
      Lines(events[..|events| - 1]) + (if e.Sent? then [e.line] else [])
  }

  /** What has gone out on a subscriber's connection. */
  function Received(wires: seq<string>): string {
    if wires == [] then "" else Received(wires[..|wires| - 1]) + wires[|wires| - 1]
  }

  lemma {:induction false} WiresAreLines(events: seq<Event>, n: nat)
    requires n <= |Wires(events)|
    ensures |Lines(events)| == |Wires(events)|
    ensures Received(Wires(events)[..n]) == JournalText.EndEach(Lines(events)[..n], [JournalText.LF])
    decreases |events|
  {
    if events != [] {
      var front, last := events[..|events| - 1], events[|events| - 1];
      var m := if n <= |Wires(front)| then n else |Wires(front)|;
      WiresAreLines(front, m);
      assert Wires(events)[..m] == Wires(front)[..m] && Lines(events)[..m] == Lines(front)[..m];
      if m < n {
        assert Wires(events)[..n][..m] == Wires(events)[..m] && Lines(events)[..n][..m] == Lines(events)[..m];
        assert Received(Wires(events)[..n]) == Received(Wires(events)[..m]) + (last.line + "\n");
        var text := Received(Wires(events)[..m]);
        assert text + (last.line + "\n") == text + last.line + "\n";
      }
    }
  }

  /**
   * A subscriber that reads its connection line by line reads the first lines broadcast since it registered, each
   * whole and once, provided no line holds a newline.
   */
  lemma {:induction false} SubscriberReadsLines(events: seq<Event>, k: nat, id: nat)
    requires JoinsAt(events, k, id)
    requires forall i :: 0 <= i < |Lines(events[k..])| ==> JournalText.LF !in Lines(events[k..])[i]
    ensures id < |After(events).threads|
    ensures var got := After(events).threads[id].delivered;
            && |got| <= |Lines(events[k..])|
            && JournalText.Ended(Received(got)) == Lines(events[k..])[..|got|]
            && JournalText.Unended(Received(got)) == ""
  {
    DeliveredIsPrefix(events, k, id);
    var got := After(events).threads[id].delivered;
    WiresAreLines(events[k..], |got|);
    assert Wires(events[k..])[..|got|] == got;
    JournalText.EndedReadBack(Lines(events[k..])[..|got|]);
  }

  /** A live subscriber leaves the registry at exactly one kind of event: a broadcast that finds its queue full. */
  lemma {:induction false} DroppedExactlyWhenFull(s: State, e: Event, id: nat)
    requires WellFormed(s) && id in s.registry && id < |s.threads| && s.threads[id].alive
    ensures id !in Step(s, e).registry <==> e.Sent? && |s.threads[id].queue| >= SUB_QUEUE_LEN
  {
    if e.Joined? && e.spawned {
      var i :| 0 <= i < |s.registry| && s.registry[i] == id;
      assert Step(s, e).registry[i] == id;
    }
  }

  /** Once dropped, a subscriber never gets another line. */
  lemma {:induction false} DroppedForGood(s: State, events: seq<Event>, id: nat)
    requires WellFormed(s) && id < |s.threads| && id !in s.registry
    decreases |events|
    ensures var r := AfterFrom(s, events);
            id < |r.threads| && id !in r.registry && Total(r.threads[id]) <= Total(s.threads[id])
  {
    if events != [] {
      var next := Step(s, events[0]);
      TotalStep(s, events[0], id);
      StaysOut(s, events[0], id);
      DroppedForGood(next, events[1..], id);
      assert Total(AfterFrom(s, events).threads[id]) <= Total(next.threads[id]) <= Total(s.threads[id]);
    }
  }

  lemma {:induction false} StaysOut(s: State, e: Event, id: nat)
    requires WellFormed(s) && id < |s.threads| && id !in s.registry
    ensures id !in Step(s, e).registry
  {
  }

  function AfterFrom(s: State, events: seq<Event>): (r: State)
    requires WellFormed(s)
    ensures WellFormed(r)
    decreases |events|
  {
    if events == [] then s else AfterFrom(Step(s, events[0]), events[1..])
  }

  /** Left to itself, a live thread writes out everything it was given: a drop truncates, it loses nothing queued. */
  lemma {:induction false} DrainDeliversAll(s: State, id: nat) returns (events: seq<Event>)
    requires WellFormed(s) && id < |s.threads| && s.threads[id].alive
    ensures forall i :: 0 <= i < |events| ==> events[i] in {Taken(id), Wrote(id)}
    ensures var r := AfterFrom(s, events);
            id < |r.threads| && r.threads[id].delivered == Total(s.threads[id])
    decreases 2 * |s.threads[id].queue| + (if s.threads[id].writing.Some? then 1 else 0)
  {
    var t := s.threads[id];
    if t.writing.None? && t.queue == [] {
      events := [];
      assert Total(t) == t.delivered;
    } else {
      var e := if t.writing.Some? then Wrote(id) else Taken(id);
      var next := Step(s, e);
      if t.writing.None? {
        assert t.delivered + [] + t.queue == t.delivered + [t.queue[0]] + t.queue[1..];
      } else {
        assert t.delivered + [t.writing.value] + t.queue == (t.delivered + [t.writing.value]) + [] + t.queue;
      }
      var rest := DrainDeliversAll(next, id);
      events := [e] + rest;
      assert events[1..] == rest;
    }
  }

  // ---- The count ----

  ghost predicate Balanced(s: State) {
    s.count + s.uncounted == |s.registry|
  }

  lemma {:induction false} ReachableBalances(events: seq<Event>)
    ensures Balanced(After(events))
  {
    if events != [] {
      ReachableBalances(events[..|events| - 1]);
    }
  }

  lemma {:induction false} WordTells(s: State)
    requires Balanced(s)
    ensures Word(s.count) == Word(|s.registry|) <==> Word(s.uncounted) == 0
  {
    WordAdds(s.count, s.uncounted);
  }

  /** In every run the counter tells the number registered exactly when no caller is still to count its own. */
  lemma {:induction false} CountTellsExactly(events: seq<Event>)
    ensures var s := After(events);
            Word(s.count) == Word(|s.registry|) <==> Word(s.uncounted) == 0
  {
    ReachableBalances(events);
    WordTells(After(events));
  }

  /** The only subscriber, registered and not yet counted. */
  function OneNew(t: Thread): (s: State)
    ensures WellFormed(s)
  {
    State([0], [t], 0, 1)
  }

  lemma {:induction false} SentToOne(t: Thread, line: string)
    ensures Broadcast(OneNew(t), line)
            == if Accepts(t) then OneNew(Offer(t, Wire(line))) else State([], [t], -1, 1)
  {
    assert [0][..0] == [];
    assert [t][0 := Offer(t, Wire(line))] == [Offer(t, Wire(line))];
    assert Offered([t], [], Wire(line)) == [t] && Kept([t], []) == [];
    assert Offered([t], [0], Wire(line)) == [Offer(t, Wire(line))];
  }

  /** The only subscriber takes its next line, and then finds its peer gone. */
  lemma {:induction false} FailsAtOne(wire: string)
    ensures Step(OneNew(Thread(true, [wire], None, [])), Taken(0)) == OneNew(Thread(true, [], Some(wire), []))
    ensures Step(OneNew(Thread(true, [], Some(wire), [])), WriteFailed(0)) == OneNew(Thread(false, [], None, []))
  {
    var t, u, v := Thread(true, [wire], None, []), Thread(true, [], Some(wire), []), Thread(false, [], None, []);
    assert [wire][1..] == [];
    assert [t][0 := u] == [u] && [u][0 := v] == [v];
  }

  lemma AfterSnoc(events: seq<Event>, e: Event)
    ensures After(events + [e]) == Step(After(events), e)
  {
    assert (events + [e])[..|events|] == events;
  }

  /** A subscriber dropped before it is counted takes the counter below zero, to the largest word. */
  lemma {:induction false} CountMayWrap(first: string, second: string) returns (events: seq<Event>)
    ensures events == [Joined(true), Sent(first), Taken(0), WriteFailed(0), Sent(second)]
    ensures After(events).registry == [] && Word(After(events).count) == WORD - 1
  {
    var wire := Wire(first);
    AfterSnoc([], Joined(true));
    events := [Joined(true)];
    assert [] + events == events;
    assert After(events) == OneNew(Thread(true, [], None, []));
    AfterSnoc(events, Sent(first));
    SentToOne(Thread(true, [], None, []), first);
    assert [] + [wire] == [wire];
    events := events + [Sent(first)];
    assert After(events) == OneNew(Thread(true, [wire], None, []));
    FailsAtOne(wire);
    AfterSnoc(events, Taken(0));
    events := events + [Taken(0)];
    assert After(events) == OneNew(Thread(true, [], Some(wire), []));
    AfterSnoc(events, WriteFailed(0));
    events := events + [WriteFailed(0)];
    assert After(events) == OneNew(Thread(false, [], None, []));
    AfterSnoc(events, Sent(second));
    SentToOne(Thread(false, [], None, []), second);
    events := events + [Sent(second)];
  }
}

/**
 * The replay cache when clock readings reach it out of order: calls read the clock before they take the cache's
 * lock, so a reading may be older than one already used. The queue is then no longer sorted by expiry. What stays
 * true is that a reservation is dropped only by a reading at or past its expiry.
 */
module ReplayStale {
  import opened ReplayCache
  import opened ReplayRuns

  /**
   * The map is the queue's index, and from the latest reading on the journal's unexpired entries are the queue's
   * and then at most one ghost, present only while the file is over its cap.
   */
  ghost predicate Kept(cfg: Config, s: State, latest: int, ghosts: seq<Entry>) {
    && s.seen == IndexOf(s.order) && Distinct(s.order + ghosts) && |ghosts| <= 1
    && (ghosts != [] ==> Bytes(cfg.width, s.disk) > cfg.cap)
    && (cfg.persisted ==>
          Loadable(s.disk) && Alive(Entries(s.disk), latest) == Alive(s.order + ghosts, latest))
  }

  // ---- The purge ----

  lemma {:induction false} IndexAt(es: seq<Entry>, i: nat)
    requires Distinct(es) && i < |es|
    ensures es[i].Key() in IndexOf(es) && IndexOf(es)[es[i].Key()] == es[i].expires
    decreases |es|
  {
    var front := es[..|es| - 1];
    if i < |es| - 1 {
      assert Distinct(front);
      IndexAt(front, i);
    }
  }

  /** The purge drops a front part of the queue, expired entries only, and their keys. */
  lemma {:induction false} PurgeDrops(s: State, now: int, latest: int)
    requires s.seen == IndexOf(s.order) && Distinct(s.order) && now <= latest
    ensures var p := Purged(s, now);
            && p.seen == IndexOf(p.order) && p.disk == s.disk
            && |p.order| <= |s.order| && p.order == s.order[|s.order| - |p.order|..]
            && Alive(p.order, latest) == Alive(s.order, latest)
    decreases |s.order|
  {
    if s.order != [] && s.order[0].expires <= now {
      IndexDropFirst(s.order);
      var rest := s.(seen := s.seen - {s.order[0].Key()}, order := s.order[1..]);
      assert Distinct(rest.order);
      PurgeDrops(rest, now, latest);
      assert Alive(s.order, latest) == Alive(rest.order, latest);
    }
  }

  lemma {:induction false} PurgeSpares(s: State, now: int, key: Key)
    requires s.seen == IndexOf(s.order) && Distinct(s.order) && key in s.seen && now < s.seen[key]
    ensures key in Purged(s, now).seen && Purged(s, now).seen[key] == s.seen[key]
    decreases |s.order|
  {
    if s.order != [] && s.order[0].expires <= now {
      IndexDropFirst(s.order);
      IndexAt(s.order, 0);
      var rest := s.(seen := s.seen - {s.order[0].Key()}, order := s.order[1..]);
      assert Distinct(rest.order);
      PurgeSpares(rest, now, key);
    }
  }

  lemma {:induction false} DistinctTail(es: seq<Entry>, ghosts: seq<Entry>, n: nat)
    requires Distinct(es + ghosts) && n <= |es|
    ensures Distinct(es[n..] + ghosts) && Distinct(es)
  {
    var all, tail := es + ghosts, es[n..] + ghosts;
    assert forall i :: 0 <= i < |tail| ==> tail[i] == all[n + i];
    assert forall i :: 0 <= i < |es| ==> es[i] == all[i];
  }

  lemma {:induction false} LaterKept(cfg: Config, s: State, latest: int, ghosts: seq<Entry>, t: int)
    requires Kept(cfg, s, latest, ghosts) && latest <= t
    ensures Kept(cfg, s, t, ghosts)
  {
    AliveLater(Entries(s.disk), latest, t);
    AliveLater(s.order + ghosts, latest, t);
  }

  lemma {:induction false} PurgeKeeps(cfg: Config, s: State, latest: int, ghosts: seq<Entry>, now: int)
    requires Kept(cfg, s, latest, ghosts) && now <= latest
    ensures Kept(cfg, Purged(s, now), latest, ghosts)
  {
    DistinctTail(s.order, ghosts, 0);
    PurgeDrops(s, now, latest);
    var p := Purged(s, now);
    DistinctTail(s.order, ghosts, |s.order| - |p.order|);
    AliveConcat(s.order, ghosts, latest);
    AliveConcat(p.order, ghosts, latest);
  }

  // ---- Reserving ----

  lemma {:induction false} DistinctSnoc(es: seq<Entry>, e: Entry)
    requires Distinct(es) && e.Key() !in IndexOf(es)
    ensures Distinct(es + [e])
  {
    IndexKeys(es);
    assert forall i :: 0 <= i < |es| ==> es[i] in es;
  }

  lemma {:induction false} AcceptKeepsDisk(cfg: Config, p: State, latest: int, ghosts: seq<Entry>, e: Entry, q: State)
    requires cfg.persisted && Kept(cfg, p, latest, ghosts) && q.order == p.order + [e]
    requires q.disk == Lines(q.order) || (ghosts == [] && q.disk == p.disk + [Reserved(e)])
    ensures Loadable(q.disk) && Alive(Entries(q.disk), latest) == Alive(q.order, latest)
  {
    if q.disk == Lines(q.order) {
      EntriesOfLines(q.order);
    } else {
      assert p.order + ghosts == p.order;
      AcceptedLineLoads(p.disk, p.order, e, latest);
    }
  }

  lemma {:induction false} AcceptKeeps(cfg: Config, p: State, latest: int, ghosts: seq<Entry>, e: Entry, q: State)
    requires cfg.persisted && Kept(cfg, p, latest, ghosts) && e.Key() !in p.seen
    requires q.seen == p.seen[e.Key() := e.expires] && q.order == p.order + [e]
    requires q.disk == Lines(q.order) || (ghosts == [] && q.disk == p.disk + [Reserved(e)])
    ensures Kept(cfg, q, latest, [])
  {
    DistinctTail(p.order, ghosts, 0);
    DistinctSnoc(p.order, e);
    IndexSnoc(p.order, e);
    assert q.order + [] == q.order;
    AcceptKeepsDisk(cfg, p, latest, ghosts, e, q);
  }

  lemma {:induction false} RefuseKeeps(cfg: Config, p: State, latest: int, ghosts: seq<Entry>, e: Entry, q: State)
    requires cfg.persisted && Kept(cfg, p, latest, ghosts) && e.Key() !in p.seen
    requires q.seen == p.seen && q.order == p.order && q.disk == Lines(p.order + [e])
    requires Bytes(cfg.width, q.disk) > cfg.cap
    ensures Kept(cfg, q, latest, [e])
  {
    DistinctTail(p.order, ghosts, 0);
    DistinctSnoc(p.order, e);
    EntriesOfLines(p.order + [e]);
  }

  /** Whatever the order of readings, a reservation keeps map, queue and journal together. */
  lemma {:induction false} ReserveKeeps(
    cfg: Config, s: State, latest: int, ghosts: seq<Entry>, agent: string, nonce: string, now: int, retention: int)
    returns (after: seq<Entry>)
    requires cfg.persisted && Kept(cfg, s, latest, ghosts) && now <= latest
    ensures Kept(cfg, Reserve(cfg, s, agent, nonce, now, retention).0, latest, after)
  {
    var p := Purged(s, now);
    PurgeKeeps(cfg, s, latest, ghosts, now);
    ReserveCases(cfg, s, agent, nonce, now, retention);
    var e := Entry(agent, nonce, SaturatingAdd(now, retention));
    var (q, r) := Reserve(cfg, s, agent, nonce, now, retention);
    match r
    case Duplicate => after := ghosts;
    case Fresh =>
      after := [];
      AcceptKeeps(cfg, p, latest, ghosts, e, q);
    case CapacityFull =>
      after := [e];
      RefuseKeeps(cfg, p, latest, ghosts, e, q);
  }

  /** A reservation in force is kept by any attempt whose reading is before its expiry, and answered Duplicate. */
  lemma {:induction false} ReserveKeepsKey(
    cfg: Config, s: State, latest: int, ghosts: seq<Entry>, agent: string, nonce: string, now: int, retention: int,
    key: Key)
    requires Kept(cfg, s, latest, ghosts) && key in s.seen && now < s.seen[key]
    ensures var (q, r) := Reserve(cfg, s, agent, nonce, now, retention);
            && key in q.seen && q.seen[key] == s.seen[key]
            && ((agent, nonce) == key ==> r == Duplicate)
  {
    DistinctTail(s.order, ghosts, 0);
    PurgeSpares(s, now, key);
    ReserveCases(cfg, s, agent, nonce, now, retention);
  }

  // ---- Keys over readings in order ----

  /** Every key held at `t` in the first cache is held at `t` in the second. */
  predicate KeysKept(a: State, b: State, t: int) {
    Purged(a, t).seen.Keys <= Purged(b, t).seen.Keys
  }

  lemma {:induction false} PurgedAgain(s: State, r: int, t: int)
    requires r <= t
    ensures Purged(Purged(s, r), t) == Purged(s, t)
    decreases |s.order|
  {
    if s.order != [] && s.order[0].expires <= r {
      PurgedAgain(s.(seen := s.seen - {s.order[0].Key()}, order := s.order[1..]), r, t);
    }
  }

  lemma {:induction false} OneMoreKey(a: State, b: State, e: Entry, t: int)
    requires b.order == a.order + [e] && a.seen.Keys <= b.seen.Keys && e.Key() !in a.seen
    ensures KeysKept(a, b, t)
    decreases |a.order|
  {
    if a.order == [] {
      assert b.order[1..] == [];
    } else if a.order[0].expires <= t {
      var k0 := a.order[0].Key();
      assert b.order[1..] == a.order[1..] + [e];
      var a1, b1 := a.(seen := a.seen - {k0}, order := a.order[1..]), b.(seen := b.seen - {k0}, order := b.order[1..]);
      OneMoreKey(a1, b1, e, t);
    }
  }

  /** Files aside, equal caches purge alike. */
  lemma {:induction false} SamePurge(a: State, b: State, t: int)
    requires a.order == b.order && a.seen == b.seen
    ensures Purged(a, t).seen == Purged(b, t).seen
    decreases |a.order|
  {
    if a.order != [] && a.order[0].expires <= t {
      var k0 := a.order[0].Key();
      SamePurge(a.(seen := a.seen - {k0}, order := a.order[1..]), b.(seen := b.seen - {k0}, order := b.order[1..]), t);
    }
  }

  /** A reservation takes nothing away that a later reading would find. */
  lemma {:induction false} ReserveKeepsKeys(
    cfg: Config, s: State, agent: string, nonce: string, now: int, retention: int, t: int)
    requires now <= t
    ensures KeysKept(s, Reserve(cfg, s, agent, nonce, now, retention).0, t)
  {
    var p, q := Purged(s, now), Reserve(cfg, s, agent, nonce, now, retention).0;
    PurgedAgain(s, now, t);
    ReserveCases(cfg, s, agent, nonce, now, retention);
    if q.order == p.order && q.seen == p.seen {
      SamePurge(p, q, t);
    } else {
      OneMoreKey(p, q, Entry(agent, nonce, SaturatingAdd(now, retention)), t);
    }
  }

  // ---- Restarting ----

  lemma {:induction false} RestartKeeps(cfg: Config, s: State, latest: int, ghosts: seq<Entry>, cap: nat, now: int)
    requires cfg.persisted && Kept(cfg, s, latest, ghosts) && latest <= now
    ensures Loaded(s.disk, now).seen == IndexOf(Alive(s.order + ghosts, now))
    ensures Kept(cfg.(cap := cap), Loaded(s.disk, now), now, [])
  {
    LaterKept(cfg, s, latest, ghosts, now);
    var es := Alive(s.order + ghosts, now);
    AliveDistinct(s.order + ghosts, now);
    AliveLater(s.order + ghosts, now, now);
    LoadedIs(s.disk, now);
    assert es + [] == es;
  }

  lemma {:induction false} RestartKeepsKey(cfg: Config, s: State, latest: int, ghosts: seq<Entry>, now: int, key: Key)
    requires cfg.persisted && Kept(cfg, s, latest, ghosts) && latest <= now && key in s.seen && now < s.seen[key]
    ensures key in Loaded(s.disk, now).seen && Loaded(s.disk, now).seen[key] == s.seen[key]
  {
    RestartKeeps(cfg, s, latest, ghosts, cfg.cap, now);
    IndexAlive(s.order + ghosts, now);
    if ghosts == [] {
      assert s.order + ghosts == s.order;
    } else {
      assert ghosts == [ghosts[0]];
      assert (s.order + ghosts)[..|s.order|] == s.order;
      LastIsNew(s.order + ghosts);
      IndexSnoc(s.order, ghosts[0]);
    }
  }

  // ---- Steps ----

  ghost predicate Sound(w: World, latest: int) {
    w.cfg.persisted && exists ghosts :: Kept(w.cfg, w.s, latest, ghosts)
  }

  /** A restart reads the clock after every call before it; an attempt may read an older time. */
  lemma {:induction false} StepIsSound(retention: int, w: World, latest: int, ev: Event, t: int)
    requires Sound(w, latest) && latest <= t && ev.now <= t && (ev.Restart? ==> latest <= ev.now)
    ensures Sound(Step(retention, w, ev), t)
  {
    var ghosts :| Kept(w.cfg, w.s, latest, ghosts);
    match ev
    case Attempt(agent, nonce, now) =>
      LaterKept(w.cfg, w.s, latest, ghosts, t);
      var after := ReserveKeeps(w.cfg, w.s, t, ghosts, agent, nonce, now, retention);
    case Restart(cap, now) =>
      RestartKeeps(w.cfg, w.s, latest, ghosts, cap, now);
      LaterKept(w.cfg.(cap := cap), Loaded(w.s.disk, now), now, [], t);
  }

  lemma {:induction false} StepKeepsKey(retention: int, w: World, latest: int, ev: Event, key: Key)
    requires Sound(w, latest) && (ev.Restart? ==> latest <= ev.now)
    requires key in w.s.seen && ev.now < w.s.seen[key]
    ensures key in Step(retention, w, ev).s.seen && Step(retention, w, ev).s.seen[key] == w.s.seen[key]
    ensures ev.Attempt? && (ev.agent, ev.nonce) == key ==>
              Reserve(w.cfg, w.s, ev.agent, ev.nonce, ev.now, retention).1 == Duplicate
  {
    var ghosts :| Kept(w.cfg, w.s, latest, ghosts);
    match ev
    case Attempt(agent, nonce, now) =>
      ReserveKeepsKey(w.cfg, w.s, latest, ghosts, agent, nonce, now, retention, key);
    case Restart(cap, now) =>
      RestartKeepsKey(w.cfg, w.s, latest, ghosts, now, key);
  }

  /** Restarts are in time order with everything before and after them. */
  ghost predicate Orderly(evs: seq<Event>) {
    forall i, j :: 0 <= i < j < |evs| && (evs[i].Restart? || evs[j].Restart?) ==> evs[i].now <= evs[j].now
  }

  /** In every run whose restarts are in time order, however the attempts' readings are ordered. */
  lemma {:induction false} ReachableIsSound(retention: int, cfg: Config, evs: seq<Event>, t: int)
    requires cfg.persisted && Orderly(evs) && forall i :: 0 <= i < |evs| ==> evs[i].now <= t
    ensures Sound(After(retention, cfg, evs), t)
    decreases |evs|
  {
    if evs == [] {
      assert Kept(cfg, EMPTY, t, []);
    } else {
      var front, last := evs[..|evs| - 1], evs[|evs| - 1];
      var latest := if last.Restart? then last.now else t;
      ReachableIsSound(retention, cfg, front, latest);
      StepIsSound(retention, After(retention, cfg, front), latest, last, t);
    }
  }

  /** A nonce answered Fresh is answered Duplicate for as long as no reading since has reached its expiry. */
  lemma {:induction false} HeldWhileUnread(
    retention: int, cfg: Config, evs: seq<Event>, i: nat, j: nat, t: int, key: Key, expiry: int)
    requires cfg.persisted && Orderly(evs) && i <= j <= |evs| && forall k :: 0 <= k < |evs| ==> evs[k].now <= t
    requires HeldAt(retention, cfg, evs, i, key, expiry) && forall k :: i <= k < j ==> evs[k].now < expiry
    ensures HeldAt(retention, cfg, evs, j, key, expiry)
    decreases j - i
  {
    if i < j {
      EventKeepsKey(retention, cfg, evs, i, t, key, expiry);
      HeldWhileUnread(retention, cfg, evs, i + 1, j, t, key, expiry);
    }
  }

  lemma {:induction false} EventKeepsKey(
    retention: int, cfg: Config, evs: seq<Event>, k: nat, t: int, key: Key, expiry: int)
    requires cfg.persisted && Orderly(evs) && k < |evs| && forall i :: 0 <= i < |evs| ==> evs[i].now <= t
    requires HeldAt(retention, cfg, evs, k, key, expiry) && evs[k].now < expiry
    ensures HeldAt(retention, cfg, evs, k + 1, key, expiry)
  {
    var w, latest := After(retention, cfg, evs[..k]), if evs[k].Restart? then evs[k].now else t;
    SoundBefore(retention, cfg, evs, k, t);
    StepKeepsKey(retention, w, latest, evs[k], key);
    OneStepOn(retention, cfg, evs, k);
  }

  lemma {:induction false} SoundBefore(retention: int, cfg: Config, evs: seq<Event>, k: nat, t: int)
    requires cfg.persisted && Orderly(evs) && k < |evs| && forall i :: 0 <= i < |evs| ==> evs[i].now <= t
    ensures Sound(After(retention, cfg, evs[..k]), if evs[k].Restart? then evs[k].now else t)
  {
    assert forall i :: 0 <= i < k ==> evs[..k][i] == evs[i];
    ReachableIsSound(retention, cfg, evs[..k], if evs[k].Restart? then evs[k].now else t);
  }

  lemma {:induction false} OneStepOn(retention: int, cfg: Config, evs: seq<Event>, k: nat)
    requires k < |evs|
    ensures After(retention, cfg, evs[..k + 1]) == Step(retention, After(retention, cfg, evs[..k]), evs[k])
  {
    assert evs[..k + 1][..k] == evs[..k];
  }
}

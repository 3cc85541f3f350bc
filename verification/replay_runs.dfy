/** What the replay cache guarantees over whole runs of reservations and restarts. */
module ReplayRuns {
  import opened ReplayCache

  // ---- The abstract expiring set ----

  function Unexpired(m: map<Key, int>, now: int): map<Key, int> {
    map k | k in m && m[k] > now :: m[k]
  }

  /** One reservation against a set of reservations that expire. */
  ghost predicate AbstractReserve(
    a: map<Key, int>, key: Key, now: int, expires: int, r: Reservation, b: map<Key, int>)
  {
    var live := Unexpired(a, now);
    match r
    case Duplicate => key in live && b == live
    case Fresh => key !in live && b == live[key := expires]
    case CapacityFull => key !in live && b == live
  }

  /** A restart keeps every unexpired reservation and may add one: a nonce refused for capacity. */
  ghost predicate AbstractRestart(a: map<Key, int>, now: int, b: map<Key, int>) {
    var live := Unexpired(a, now);
    || b == live
    || exists e: Entry {:trigger e.Key()} ::
         e.Key() !in live && e.expires > now && b == live[e.Key() := e.expires]
  }

  // ---- Single operations keep the invariant and refine the abstract set ----

  lemma UnexpiredUpdate(m: map<Key, int>, k: Key, v: int, now: int)
    requires k !in m
    ensures Unexpired(m[k := v], now) == if v > now then Unexpired(m, now)[k := v] else Unexpired(m, now)
  {
  }

  /** Expiring entries and indexing them commute when keys are distinct. */
  lemma {:induction false} IndexAlive(es: seq<Entry>, now: int)
    requires Distinct(es)
    ensures IndexOf(Alive(es, now)) == Unexpired(IndexOf(es), now)
    decreases |es|
  {
    if es != [] {
      var front, last := es[..|es| - 1], es[|es| - 1];
      assert es == front + [last];
      IndexAlive(front, now);
      LastIsNew(es);
      UnexpiredUpdate(IndexOf(front), last.Key(), last.expires, now);
      AliveSnoc(front, last, now);
      IndexSnoc(Alive(front, now), last);
    }
  }

  lemma {:induction false} AliveSnoc(es: seq<Entry>, e: Entry, now: int)
    ensures Alive(es + [e], now) == if e.expires > now then Alive(es, now) + [e] else Alive(es, now)
  {
    AliveConcat(es, [e], now);
  }

  lemma {:induction false} LastIsNew(es: seq<Entry>)
    requires es != [] && Distinct(es)
    ensures es[|es| - 1].Key() !in IndexOf(es[..|es| - 1])
  {
    IndexKeys(es[..|es| - 1]);
  }

  lemma {:induction false} PurgedIsAlive(s: State, now: int)
    requires s.seen == IndexOf(s.order) && Sorted(s.order) && Distinct(s.order)
    ensures Purged(s, now) == s.(seen := IndexOf(Alive(s.order, now)), order := Alive(s.order, now))
    decreases |s.order|
  {
    if s.order != [] {
      if s.order[0].expires > now {
        AliveWhenAllAre(s.order, now);
      } else {
        IndexDropFirst(s.order);
        var s1 := s.(seen := s.seen - {s.order[0].Key()}, order := s.order[1..]);
        PurgedIsAlive(s1, now);
        assert Alive(s.order, now) == Alive(s1.order, now);
      }
    }
  }

  lemma LaterHorizon(t: int, now: int, retention: int)
    requires t <= now
    ensures SaturatingAdd(t, retention) <= SaturatingAdd(now, retention)
  {
  }

  /** The purge at the start of an operation keeps the invariant. */
  lemma PurgeKeepsInv(cfg: Config, retention: int, s: State, t: int, ghosts: seq<Entry>, now: int)
    requires Inv(cfg, retention, s, t, ghosts) && t <= now
    ensures Purged(s, now) == s.(seen := IndexOf(Alive(s.order, now)), order := Alive(s.order, now))
    ensures Purged(s, now).seen == Unexpired(s.seen, now)
    ensures Inv(cfg, retention, Purged(s, now), now, Alive(ghosts, now))
  {
    ShapeFront(s.order, ghosts, SaturatingAdd(t, retention));
    PurgedIsAlive(s, now);
    IndexAlive(s.order, now);
    AliveConcat(s.order, ghosts, now);
    AliveIsShorter(ghosts, now);
    ShapeAlive(s.order + ghosts, SaturatingAdd(t, retention), now);
    LaterHorizon(t, now, retention);
    AliveLater(Entries(s.disk), t, now);
    AliveLater(s.order + ghosts, t, now);
    AliveLater(s.order + ghosts, now, now);
  }

  /** Accepting a nonce puts it at the back of the queue and of the journal. */
  lemma AcceptKeepsInv(cfg: Config, retention: int, p: State, now: int, ghosts: seq<Entry>, e: Entry, q: State)
    requires Inv(cfg, retention, p, now, ghosts) && e.Key() !in p.seen
    requires e.expires == SaturatingAdd(now, retention)
    requires q.seen == p.seen[e.Key() := e.expires] && q.order == p.order + [e]
    requires cfg.persisted ==> q.disk == Lines(q.order) || (ghosts == [] && q.disk == p.disk + [Reserved(e)])
    ensures Inv(cfg, retention, q, now, [])
  {
    ShapeFront(p.order, ghosts, e.expires);
    ShapeSnoc(p.order, e.expires, e);
    IndexSnoc(p.order, e);
    assert q.order + [] == q.order;
    if cfg.persisted { AcceptKeepsDisk(cfg, retention, p, now, ghosts, e, q); }
  }

  lemma {:induction false} AcceptKeepsDisk(
    cfg: Config, retention: int, p: State, now: int, ghosts: seq<Entry>, e: Entry, q: State)
    requires cfg.persisted && Inv(cfg, retention, p, now, ghosts) && q.order == p.order + [e]
    requires q.disk == Lines(q.order) || (ghosts == [] && q.disk == p.disk + [Reserved(e)])
    ensures Loadable(q.disk) && Alive(Entries(q.disk), now) == Alive(q.order, now)
  {
    if q.disk == Lines(q.order) {
      EntriesOfLines(q.order);
    } else {
      assert p.order + ghosts == p.order;
      AcceptedLineLoads(p.disk, p.order, e, now);
    }
  }

  lemma {:induction false} AcceptedLineLoads(disk: seq<DiskLine>, order: seq<Entry>, e: Entry, now: int)
    ensures Alive(Entries(disk + [Reserved(e)]), now) == Alive(Entries(disk), now) + Alive([e], now)
    ensures Alive(order + [e], now) == Alive(order, now) + Alive([e], now)
  {
    EntriesSnoc(disk, Reserved(e));
    AliveConcat(Entries(disk), [e], now);
    AliveConcat(order, [e], now);
  }

  /** Refusing a nonce after compaction leaves it on disk alone: the ghost. */
  lemma RefuseKeepsInv(cfg: Config, retention: int, p: State, now: int, ghosts: seq<Entry>, e: Entry, q: State)
    requires Inv(cfg, retention, p, now, ghosts) && e.Key() !in p.seen
    requires e.expires == SaturatingAdd(now, retention)
    requires q.seen == p.seen && q.order == p.order && q.disk == Lines(p.order + [e])
    requires Bytes(cfg.width, q.disk) > cfg.cap
    ensures Inv(cfg, retention, q, now, [e])
  {
    ShapeFront(p.order, ghosts, e.expires);
    ShapeSnoc(p.order, e.expires, e);
    EntriesOfLines(p.order + [e]);
  }

  /** How a reservation comes out, case by case, from the purged state. */
  lemma ReserveCases(cfg: Config, s: State, agent: string, nonce: string, now: int, retention: int)
    ensures var p := Purged(s, now);
            var e := Entry(agent, nonce, SaturatingAdd(now, retention));
            var (q, r) := Reserve(cfg, s, agent, nonce, now, retention);
            && (r == Duplicate <==> e.Key() in p.seen)
            && (r == Duplicate ==> q == p)
            && (r == Fresh ==>
                  && q.seen == p.seen[e.Key() := e.expires] && q.order == p.order + [e]
                  && (cfg.persisted ==>
                        || (q.disk == Lines(q.order) && Bytes(cfg.width, q.disk) <= cfg.cap)
                        || (q.disk == p.disk + [Reserved(e)] && Bytes(cfg.width, p.disk) <= cfg.cap)))
            && (r == CapacityFull ==>
                  && cfg.persisted && q.seen == p.seen && q.order == p.order
                  && q.disk == Lines(p.order + [e]) && Bytes(cfg.width, q.disk) > cfg.cap)
  {
    var p := Purged(s, now);
    var e := Entry(agent, nonce, SaturatingAdd(now, retention));
    if e.Key() !in p.seen { RollbackUndoes(p, e); }
  }

  lemma RollbackUndoes(p: State, e: Entry)
    requires e.Key() !in p.seen
    ensures p.seen[e.Key() := e.expires] - {e.Key()} == p.seen
    ensures (p.order + [e])[..|p.order + [e]| - 1] == p.order
  {
  }

  /** Reserving is one step of the abstract set and keeps the invariant. */
  lemma ReserveRefines(cfg: Config, retention: int, s: State, t: int, ghosts: seq<Entry>,
                       agent: string, nonce: string, now: int) returns (after: seq<Entry>)
    requires Inv(cfg, retention, s, t, ghosts) && t <= now
    ensures var (q, r) := Reserve(cfg, s, agent, nonce, now, retention);
            && AbstractReserve(s.seen, (agent, nonce), now, SaturatingAdd(now, retention), r, q.seen)
            && Inv(cfg, retention, q, now, after)
            && (r == CapacityFull ==> after == [Entry(agent, nonce, SaturatingAdd(now, retention))])
  {
    var p := Purged(s, now);
    PurgeKeepsInv(cfg, retention, s, t, ghosts, now);
    ReserveCases(cfg, s, agent, nonce, now, retention);
    var e := Entry(agent, nonce, SaturatingAdd(now, retention));
    var (q, r) := Reserve(cfg, s, agent, nonce, now, retention);
    match r
    case Duplicate =>
      after := Alive(ghosts, now);
    case Fresh =>
      after := [];
      AcceptKeepsInv(cfg, retention, p, now, Alive(ghosts, now), e, q);
    case CapacityFull =>
      after := [e];
      RefuseKeepsInv(cfg, retention, p, now, Alive(ghosts, now), e, q);
  }

  /** Reopening the journal keeps the invariant; nothing unexpired is forgotten. */
  lemma RestartRefines(cfg: Config, retention: int, s: State, t: int, ghosts: seq<Entry>, cap: nat, now: int)
    requires cfg.persisted && Inv(cfg, retention, s, t, ghosts) && t <= now
    ensures Loaded(s.disk, now).order == Alive(s.order, now) + Alive(ghosts, now)
    ensures Inv(cfg.(cap := cap), retention, Loaded(s.disk, now), now, [])
    ensures AbstractRestart(s.seen, now, Loaded(s.disk, now).seen)
  {
    PurgeKeepsInv(cfg, retention, s, t, ghosts, now);
    var p, g := Purged(s, now), Alive(ghosts, now);
    LoadedIs(s.disk, now);
    AliveConcat(p.order, g, now);
    AliveLater(s.order, now, now);
    AliveLater(ghosts, now, now);
    var all := p.order + g;
    assert all + [] == all;
    AliveMembers(ghosts, now);
    GhostJoins(p.order, g, now);
  }

  lemma {:induction false} GhostJoins(kept: seq<Entry>, g: seq<Entry>, now: int)
    requires Distinct(kept + g) && |g| <= 1 && forall e :: e in g ==> e.expires > now
    ensures || IndexOf(kept + g) == IndexOf(kept)
            || exists e: Entry {:trigger e.Key()} ::
                 e.Key() !in IndexOf(kept) && e.expires > now
                 && IndexOf(kept + g) == IndexOf(kept)[e.Key() := e.expires]
  {
    if g == [] {
      assert kept + g == kept;
    } else {
      var e := g[0];
      assert g == [e] && e in g;
      LastIsNew(kept + g);
      assert (kept + g)[..|kept|] == kept;
      IndexSnoc(kept, e);
      assert e.Key() !in IndexOf(kept);
    }
  }

  // ---- Runs ----

  datatype World = World(cfg: Config, s: State)

  datatype Event =
    | Attempt(agent: string, nonce: string, now: int)
    | Restart(cap: nat, now: int)

  function Step(retention: int, w: World, ev: Event): World {
    match ev
    case Attempt(agent, nonce, now) => w.(s := Reserve(w.cfg, w.s, agent, nonce, now, retention).0)
    case Restart(cap, now) => World(w.cfg.(cap := cap), Loaded(w.s.disk, now))
  }

  /** The world after a run that starts with no journal. */
  function After(retention: int, cfg: Config, evs: seq<Event>): World {
    if evs == [] then World(cfg, EMPTY)
    else Step(retention, After(retention, cfg, evs[..|evs| - 1]), evs[|evs| - 1])
  }

  /** The answer to the attempt at index `i` of a run. */
  function Answer(retention: int, cfg: Config, evs: seq<Event>, i: nat): Reservation
    requires i < |evs| && evs[i].Attempt?
  {
    var w := After(retention, cfg, evs[..i]);
    Reserve(w.cfg, w.s, evs[i].agent, evs[i].nonce, evs[i].now, retention).1
  }

  ghost predicate Timely(evs: seq<Event>) {
    forall i, j :: 0 <= i < j < |evs| ==> evs[i].now <= evs[j].now
  }

  ghost predicate Good(retention: int, w: World, t: int) {
    w.cfg.persisted && exists ghosts :: Inv(w.cfg, retention, w.s, t, ghosts)
  }

  lemma StepIsGood(retention: int, w: World, t: int, ev: Event)
    requires Good(retention, w, t) && t <= ev.now
    ensures Good(retention, Step(retention, w, ev), ev.now)
  {
    var ghosts :| Inv(w.cfg, retention, w.s, t, ghosts);
    match ev
    case Attempt(agent, nonce, now) =>
      var after := ReserveRefines(w.cfg, retention, w.s, t, ghosts, agent, nonce, now);
    case Restart(cap, now) =>
      RestartRefines(w.cfg, retention, w.s, t, ghosts, cap, now);
  }

  /** One step never loses a reservation that is still in force. */
  lemma StepKeepsKey(retention: int, w: World, t: int, ev: Event, key: Key)
    requires Good(retention, w, t) && t <= ev.now
    requires key in w.s.seen && ev.now < w.s.seen[key]
    ensures key in Step(retention, w, ev).s.seen && Step(retention, w, ev).s.seen[key] == w.s.seen[key]
    ensures ev.Attempt? && (ev.agent, ev.nonce) == key ==>
              Reserve(w.cfg, w.s, ev.agent, ev.nonce, ev.now, retention).1 == Duplicate
  {
    var ghosts :| Inv(w.cfg, retention, w.s, t, ghosts);
    assert key in Unexpired(w.s.seen, ev.now);
    match ev
    case Attempt(agent, nonce, now) =>
      var after := ReserveRefines(w.cfg, retention, w.s, t, ghosts, agent, nonce, now);
    case Restart(cap, now) =>
      RestartRefines(w.cfg, retention, w.s, t, ghosts, cap, now);
  }

  /** Every reachable cache is consistent: map, queue and journal agree. */
  lemma {:induction false} ReachableIsGood(retention: int, cfg: Config, evs: seq<Event>, t: int)
    requires cfg.persisted && Timely(evs)
    requires forall i :: 0 <= i < |evs| ==> evs[i].now <= t
    ensures Good(retention, After(retention, cfg, evs), t)
    decreases |evs|
  {
    if evs == [] {
      assert Inv(cfg, retention, EMPTY, t, []);
    } else {
      var last := evs[|evs| - 1];
      ReachableIsGood(retention, cfg, evs[..|evs| - 1], last.now);
      StepIsGood(retention, After(retention, cfg, evs[..|evs| - 1]), last.now, last);
      GoodLater(retention, After(retention, cfg, evs), last.now, t);
    }
  }

  lemma GoodLater(retention: int, w: World, t: int, now: int)
    requires Good(retention, w, t) && t <= now
    ensures Good(retention, w, now)
  {
    var ghosts :| Inv(w.cfg, retention, w.s, t, ghosts);
    LaterHorizon(t, now, retention);
    AliveLater(Entries(w.s.disk), t, now);
    AliveLater(w.s.order + ghosts, t, now);
    assert Inv(w.cfg, retention, w.s, now, ghosts);
  }

  /** Each step of a run is a step of the abstract expiring set. */
  lemma RunRefinesExpiringSet(retention: int, cfg: Config, evs: seq<Event>, i: nat)
    requires cfg.persisted && Timely(evs) && i < |evs|
    ensures var a := After(retention, cfg, evs[..i]).s.seen;
            var b := After(retention, cfg, evs[..i + 1]).s.seen;
            if evs[i].Attempt? then
              AbstractReserve(a, (evs[i].agent, evs[i].nonce), evs[i].now,
                              SaturatingAdd(evs[i].now, retention), Answer(retention, cfg, evs, i), b)
            else AbstractRestart(a, evs[i].now, b)
  {
    var w := After(retention, cfg, evs[..i]);
    assert evs[..i + 1][..i] == evs[..i];
    ReachableIsGood(retention, cfg, evs[..i], evs[i].now);
    var ghosts :| Inv(w.cfg, retention, w.s, evs[i].now, ghosts);
    match evs[i]
    case Attempt(agent, nonce, now) =>
      var after := ReserveRefines(w.cfg, retention, w.s, now, ghosts, agent, nonce, now);
    case Restart(cap, now) =>
      RestartRefines(w.cfg, retention, w.s, now, ghosts, cap, now);
  }

  /** Once reserved, a key stays reserved with the same expiry until time reaches it. */
  lemma {:induction false} HeldUntilExpiry(
    retention: int, cfg: Config, evs: seq<Event>, i: nat, j: nat, key: Key, expiry: int)
    requires cfg.persisted && Timely(evs) && i <= j <= |evs| && HeldAt(retention, cfg, evs, i, key, expiry)
    requires forall k :: i <= k < j ==> evs[k].now < expiry
    ensures HeldAt(retention, cfg, evs, j, key, expiry)
    decreases j - i
  {
    if i < j {
      HeldOneMore(retention, cfg, evs, i, key, expiry);
      HeldUntilExpiry(retention, cfg, evs, i + 1, j, key, expiry);
    }
  }

  /** Before event `i` the key is reserved until `expiry`. */
  ghost predicate HeldAt(retention: int, cfg: Config, evs: seq<Event>, i: nat, key: Key, expiry: int) {
    i <= |evs| && Reserves(After(retention, cfg, evs[..i]), key, expiry)
  }

  predicate Reserves(w: World, key: Key, expiry: int) {
    key in w.s.seen && w.s.seen[key] == expiry
  }

  lemma {:induction false} HeldOneMore(
    retention: int, cfg: Config, evs: seq<Event>, k: nat, key: Key, expiry: int)
    requires cfg.persisted && Timely(evs) && k < |evs| && HeldAt(retention, cfg, evs, k, key, expiry)
    requires evs[k].now < expiry
    ensures HeldAt(retention, cfg, evs, k + 1, key, expiry)
  {
    RunRefinesExpiringSet(retention, cfg, evs, k);
    assert key in Unexpired(After(retention, cfg, evs[..k]).s.seen, evs[k].now);
  }

  /** A nonce once reserved is answered `Duplicate` until it expires, across any restarts. */
  lemma FreshOnlyOnce(retention: int, cfg: Config, evs: seq<Event>, i: nat, j: nat)
    requires cfg.persisted && Timely(evs) && i < j < |evs|
    requires evs[i].Attempt? && evs[j].Attempt?
    requires evs[i].agent == evs[j].agent && evs[i].nonce == evs[j].nonce
    requires Answer(retention, cfg, evs, i) == Fresh
    requires evs[j].now < SaturatingAdd(evs[i].now, retention)
    ensures Answer(retention, cfg, evs, j) == Duplicate
  {
    var key := (evs[i].agent, evs[i].nonce);
    RunRefinesExpiringSet(retention, cfg, evs, i);
    HeldUntilExpiry(retention, cfg, evs, i + 1, j, key, SaturatingAdd(evs[i].now, retention));
    RunRefinesExpiringSet(retention, cfg, evs, j);
    assert key in Unexpired(After(retention, cfg, evs[..j]).s.seen, evs[j].now);
  }

  // ---- Why a nonce is answered Duplicate ----

  /** Every entry the cache holds, in memory or on disk. */
  ghost function Held(s: State): set<Entry> {
    (set e | e in s.order) + (set e | e in Entries(s.disk))
  }

  lemma {:induction false} PurgedHolds(s: State, now: int)
    ensures forall e :: e in Purged(s, now).order ==> e in s.order
    ensures Purged(s, now).disk == s.disk
    decreases |s.order|
  {
    if s.order != [] && s.order[0].expires <= now {
      PurgedHolds(s.(seen := s.seen - {s.order[0].Key()}, order := s.order[1..]), now);
    }
  }

  lemma {:induction false} LoadedHolds(disk: seq<DiskLine>, now: int)
    ensures forall x :: x in Held(Loaded(disk, now)) ==> x in Entries(disk)
  {
    AliveMembers(Entries(disk), now);
    EntriesOfLines(Alive(Entries(disk), now));
  }

  /** An attempt holds what was held and, unless it answered `Duplicate`, the new entry. */
  lemma {:induction false} AttemptHolds(
    cfg: Config, s: State, agent: string, nonce: string, now: int, retention: int, x: Entry)
    requires x in Held(Reserve(cfg, s, agent, nonce, now, retention).0) && x !in Held(s)
    ensures x == Entry(agent, nonce, SaturatingAdd(now, retention))
    ensures Reserve(cfg, s, agent, nonce, now, retention).1 != Duplicate
  {
    var e := Entry(agent, nonce, SaturatingAdd(now, retention));
    var p := Purged(s, now);
    PurgedHolds(s, now);
    ReserveCases(cfg, s, agent, nonce, now, retention);
    EntriesOfLines(p.order + [e]);
    EntriesSnoc(p.disk, Reserved(e));
  }

  lemma {:induction false} IndexValue(es: seq<Entry>, key: Key)
    requires key in IndexOf(es)
    ensures exists e :: e in es && e.Key() == key && e.expires == IndexOf(es)[key]
    decreases |es|
  {
    var front, last := es[..|es| - 1], es[|es| - 1];
    if key == last.Key() {
      assert last in es;
    } else {
      IndexValue(front, key);
      var e :| e in front && e.Key() == key && e.expires == IndexOf(front)[key];
      assert e in es;
    }
  }

  /** Some attempt before index `n` put this entry there. */
  ghost predicate Caused(retention: int, cfg: Config, evs: seq<Event>, n: nat, e: Entry)
    requires n <= |evs|
  {
    exists i :: 0 <= i < n && CausedBy(retention, cfg, evs, i, e)
  }

  ghost predicate CausedBy(retention: int, cfg: Config, evs: seq<Event>, i: nat, e: Entry)
    requires i < |evs|
  {
    && evs[i].Attempt?
    && e == Entry(evs[i].agent, evs[i].nonce, SaturatingAdd(evs[i].now, retention))
    && Answer(retention, cfg, evs, i) != Duplicate
  }

  lemma {:induction false} HeldIsCaused(retention: int, cfg: Config, evs: seq<Event>, n: nat, e: Entry)
    requires n <= |evs|
    requires e in Held(After(retention, cfg, evs[..n]).s)
    ensures Caused(retention, cfg, evs, n, e)
    decreases n
  {
    if n > 0 {
      var w := After(retention, cfg, evs[..n - 1]);
      assert evs[..n][..n - 1] == evs[..n - 1];
      if e in Held(w.s) {
        HeldIsCaused(retention, cfg, evs, n - 1, e);
        var i :| 0 <= i < n - 1 && CausedBy(retention, cfg, evs, i, e);
        assert CausedBy(retention, cfg, evs, i, e);
      } else {
        match evs[n - 1]
        case Restart(cap, now) =>
          LoadedHolds(w.s.disk, now);
        case Attempt(agent, nonce, now) =>
          AttemptHolds(w.cfg, w.s, agent, nonce, now, retention, e);
          assert CausedBy(retention, cfg, evs, n - 1, e);
      }
    }
  }

  /** No nonce is refused as a duplicate out of nowhere: an unexpired earlier attempt is the cause. */
  lemma DuplicateHasCause(retention: int, cfg: Config, evs: seq<Event>, j: nat) returns (i: nat)
    requires cfg.persisted && Timely(evs) && j < |evs| && evs[j].Attempt?
    requires Answer(retention, cfg, evs, j) == Duplicate
    ensures i < j && evs[i].Attempt? && evs[i].agent == evs[j].agent && evs[i].nonce == evs[j].nonce
    ensures Answer(retention, cfg, evs, i) != Duplicate
    ensures evs[j].now < SaturatingAdd(evs[i].now, retention)
  {
    var w := After(retention, cfg, evs[..j]);
    ReachableIsGood(retention, cfg, evs[..j], evs[j].now);
    RunRefinesExpiringSet(retention, cfg, evs, j);
    var ghosts :| Inv(w.cfg, retention, w.s, evs[j].now, ghosts);
    var key := (evs[j].agent, evs[j].nonce);
    IndexKeys(w.s.order);
    IndexValue(w.s.order, key);
    var e :| e in w.s.order && e.Key() == key && w.s.seen[key] == e.expires;
    HeldIsCaused(retention, cfg, evs, j, e);
    i :| 0 <= i < j && CausedBy(retention, cfg, evs, i, e);
  }

  // ---- Capacity ----

  /** A refusal for capacity leaves the reservations as the purge left them. */
  lemma RefusalChangesNothing(cfg: Config, retention: int, s: State, t: int, ghosts: seq<Entry>,
                              agent: string, nonce: string, now: int)
    requires Inv(cfg, retention, s, t, ghosts) && t <= now
    requires Reserve(cfg, s, agent, nonce, now, retention).1 == CapacityFull
    ensures var q := Reserve(cfg, s, agent, nonce, now, retention).0;
            q.seen == Unexpired(s.seen, now) && q.order == Alive(s.order, now)
  {
    PurgeKeepsInv(cfg, retention, s, t, ghosts, now);
    ReserveCases(cfg, s, agent, nonce, now, retention);
  }

  /** Yet the refused nonce is on disk: a restart makes it a reservation. */
  lemma GhostIsLoaded(cfg: Config, retention: int, s: State, t: int, e: Entry, now: int)
    requires cfg.persisted && Inv(cfg, retention, s, t, [e]) && t <= now < e.expires
    ensures e.Key() in Loaded(s.disk, now).seen && Loaded(s.disk, now).seen[e.Key()] == e.expires
    ensures Inv(cfg, retention, Loaded(s.disk, now), now, [])
  {
    RestartRefines(cfg, retention, s, t, [e], cfg.cap, now);
    assert Alive([e], now) == [e];
    IndexSnoc(Alive(s.order, now), e);
  }

  /** So a nonce refused for capacity is answered `Duplicate` after a restart, though never accepted. */
  lemma RefusedNonceIsBurntByRestart(cfg: Config, retention: int, s: State, t: int, ghosts: seq<Entry>,
                                     agent: string, nonce: string, now: int, later: int, next: int)
    requires cfg.persisted && Inv(cfg, retention, s, t, ghosts) && t <= now <= later <= next
    requires Reserve(cfg, s, agent, nonce, now, retention).1 == CapacityFull
    requires next < SaturatingAdd(now, retention)
    ensures var q := Reserve(cfg, s, agent, nonce, now, retention).0;
            Reserve(cfg, Loaded(q.disk, later), agent, nonce, next, retention).1 == Duplicate
  {
    var e := Entry(agent, nonce, SaturatingAdd(now, retention));
    var after := ReserveRefines(cfg, retention, s, t, ghosts, agent, nonce, now);
    var q := Reserve(cfg, s, agent, nonce, now, retention).0;
    GhostIsLoaded(cfg, retention, q, now, e, later);
    var l := Loaded(q.disk, later);
    PurgeKeepsInv(cfg, retention, l, later, [], next);
    ReserveCases(cfg, l, agent, nonce, next, retention);
  }

  /** When every reservation has expired, one whose line fits the cap succeeds. */
  lemma SelfHeals(cfg: Config, retention: int, s: State, t: int, ghosts: seq<Entry>,
                  agent: string, nonce: string, now: int)
    requires Inv(cfg, retention, s, t, ghosts) && t <= now
    requires forall e :: e in s.order ==> e.expires <= now
    requires cfg.width(Entry(agent, nonce, SaturatingAdd(now, retention))) <= cfg.cap
    ensures Reserve(cfg, s, agent, nonce, now, retention).1 == Fresh
  {
    PurgeKeepsInv(cfg, retention, s, t, ghosts, now);
    ReserveCases(cfg, s, agent, nonce, now, retention);
    AliveMembers(s.order, now);
    var kept := Alive(s.order, now);
    assert kept == [];
    var e := Entry(agent, nonce, SaturatingAdd(now, retention));
    LinesSnoc(cfg.width, kept, e);
  }

  function Restarts(evs: seq<Event>): nat {
    if evs == [] then 0
    else Restarts(evs[..|evs| - 1]) + if evs[|evs| - 1].Restart? then 1 else 0
  }

  /** Queue and file sizes while the file may have grown by `slack` past its cap. */
  ghost predicate Bounded(cfg: Config, s: State, slack: nat, line: nat) {
    && Bytes(cfg.width, Lines(s.order)) <= cfg.cap + slack
    && Bytes(cfg.width, s.disk) <= cfg.cap + slack + line
  }

  /** Whatever the queue holds in force is also in the file. */
  lemma QueueFitsInFile(cfg: Config, retention: int, s: State, t: int, ghosts: seq<Entry>, now: int)
    requires cfg.persisted && Inv(cfg, retention, s, t, ghosts) && t <= now
    ensures Bytes(cfg.width, Lines(Alive(s.order, now))) <= Bytes(cfg.width, s.disk)
    ensures Bytes(cfg.width, Lines(Alive(s.order, now))) <= Bytes(cfg.width, Lines(s.order))
  {
    EntriesOfLines(s.order);
    AliveTakesLess(cfg.width, Lines(s.order), now);
    AliveTakesLess(cfg.width, s.disk, now);
    RestartRefines(cfg, retention, s, t, ghosts, cfg.cap, now);
    LoadedIs(s.disk, now);
    LinesConcat(cfg.width, Alive(s.order, now), Alive(ghosts, now));
  }

  lemma AttemptIsBounded(cfg: Config, retention: int, s: State, t: int, ghosts: seq<Entry>,
                         agent: string, nonce: string, now: int, slack: nat, line: nat)
    requires cfg.persisted && Inv(cfg, retention, s, t, ghosts) && t <= now
    requires cfg.width(Entry(agent, nonce, SaturatingAdd(now, retention))) <= line
    requires line <= slack && Bounded(cfg, s, slack, line)
    ensures Bounded(cfg, Reserve(cfg, s, agent, nonce, now, retention).0, slack, line)
  {
    PurgeKeepsInv(cfg, retention, s, t, ghosts, now);
    ReserveCases(cfg, s, agent, nonce, now, retention);
    QueueFitsInFile(cfg, retention, s, t, ghosts, now);
    var kept := Alive(s.order, now);
    var e := Entry(agent, nonce, SaturatingAdd(now, retention));
    LinesSnoc(cfg.width, kept, e);
    BytesConcat(cfg.width, s.disk, [Reserved(e)]);
    assert Bytes(cfg.width, [Reserved(e)]) == cfg.width(e);
  }

  lemma RestartIsBounded(cfg: Config, s: State, now: int, slack: nat, line: nat)
    requires Bounded(cfg, s, slack, line)
    ensures Bounded(cfg, Loaded(s.disk, now), slack + line, line)
  {
    AliveTakesLess(cfg.width, s.disk, now);
  }

  /** The line of every attempt in the run takes at most `line` bytes. */
  ghost predicate LinesWithin(retention: int, cfg: Config, evs: seq<Event>, line: nat) {
    forall i :: 0 <= i < |evs| && evs[i].Attempt? ==>
      cfg.width(Entry(evs[i].agent, evs[i].nonce, SaturatingAdd(evs[i].now, retention))) <= line
  }

  lemma {:induction false} SlackBound(retention: int, cfg: Config, evs: seq<Event>, line: nat)
    requires cfg.persisted && Timely(evs)
    requires LinesWithin(retention, cfg, evs, line)
    requires forall i :: 0 <= i < |evs| && evs[i].Restart? ==> evs[i].cap == cfg.cap
    ensures After(retention, cfg, evs).cfg == cfg
    ensures Bounded(cfg, After(retention, cfg, evs).s, Slack(evs, line), line)
    decreases |evs|
  {
    if evs != [] {
      var front, last := evs[..|evs| - 1], evs[|evs| - 1];
      assert forall i :: 0 <= i < |front| ==> front[i] == evs[i];
      SlackBound(retention, cfg, front, line);
      var w := After(retention, cfg, front);
      ReachableIsGood(retention, cfg, front, last.now);
      var ghosts :| Inv(w.cfg, retention, w.s, last.now, ghosts);
      match last
      case Attempt(agent, nonce, now) =>
        AttemptIsBounded(cfg, retention, w.s, now, ghosts, agent, nonce, now, Slack(front, line), line);
      case Restart(cap, now) =>
        RestartIsBounded(cfg, w.s, now, Slack(front, line), line);
    }
  }

  /** One line, and one more for each restart. */
  function Slack(evs: seq<Event>, line: nat): (r: nat)
    ensures r >= line
  {
    if evs == [] then line
    else Slack(evs[..|evs| - 1], line) + if evs[|evs| - 1].Restart? then line else 0
  }

  lemma {:induction false} SlackIs(evs: seq<Event>, line: nat)
    ensures Slack(evs, line) == (1 + Restarts(evs)) * line
    decreases |evs|
  {
    if evs != [] {
      SlackIs(evs[..|evs| - 1], line);
    }
  }

  /**
   * The journal never exceeds its cap by more than two lines, plus one line for each restart:
   * a restart may turn a ghost into a reservation that the next compaction keeps.
   */
  lemma JournalIsBounded(retention: int, cfg: Config, evs: seq<Event>, line: nat)
    requires cfg.persisted && Timely(evs)
    requires LinesWithin(retention, cfg, evs, line)
    requires forall i :: 0 <= i < |evs| && evs[i].Restart? ==> evs[i].cap == cfg.cap
    ensures Bytes(cfg.width, After(retention, cfg, evs).s.disk) <= cfg.cap + (2 + Restarts(evs)) * line
  {
    SlackBound(retention, cfg, evs, line);
    SlackIs(evs, line);
    assert (2 + Restarts(evs)) * line == (1 + Restarts(evs)) * line + line;
  }

  lemma {:induction false} AfterSnoc(retention: int, cfg: Config, evs: seq<Event>, ev: Event)
    ensures After(retention, cfg, evs + [ev]) == Step(retention, After(retention, cfg, evs), ev)
  {
    assert (evs + [ev])[..|evs|] == evs;
  }
}

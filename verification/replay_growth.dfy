/** The journal grows by a line with each restart: the bound of two lines over the cap is that of one process life. */
module ReplayGrowth {
  import opened ReplayCache
  import opened ReplayRuns

  // ---- Distinct nonces ----

  function Nonce(n: nat): (s: string)
    ensures |s| == n
  {
    if n == 0 then "" else Nonce(n - 1) + "x"
  }

  /** Reservations by one agent of `n` distinct nonces. */
  function Made(a: string, expires: int, n: nat): (es: seq<Entry>)
    ensures |es| == n
    ensures forall i :: 0 <= i < n ==> es[i] == Entry(a, Nonce(i + 1), expires)
  {
    if n == 0 then [] else Made(a, expires, n - 1) + [Entry(a, Nonce(n), expires)]
  }

  lemma {:induction false} NewNonce(a: string, expires: int, n: nat)
    ensures (a, Nonce(n + 1)) !in IndexOf(Made(a, expires, n))
  {
    var es := Made(a, expires, n);
    IndexKeys(es);
    assert forall e :: e in es ==> |e.nonce| <= n;
  }

  lemma {:induction false} IndexSize(a: string, expires: int, n: nat)
    ensures |IndexOf(Made(a, expires, n))| == n
  {
    if n > 0 {
      var front, last := Made(a, expires, n - 1), Entry(a, Nonce(n), expires);
      IndexSize(a, expires, n - 1);
      NewNonce(a, expires, n - 1);
      IndexSnoc(front, last);
      assert Made(a, expires, n) == front + [last];
      OneKeyMore(IndexOf(front), last.Key(), last.expires);
    }
  }

  lemma OneKeyMore(m: map<Key, int>, k: Key, v: int)
    requires k !in m
    ensures |m[k := v]| == |m| + 1
  {
    assert m[k := v].Keys == m.Keys + {k};
  }

  /** A cache whose map, queue and file all hold the same `n` reservations. */
  function Holding(a: string, expires: int, n: nat): State {
    State(IndexOf(Made(a, expires, n)), Made(a, expires, n), n, Lines(Made(a, expires, n)))
  }

  /** The bytes of a file with the first `n` lines. */
  function FileOf(cfg: Config, a: string, expires: int, n: nat): nat {
    Bytes(cfg.width, Lines(Made(a, expires, n)))
  }

  lemma {:induction false} FileGrows(cfg: Config, a: string, expires: int, n: nat)
    ensures FileOf(cfg, a, expires, n + 1) == FileOf(cfg, a, expires, n) + cfg.width(Entry(a, Nonce(n + 1), expires))
  {
    assert Made(a, expires, n + 1) == Made(a, expires, n) + [Entry(a, Nonce(n + 1), expires)];
    LinesSnoc(cfg.width, Made(a, expires, n), Entry(a, Nonce(n + 1), expires));
  }

  /** Every line takes at least `w` bytes. */
  ghost predicate LinesTake(cfg: Config, w: nat) {
    forall e: Entry :: cfg.width(e) >= w
  }

  lemma {:induction false} FileAtLeast(cfg: Config, w: nat, a: string, expires: int, n: nat, more: nat)
    requires LinesTake(cfg, w)
    ensures FileOf(cfg, a, expires, n + more) >= FileOf(cfg, a, expires, n) + more * w
    decreases more
  {
    if more > 0 {
      FileAtLeast(cfg, w, a, expires, n, more - 1);
      FileGrows(cfg, a, expires, n + more - 1);
      assert more * w == (more - 1) * w + w;
    }
  }

  /** Some number of lines first takes the file past its cap. */
  lemma {:induction false} FillPoint(cfg: Config, w: nat, a: string, expires: int, n: nat) returns (k: nat)
    requires LinesTake(cfg, w) && w > 0 && FileOf(cfg, a, expires, n) <= cfg.cap
    ensures k > n && FileOf(cfg, a, expires, k - 1) <= cfg.cap < FileOf(cfg, a, expires, k)
    decreases cfg.cap - FileOf(cfg, a, expires, n)
  {
    FileGrows(cfg, a, expires, n);
    if FileOf(cfg, a, expires, n + 1) > cfg.cap {
      k := n + 1;
    } else {
      k := FillPoint(cfg, w, a, expires, n + 1);
    }
  }

  // ---- One more nonce ----

  lemma {:induction false} HoldingStays(a: string, expires: int, n: nat)
    requires expires > 0
    ensures Purged(Holding(a, expires, n), 0) == Holding(a, expires, n)
  {
  }

  /** Accepted while the file is within its cap; afterwards refused, though its line is written. */
  lemma {:induction false} OneMore(cfg: Config, a: string, ret: int, n: nat)
    requires cfg.persisted && 0 < ret <= MAX_I64
    ensures var (q, r) := Reserve(cfg, Holding(a, ret, n), a, Nonce(n + 1), 0, ret);
            && q.disk == Lines(Made(a, ret, n + 1))
            && (FileOf(cfg, a, ret, n) <= cfg.cap ==> q == Holding(a, ret, n + 1) && r == Fresh)
            && (FileOf(cfg, a, ret, n) > cfg.cap ==> r == CapacityFull)
  {
    var s, e := Holding(a, ret, n), Entry(a, Nonce(n + 1), ret);
    HoldingStays(a, ret, n);
    NewNonce(a, ret, n);
    IndexSize(a, ret, n + 1);
    FileGrows(cfg, a, ret, n);
    IndexSnoc(s.order, e);
    assert Made(a, ret, n + 1) == s.order + [e];
  }

  function Try(a: string, n: nat): Event {
    Attempt(a, Nonce(n), 0)
  }

  ghost predicate Reached(ret: int, cfg: Config, evs: seq<Event>, s: State) {
    After(ret, cfg, evs) == World(cfg, s)
  }

  lemma {:induction false} TryOneMore(cfg: Config, a: string, ret: int, evs: seq<Event>, n: nat)
    requires cfg.persisted && 0 < ret <= MAX_I64 && Reached(ret, cfg, evs, Holding(a, ret, n))
    ensures After(ret, cfg, evs + [Try(a, n + 1)]).cfg == cfg
    ensures After(ret, cfg, evs + [Try(a, n + 1)]).s.disk == Lines(Made(a, ret, n + 1))
    ensures FileOf(cfg, a, ret, n) <= cfg.cap ==> Reached(ret, cfg, evs + [Try(a, n + 1)], Holding(a, ret, n + 1))
  {
    AfterSnoc(ret, cfg, evs, Try(a, n + 1));
    OneMore(cfg, a, ret, n);
  }

  /** A restart loads whatever the file holds, the refused nonce included. */
  lemma {:induction false} RestartLoadsAll(cfg: Config, a: string, ret: int, evs: seq<Event>, n: nat)
    requires 0 < ret && After(ret, cfg, evs).cfg == cfg && After(ret, cfg, evs).s.disk == Lines(Made(a, ret, n))
    ensures Reached(ret, cfg, evs + [Restart(cfg.cap, 0)], Holding(a, ret, n))
  {
    AfterSnoc(ret, cfg, evs, Restart(cfg.cap, 0));
    EntriesOfLines(Made(a, ret, n));
    AliveWhenAllAre(Made(a, ret, n), 0);
    IndexSize(a, ret, n);
  }

  // ---- The runs ----

  /** All attempts and restarts of these runs happen in the first second, and restarts keep the cap. */
  ghost predicate AtOnce(cfg: Config, evs: seq<Event>, restarts: nat) {
    && Restarts(evs) == restarts
    && forall i :: 0 <= i < |evs| ==> evs[i].now == 0 && (evs[i].Restart? ==> evs[i].cap == cfg.cap)
  }

  lemma {:induction false} OneEventMore(cfg: Config, evs: seq<Event>, n: nat, ev: Event)
    requires AtOnce(cfg, evs, n) && ev.now == 0 && (ev.Restart? ==> ev.cap == cfg.cap)
    ensures AtOnce(cfg, evs + [ev], if ev.Restart? then n + 1 else n)
  {
    assert (evs + [ev])[..|evs|] == evs;
  }

  /** `n` nonces fill the cache. */
  lemma {:induction false} Filling(cfg: Config, a: string, ret: int, n: nat) returns (evs: seq<Event>)
    requires cfg.persisted && 0 < ret <= MAX_I64 && (n > 0 ==> FileOf(cfg, a, ret, n - 1) <= cfg.cap)
    ensures AtOnce(cfg, evs, 0) && Reached(ret, cfg, evs, Holding(a, ret, n))
    decreases n
  {
    if n == 0 {
      evs := [];
      assert Holding(a, ret, 0) == EMPTY;
    } else {
      if n > 1 { FileGrows(cfg, a, ret, n - 2); }
      evs := Filling(cfg, a, ret, n - 1);
      TryOneMore(cfg, a, ret, evs, n - 1);
      OneEventMore(cfg, evs, 0, Try(a, n));
      evs := evs + [Try(a, n)];
    }
  }

  /** The file holds the first `m` lines. */
  ghost predicate Grown(ret: int, cfg: Config, evs: seq<Event>, a: string, m: nat) {
    After(ret, cfg, evs).cfg == cfg && After(ret, cfg, evs).s.disk == Lines(Made(a, ret, m))
  }

  /** A restart and one more nonce: one more line. */
  lemma {:induction false} GrowStep(cfg: Config, a: string, ret: int, evs: seq<Event>, m: nat)
    requires cfg.persisted && 0 < ret <= MAX_I64 && Grown(ret, cfg, evs, a, m)
    ensures Grown(ret, cfg, evs + [Restart(cfg.cap, 0)] + [Try(a, m + 1)], a, m + 1)
  {
    RestartLoadsAll(cfg, a, ret, evs, m);
    TryOneMore(cfg, a, ret, evs + [Restart(cfg.cap, 0)], m);
  }

  lemma {:induction false} Overfull(cfg: Config, a: string, ret: int, k: nat) returns (evs: seq<Event>)
    requires cfg.persisted && 0 < ret <= MAX_I64 && k > 0 && FileOf(cfg, a, ret, k - 1) <= cfg.cap
    ensures AtOnce(cfg, evs, 0) && Grown(ret, cfg, evs, a, k + 1)
  {
    evs := Filling(cfg, a, ret, k);
    TryOneMore(cfg, a, ret, evs, k);
    OneEventMore(cfg, evs, 0, Try(a, k + 1));
    evs := evs + [Try(a, k + 1)];
  }

  lemma {:induction false} RestartAndTry(cfg: Config, evs: seq<Event>, n: nat, a: string, m: nat)
    requires AtOnce(cfg, evs, n)
    ensures AtOnce(cfg, evs + [Restart(cfg.cap, 0)] + [Try(a, m)], n + 1)
  {
    OneEventMore(cfg, evs, n, Restart(cfg.cap, 0));
    OneEventMore(cfg, evs + [Restart(cfg.cap, 0)], n + 1, Try(a, m));
  }

  /** A full cache refuses one nonce, and one more after each of `n` restarts. */
  lemma {:induction false} Growing(cfg: Config, a: string, ret: int, k: nat, n: nat, m: nat)
    returns (evs: seq<Event>)
    requires cfg.persisted && 0 < ret <= MAX_I64 && k > 0 && FileOf(cfg, a, ret, k - 1) <= cfg.cap
    requires m == k + 1 + n
    ensures AtOnce(cfg, evs, n) && Grown(ret, cfg, evs, a, m)
    decreases n
  {
    if n == 0 {
      evs := Overfull(cfg, a, ret, k);
    } else {
      evs := Growing(cfg, a, ret, k, n - 1, m - 1);
      GrowStep(cfg, a, ret, evs, m - 1);
      RestartAndTry(cfg, evs, n - 1, a, m);
      evs := evs + [Restart(cfg.cap, 0)] + [Try(a, m)];
    }
  }

  /**
   * Whatever the cap, and however few bytes a line takes, for every `n` there is a run with `n` restarts after which
   * the file exceeds its cap by more than `n + 1` such lines.
   */
  lemma {:induction false} GrowsWithRestarts(cfg: Config, w: nat, a: string, ret: int, n: nat) returns (evs: seq<Event>)
    requires cfg.persisted && LinesTake(cfg, w) && w > 0 && 0 < ret <= MAX_I64
    ensures AtOnce(cfg, evs, n)
    ensures Bytes(cfg.width, After(ret, cfg, evs).s.disk) > cfg.cap + (1 + n) * w
  {
    assert Made(a, ret, 0) == [];
    var k := FillPoint(cfg, w, a, ret, 0);
    evs := Growing(cfg, a, ret, k, n, k + 1 + n);
    FileAtLeast(cfg, w, a, ret, k, 1 + n);
  }

  // ---- When two lines are the bound ----

  /** A timely run of a persisted cache with `n` restarts under one cap, and lines of at most `line` bytes. */
  ghost predicate RunWith(ret: int, cfg: Config, evs: seq<Event>, line: nat, n: nat) {
    && cfg.persisted && Timely(evs) && Restarts(evs) == n
    && LinesWithin(ret, cfg, evs, line)
    && (forall i :: 0 <= i < |evs| && evs[i].Restart? ==> evs[i].cap == cfg.cap)
  }

  /** Every run with `n` restarts stays within its cap and two lines. */
  ghost predicate WithinTwoLines(n: nat) {
    forall ret: int, cfg: Config, evs: seq<Event>, line: nat {:trigger RunWith(ret, cfg, evs, line, n)} ::
      RunWith(ret, cfg, evs, line, n) ==> Bytes(cfg.width, After(ret, cfg, evs).s.disk) <= cfg.cap + 2 * line
  }

  function HundredBytes(e: Entry): nat { 100 }

  lemma {:induction false} ManyExceed(cfg: Config, n: nat) returns (evs: seq<Event>)
    requires cfg.persisted && cfg.width == HundredBytes && n > 0
    ensures RunWith(100, cfg, evs, 100, n)
    ensures Bytes(cfg.width, After(100, cfg, evs).s.disk) > cfg.cap + 2 * 100
  {
    evs := GrowsWithRestarts(cfg, 100, "a", 100, n);
    assert (1 + n) * 100 >= 200;
  }

  lemma {:induction false} NoRestartNoMore(n: nat)
    requires n == 0
    ensures WithinTwoLines(n)
  {
    forall ret: int, cfg: Config, evs: seq<Event>, line: nat | RunWith(ret, cfg, evs, line, n)
      ensures Bytes(cfg.width, After(ret, cfg, evs).s.disk) <= cfg.cap + 2 * line
    {
      JournalIsBounded(ret, cfg, evs, line);
    }
  }

  /** The bound of two lines holds of all runs with `n` restarts if and only if there is none. */
  lemma {:induction false} TwoLinesExactly(n: nat)
    ensures WithinTwoLines(n) <==> n == 0
  {
    if n == 0 {
      NoRestartNoMore(n);
    } else {
      var cfg := Config(true, 1000, HundredBytes);
      var evs := ManyExceed(cfg, n);
      assert RunWith(100, cfg, evs, 100, n);
    }
  }
}

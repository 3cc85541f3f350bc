/** How much of the replay journal is dead weight: after every reservation, and what a rewrite gains. */
module ReplayLean {
  import opened ReplayCache
  import opened ReplayRuns
  import ReplayStale

  lemma {:induction false} IndexSize(es: seq<Entry>)
    requires Distinct(es)
    ensures |IndexOf(es)| == |es|
    decreases |es|
  {
    if es != [] {
      var front, last := es[..|es| - 1], es[|es| - 1];
      IndexSize(front);
      LastIsNew(es);
      assert IndexOf(es).Keys == IndexOf(front).Keys + {last.Key()};
    }
  }

  /** By its count the journal is short, or at least half of its lines are reservations in force. */
  predicate Lean(s: State) {
    s.linesWritten < 1024 || s.linesWritten <= 2 * |s.seen|
  }

  /** The count is that of the file. */
  predicate InStep(s: State) {
    s.linesWritten == |s.disk|
  }

  /** A rewrite of a journal within its cap takes place at 1024 lines or more, and drops more than it keeps. */
  predicate PaysOff(cfg: Config, s: State, e: Entry, q: State) {
    Bytes(cfg.width, s.disk) <= cfg.cap && q.disk != s.disk + [Reserved(e)] ==>
      s.linesWritten + 1 >= 1024 && 2 * |q.disk| < s.linesWritten + 1
  }

  lemma {:induction false} PurgedSize(s: State, now: int)
    requires s.seen == IndexOf(s.order) && Distinct(s.order)
    ensures var p := Purged(s, now);
            && |p.seen| == |p.order| && p.seen == IndexOf(p.order) && Distinct(p.order)
            && p.disk == s.disk && p.linesWritten == s.linesWritten
    decreases |s.order|
  {
    IndexSize(s.order);
    if s.order != [] && s.order[0].expires <= now {
      IndexDropFirst(s.order);
      PurgedSize(s.(seen := s.seen - {s.order[0].Key()}, order := s.order[1..]), now);
    }
  }

  lemma {:induction false} ReserveIsLean(
    cfg: Config, s: State, agent: string, nonce: string, now: int, retention: int)
    requires cfg.persisted && s.seen == IndexOf(s.order) && Distinct(s.order)
    requires Reserve(cfg, s, agent, nonce, now, retention).1 == Fresh
    ensures var q := Reserve(cfg, s, agent, nonce, now, retention).0;
            && Lean(q) && PaysOff(cfg, s, Entry(agent, nonce, SaturatingAdd(now, retention)), q)
            && (InStep(s) ==> InStep(q))
  {
    PurgedSize(s, now);
    var p, e := Purged(s, now), Entry(agent, nonce, SaturatingAdd(now, retention));
    assert p.seen[e.Key() := e.expires].Keys == p.seen.Keys + {e.Key()};
  }

  /** A refusal or a duplicate leaves the count that of the file, too. */
  lemma {:induction false} ReserveKeepsStep(
    cfg: Config, s: State, agent: string, nonce: string, now: int, retention: int)
    requires cfg.persisted && s.seen == IndexOf(s.order) && Distinct(s.order) && InStep(s)
    ensures InStep(Reserve(cfg, s, agent, nonce, now, retention).0)
  {
    PurgedSize(s, now);
  }

  /** Loading counts the file's lines, except that a load which rewrites the file starts again from zero. */
  lemma {:induction false} LoadKeepsStepExactly(disk: seq<DiskLine>, now: int)
    ensures InStep(Loaded(disk, now)) <==>
            || |disk| <= 1024 || 2 * |Loaded(disk, now).seen| >= |disk|
            || Loaded(disk, now).order == []
  {
  }

  /**
   * In every run, restarts included and with readings that may arrive late, each accepted reservation leaves a
   * journal that by its count is short or at least half in force, and a rewrite within the cap drops more lines than
   * it keeps. While the count is that of the file, it stays so.
   */
  lemma {:induction false} JournalStaysLean(retention: int, cfg: Config, evs: seq<Event>, k: nat, t: int)
    requires cfg.persisted && ReplayStale.Orderly(evs) && forall i :: 0 <= i < |evs| ==> evs[i].now <= t
    requires k < |evs| && evs[k].Attempt? && Answer(retention, cfg, evs, k) == Fresh
    ensures var w, q := After(retention, cfg, evs[..k]), After(retention, cfg, evs[..k + 1]).s;
            && Lean(q) && (InStep(w.s) ==> InStep(q))
            && PaysOff(w.cfg, w.s, Entry(evs[k].agent, evs[k].nonce, SaturatingAdd(evs[k].now, retention)), q)
  {
    ReplayStale.SoundBefore(retention, cfg, evs, k, t);
    ReplayStale.OneStepOn(retention, cfg, evs, k);
    var w := After(retention, cfg, evs[..k]);
    var ghosts :| ReplayStale.Kept(w.cfg, w.s, t, ghosts);
    ReplayStale.DistinctTail(w.s.order, ghosts, 0);
    ReserveIsLean(w.cfg, w.s, evs[k].agent, evs[k].nonce, evs[k].now, retention);
  }

  // ---- Without restarts the count is that of the file ----

  lemma {:induction false} CountIsTheFiles(retention: int, cfg: Config, evs: seq<Event>)
    requires cfg.persisted && forall i :: 0 <= i < |evs| ==> evs[i].Attempt?
    ensures var w := After(retention, cfg, evs);
            w.cfg == cfg && w.s.seen == IndexOf(w.s.order) && Distinct(w.s.order) && InStep(w.s)
    decreases |evs|
  {
    if evs != [] {
      var front, last := evs[..|evs| - 1], evs[|evs| - 1];
      CountIsTheFiles(retention, cfg, front);
      var s := After(retention, cfg, front).s;
      ReserveKeepsStep(cfg, s, last.agent, last.nonce, last.now, retention);
      ReserveKeepsIndex(cfg, s, last.agent, last.nonce, last.now, retention);
    }
  }

  lemma {:induction false} ReserveKeepsIndex(
    cfg: Config, s: State, agent: string, nonce: string, now: int, retention: int)
    requires s.seen == IndexOf(s.order) && Distinct(s.order)
    ensures var q := Reserve(cfg, s, agent, nonce, now, retention).0;
            q.seen == IndexOf(q.order) && Distinct(q.order)
  {
    PurgedSize(s, now);
    var p, e := Purged(s, now), Entry(agent, nonce, SaturatingAdd(now, retention));
    if e.Key() !in p.seen {
      IndexSnoc(p.order, e);
      ReplayStale.DistinctSnoc(p.order, e);
      RollbackUndoes(p, e);
    }
  }
}

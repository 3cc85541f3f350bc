/**
 * The replay cache: a map, a queue and an append-only journal that reserve each
 * (agent, nonce) until it expires.
 */
module ReplayCache {
  import opened Text

  type Key = (string, string)

  datatype Entry = Entry(agent: string, nonce: string, expires: int) {
    function Key(): Key { (agent, nonce) }
  }

  /** One journal line as the loader reads it; `Garbage` does not parse and is `len` bytes long. */
  datatype DiskLine = Blank | Reserved(entry: Entry) | Garbage(len: nat)

  datatype Reservation = Fresh | Duplicate | CapacityFull

  datatype OpenError = Corrupt(line: nat)

  /** `width` gives the bytes of a serialized reservation, its newline included. */
  datatype Config = Config(persisted: bool, cap: nat, width: Entry -> nat)

  /** The cache in memory, with the journal file it keeps. */
  datatype State = State(seen: map<Key, int>, order: seq<Entry>, linesWritten: nat, disk: seq<DiskLine>)

  const EMPTY := State(map[], [], 0, [])

  const COMPACT_LINES: nat := 1024
  const MAX_I64: int := 0x7FFF_FFFF_FFFF_FFFF
  const MIN_I64: int := -0x8000_0000_0000_0000

  function SaturatingAdd(a: int, b: int): int {
    if a + b > MAX_I64 then MAX_I64 else if a + b < MIN_I64 then MIN_I64 else a + b
  }

  predicate Word64(n: int) {
    -0x8000_0000_0000_0000 <= n < 0x8000_0000_0000_0000
  }

  /** A saturated sum is a 64-bit number, and no other is nearer to the sum. */
  lemma SaturatesToNearest(a: int, b: int, other: int)
    ensures Word64(SaturatingAdd(a, b))
    ensures Word64(other) && other != SaturatingAdd(a, b) ==>
              || (a + b <= SaturatingAdd(a, b) < other) || (other < SaturatingAdd(a, b) <= a + b)
              || SaturatingAdd(a, b) == a + b
  {
  }

  // ---- The journal file ----

  function LineBytes(width: Entry -> nat, line: DiskLine): nat {
    match line
    case Blank => 1
    case Reserved(e) => width(e)
    case Garbage(len) => len + 1
  }

  function Bytes(width: Entry -> nat, disk: seq<DiskLine>): nat {
    if disk == [] then 0 else LineBytes(width, disk[0]) + Bytes(width, disk[1..])
  }

  function Lines(order: seq<Entry>): seq<DiskLine> {
    seq(|order|, i requires 0 <= i < |order| => Reserved(order[i]))
  }

  function Entries(disk: seq<DiskLine>): seq<Entry> {
    if disk == [] then []
    else (if disk[0].Reserved? then [disk[0].entry] else []) + Entries(disk[1..])
  }

  /** The entries still in force after `now`, in order. */
  function Alive(es: seq<Entry>, now: int): seq<Entry> {
    if es == [] then []
    else (if es[0].expires > now then [es[0]] else []) + Alive(es[1..], now)
  }

  /** The map that inserting the entries one by one builds. */
  function IndexOf(es: seq<Entry>): map<Key, int> {
    if es == [] then map[]
    else IndexOf(es[..|es| - 1])[es[|es| - 1].Key() := es[|es| - 1].expires]
  }

  // ---- The operations, as functions of the state ----

  /** Expired entries leave from the front of the queue, and their keys from the map. */
  function Purged(s: State, now: int): State
    decreases |s.order|
  {
    if s.order == [] || s.order[0].expires > now then s
    else Purged(s.(seen := s.seen - {s.order[0].Key()}, order := s.order[1..]), now)
  }

  function Compacted(s: State): State {
    s.(disk := Lines(s.order), linesWritten := |s.order|)
  }

  function Inserted(s: State, e: Entry): State {
    s.(seen := s.seen[e.Key() := e.expires], order := s.order + [e], linesWritten := s.linesWritten + 1)
  }

  /** The journal is over its cap, or mostly dead weight. */
  predicate CompactionDue(cfg: Config, s: State) {
    || Bytes(cfg.width, s.disk) > cfg.cap
    || (s.linesWritten >= COMPACT_LINES && |s.seen| * 2 < s.linesWritten)
  }

  function Reserve(cfg: Config, s: State, agent: string, nonce: string, now: int, retention: int)
    : (State, Reservation)
  {
    var e := Entry(agent, nonce, SaturatingAdd(now, retention));
    var purged := Purged(s, now);
    if e.Key() in purged.seen then (purged, Duplicate)
    else
      var ins := Inserted(purged, e);
      if !cfg.persisted then (ins, Fresh)
      else
        var due := CompactionDue(cfg, ins);
        var mid := if due then Compacted(ins) else ins;
        if Bytes(cfg.width, mid.disk) > cfg.cap then
          (mid.(seen := mid.seen - {e.Key()}, order := mid.order[..|mid.order| - 1]), CapacityFull)
        else if due then (mid, Fresh)
        else (mid.(disk := mid.disk + [Reserved(e)]), Fresh)
  }

  ghost predicate Loadable(disk: seq<DiskLine>) {
    forall i :: 0 <= i < |disk| ==> !disk[i].Garbage?
  }

  /** Loading a journal that parses: unexpired entries survive, and dead weight is rewritten away. */
  function Loaded(disk: seq<DiskLine>, now: int): State {
    var es := Alive(Entries(disk), now);
    var s := State(IndexOf(es), es, |disk|, disk);
    if |disk| > COMPACT_LINES && |s.seen| * 2 < |disk| then Compacted(s).(linesWritten := 0) else s
  }

  // ---- The object ----

  class Cache {
    var seen: map<Key, int>
    var order: seq<Entry>
    var linesWritten: nat
    var disk: seq<DiskLine>
    const cfg: Config

    function Snapshot(): State
      reads this
    {
      State(seen, order, linesWritten, disk)
    }

    constructor (cfg: Config, s: State)
      ensures Snapshot() == s && this.cfg == cfg
    {
      this.cfg := cfg;
      seen, order, linesWritten, disk := s.seen, s.order, s.linesWritten, s.disk;
    }

    method PurgeExpired(now: int)
      modifies this
      ensures Snapshot() == Purged(old(Snapshot()), now)
    {
      while order != [] && order[0].expires <= now
        invariant Purged(Snapshot(), now) == Purged(old(Snapshot()), now)
        decreases |order|
      {
        seen := seen - {order[0].Key()};
        order := order[1..];
      }
    }

    method RewriteJournal()
      modifies this
      ensures Snapshot() == Compacted(old(Snapshot()))
    {
      var file: seq<DiskLine> := [];
      for i := 0 to |order|
        invariant file == Lines(order)[..i]
        invariant Snapshot() == old(Snapshot())
      {
        file := file + [Reserved(order[i])];
      }
      disk := file;
      linesWritten := |order|;
    }

    method CheckAndReserve(agent: string, nonce: string, now: int, retention: int) returns (r: Reservation)
      modifies this
      ensures (Snapshot(), r) == Reserve(cfg, old(Snapshot()), agent, nonce, now, retention)
    {
      var e := Entry(agent, nonce, SaturatingAdd(now, retention));
      PurgeExpired(now);
      if e.Key() in seen {
        return Duplicate;
      }
      seen := seen[e.Key() := e.expires];
      order := order + [e];
      linesWritten := linesWritten + 1;
      if !cfg.persisted {
        return Fresh;
      }
      var journaled := false;
      if CompactionDue(cfg, Snapshot()) {
        RewriteJournal();
        journaled := true;
      }
      if Bytes(cfg.width, disk) > cfg.cap {
        seen := seen - {e.Key()};
        order := order[..|order| - 1];
        return CapacityFull;
      }
      if !journaled {
        disk := disk + [Reserved(e)];
      }
      return Fresh;
    }
  }

  lemma {:induction false} OneMoreLine(disk: seq<DiskLine>, i: nat, now: int)
    requires i < |disk| && !disk[i].Garbage?
    ensures Alive(Entries(disk[..i + 1]), now)
         == Alive(Entries(disk[..i]), now)
            + (if disk[i].Reserved? && disk[i].entry.expires > now then [disk[i].entry] else [])
    ensures Loadable(disk[..i]) ==> Loadable(disk[..i + 1])
  {
    var added := if disk[i].Reserved? then [disk[i].entry] else [];
    EntriesSnoc(disk[..i], disk[i]);
    assert disk[..i + 1] == disk[..i] + [disk[i]];
    AliveConcat(Entries(disk[..i]), added, now);
  }

  /** The loader's pass over the journal lines. */
  method LoadLines(disk: seq<DiskLine>, now: int) returns (r: Result<seq<Entry>, OpenError>, seen: map<Key, int>)
    ensures r.Ok? <==> Loadable(disk)
    ensures r.Ok? ==> r.value == Alive(Entries(disk), now) && seen == IndexOf(r.value)
    ensures r.Err? ==> r.error.line < |disk| && disk[r.error.line].Garbage? && Loadable(disk[..r.error.line])
  {
    seen := map[];
    var order: seq<Entry> := [];
    for i := 0 to |disk|
      invariant Loadable(disk[..i])
      invariant order == Alive(Entries(disk[..i]), now)
      invariant seen == IndexOf(order)
    {
      if !disk[i].Garbage? { OneMoreLine(disk, i, now); }
      match disk[i]
      case Blank =>
      case Garbage(_) =>
        return Err(Corrupt(i)), seen;
      case Reserved(e) =>
        if e.expires > now {
          IndexSnoc(order, e);
          seen := seen[e.Key() := e.expires];
          order := order + [e];
        }
    }
    assert disk[..|disk|] == disk;
    return Ok(order), seen;
  }

  /** Opens a persisted cache over the journal found on disk. */
  method Open(cfg: Config, disk: seq<DiskLine>, now: int) returns (r: Result<Cache, OpenError>)
    ensures r.Ok? <==> Loadable(disk)
    ensures r.Ok? ==> fresh(r.value) && r.value.cfg == cfg && r.value.Snapshot() == Loaded(disk, now)
    ensures r.Err? ==> r.error.line < |disk| && disk[r.error.line].Garbage? && Loadable(disk[..r.error.line])
  {
    var order, seen := LoadLines(disk, now);
    if order.Err? {
      return Err(order.error);
    }
    var cache := new Cache(cfg, State(seen, order.value, 0, disk));
    if |disk| > COMPACT_LINES && |cache.seen| * 2 < |disk| {
      cache.RewriteJournal();
      cache.linesWritten := 0;
    } else {
      cache.linesWritten := |disk|;
    }
    return Ok(cache);
  }

  // ---- Facts about the list functions ----

  lemma {:induction false} EntriesSnoc(disk: seq<DiskLine>, line: DiskLine)
    ensures Entries(disk + [line]) == Entries(disk) + if line.Reserved? then [line.entry] else []
  {
    var all := disk + [line];
    if disk == [] {
      assert all == [line] && all[1..] == [];
    } else {
      assert all[1..] == disk[1..] + [line] && all[0] == disk[0];
      EntriesSnoc(disk[1..], line);
    }
  }

  lemma {:induction false} EntriesOfLines(order: seq<Entry>)
    ensures Entries(Lines(order)) == order
    decreases |order|
  {
    if order != [] {
      assert Lines(order)[1..] == Lines(order[1..]);
      EntriesOfLines(order[1..]);
    }
  }

  lemma {:induction false} LinesConcat(width: Entry -> nat, a: seq<Entry>, b: seq<Entry>)
    ensures Lines(a + b) == Lines(a) + Lines(b)
    ensures Bytes(width, Lines(a + b)) == Bytes(width, Lines(a)) + Bytes(width, Lines(b))
  {
    BytesConcat(width, Lines(a), Lines(b));
  }

  lemma {:induction false} LinesSnoc(width: Entry -> nat, a: seq<Entry>, e: Entry)
    ensures Lines(a + [e]) == Lines(a) + [Reserved(e)]
    ensures Bytes(width, Lines(a + [e])) == Bytes(width, Lines(a)) + width(e)
  {
    LinesConcat(width, a, [e]);
    assert Lines([e]) == [Reserved(e)];
    assert Bytes(width, [Reserved(e)]) == width(e);
  }

  lemma {:induction false} AliveConcat(a: seq<Entry>, b: seq<Entry>, now: int)
    ensures Alive(a + b, now) == Alive(a, now) + Alive(b, now)
    decreases |a|
  {
    if a == [] {
      assert a + b == b;
    } else {
      assert (a + b)[1..] == a[1..] + b;
      AliveConcat(a[1..], b, now);
    }
  }

  lemma {:induction false} AliveLater(es: seq<Entry>, t: int, now: int)
    requires t <= now
    ensures Alive(Alive(es, t), now) == Alive(es, now)
    decreases |es|
  {
    if es != [] {
      AliveLater(es[1..], t, now);
      AliveConcat(if es[0].expires > t then [es[0]] else [], Alive(es[1..], t), now);
    }
  }

  lemma {:induction false} AliveWhenAllAre(es: seq<Entry>, now: int)
    requires forall e :: e in es ==> e.expires > now
    ensures Alive(es, now) == es
    decreases |es|
  {
    if es != [] {
      AliveWhenAllAre(es[1..], now);
    }
  }

  lemma {:induction false} AliveIsShorter(es: seq<Entry>, now: int)
    ensures |Alive(es, now)| <= |es|
    decreases |es|
  {
    if es != [] {
      AliveIsShorter(es[1..], now);
    }
  }

  lemma {:induction false} AliveMembers(es: seq<Entry>, now: int)
    ensures forall e :: e in Alive(es, now) <==> e in es && e.expires > now
    decreases |es|
  {
    if es != [] {
      AliveMembers(es[1..], now);
      assert forall e :: e in es <==> e == es[0] || e in es[1..];
    }
  }

  lemma {:induction false} AliveSorted(es: seq<Entry>, now: int)
    requires Sorted(es)
    ensures Sorted(Alive(es, now))
    decreases |es|
  {
    if es != [] {
      AliveSorted(es[1..], now);
      AliveMembers(es[1..], now);
      var rest := Alive(es[1..], now);
      forall k | 0 <= k < |rest| ensures es[0].expires <= rest[k].expires {
        assert rest[k] in es[1..];
      }
    }
  }

  lemma {:induction false} AliveDistinct(es: seq<Entry>, now: int)
    requires Distinct(es)
    ensures Distinct(Alive(es, now))
    decreases |es|
  {
    if es != [] {
      AliveDistinct(es[1..], now);
      AliveMembers(es[1..], now);
      var rest := Alive(es[1..], now);
      forall k | 0 <= k < |rest| ensures es[0].Key() != rest[k].Key() {
        assert rest[k] in es[1..];
      }
    }
  }

  lemma {:induction false} BytesConcat(width: Entry -> nat, a: seq<DiskLine>, b: seq<DiskLine>)
    ensures Bytes(width, a + b) == Bytes(width, a) + Bytes(width, b)
    decreases |a|
  {
    if a == [] {
      assert a + b == b;
    } else {
      assert (a + b)[1..] == a[1..] + b;
      BytesConcat(width, a[1..], b);
    }
  }

  /** Rewriting only the entries in force never takes more room than the file they came from. */
  lemma {:induction false} AliveTakesLess(width: Entry -> nat, disk: seq<DiskLine>, now: int)
    ensures Bytes(width, Lines(Alive(Entries(disk), now))) <= Bytes(width, disk)
    decreases |disk|
  {
    if disk != [] {
      AliveTakesLess(width, disk[1..], now);
      var head := if disk[0].Reserved? then [disk[0].entry] else [];
      AliveConcat(head, Entries(disk[1..]), now);
      var a, b := Alive(head, now), Alive(Entries(disk[1..]), now);
      LinesConcat(width, a, b);
      assert Bytes(width, Lines(a)) <= LineBytes(width, disk[0]);
    }
  }

  /** What loading a journal leaves in memory and on disk. */
  lemma {:induction false} LoadedIs(disk: seq<DiskLine>, now: int)
    ensures Loaded(disk, now).order == Alive(Entries(disk), now)
    ensures Loaded(disk, now).seen == IndexOf(Alive(Entries(disk), now))
    ensures Loadable(disk) ==> Loadable(Loaded(disk, now).disk)
    ensures Alive(Entries(Loaded(disk, now).disk), now) == Alive(Entries(disk), now)
  {
    EntriesOfLines(Alive(Entries(disk), now));
    AliveLater(Entries(disk), now, now);
  }

  // ---- What every operation keeps ----

  ghost predicate Sorted(es: seq<Entry>) {
    forall i, j :: 0 <= i < j < |es| ==> es[i].expires <= es[j].expires
  }

  ghost predicate Distinct(es: seq<Entry>) {
    forall i, j :: 0 <= i < j < |es| ==> es[i].Key() != es[j].Key()
  }

  /** In expiry order, each key once, and nothing in force beyond the horizon. */
  ghost predicate Shape(es: seq<Entry>, horizon: int) {
    && Sorted(es)
    && Distinct(es)
    && forall e :: e in es ==> e.expires <= horizon
  }

  /**
   * The invariant of a cache last used at time `t` with constant retention. The map is the queue's
   * index, so both hold the same distinct keys. The journal's unexpired entries are the queue's and
   * then at most one ghost: a refused nonce that the compaction before its refusal wrote, present
   * only while the file is over its cap.
   */
  ghost predicate Inv(cfg: Config, retention: int, s: State, t: int, ghosts: seq<Entry>) {
    && s.seen == IndexOf(s.order)
    && Shape(s.order + ghosts, SaturatingAdd(t, retention))
    && |ghosts| <= 1
    && (ghosts != [] ==> Bytes(cfg.width, s.disk) > cfg.cap)
    && (cfg.persisted ==> Loadable(s.disk) && Alive(Entries(s.disk), t) == Alive(s.order + ghosts, t))
  }

  // ---- Facts about the shape ----

  lemma {:induction false} ShapeAlive(es: seq<Entry>, horizon: int, now: int)
    requires Shape(es, horizon)
    ensures Shape(Alive(es, now), horizon)
  {
    AliveSorted(es, now);
    AliveDistinct(es, now);
    AliveMembers(es, now);
  }

  lemma {:induction false} ShapeFront(a: seq<Entry>, b: seq<Entry>, horizon: int)
    requires Shape(a + b, horizon)
    ensures Shape(a, horizon)
  {
    assert a == (a + b)[..|a|];
    assert forall i :: 0 <= i < |a| ==> a[i] == (a + b)[i];
  }

  /** A new reservation goes to the back: nothing in force expires later. */
  lemma {:induction false} ShapeSnoc(es: seq<Entry>, horizon: int, e: Entry)
    requires Shape(es, horizon) && horizon <= e.expires && e.Key() !in IndexOf(es)
    ensures Shape(es + [e], e.expires)
  {
    IndexKeys(es);
    forall k | 0 <= k < |es|
      ensures es[k].Key() != e.Key() && es[k].expires <= e.expires
    {
      assert es[k] in es;
    }
  }

  lemma {:induction false} IndexKeys(es: seq<Entry>)
    ensures forall e :: e in es ==> e.Key() in IndexOf(es)
    ensures forall k :: k in IndexOf(es) ==> exists e :: e in es && e.Key() == k
    decreases |es|
  {
    if es != [] {
      var front, last := es[..|es| - 1], es[|es| - 1];
      IndexKeys(front);
      assert es == front + [last];
      forall k | k in IndexOf(es) ensures exists e :: e in es && e.Key() == k {
        if k == last.Key() {
          assert last in es;
        } else {
          var e :| e in front && e.Key() == k;
          assert e in es;
        }
      }
    }
  }

  lemma {:induction false} IndexSnoc(es: seq<Entry>, e: Entry)
    ensures IndexOf(es + [e]) == IndexOf(es)[e.Key() := e.expires]
  {
    assert (es + [e])[..|es|] == es;
  }

  /** Distinct keys: taking out the first entry takes exactly its key out of the index. */
  lemma {:induction false} IndexDropFirst(es: seq<Entry>)
    requires es != [] && Distinct(es)
    ensures IndexOf(es[1..]) == IndexOf(es) - {es[0].Key()}
    decreases |es|
  {
    var front, last := es[..|es| - 1], es[|es| - 1];
    if |es| == 1 {
      assert es[1..] == [] && front == [];
    } else {
      IndexDropFirst(front);
      assert es[1..][..|es| - 2] == front[1..];
      assert es[1..] == front[1..] + [last];
      IndexSnoc(front[1..], last);
      assert front[0] == es[0] && es[0].Key() != last.Key();
    }
  }
}

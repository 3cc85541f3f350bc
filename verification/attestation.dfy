/** The attestation front door: the verification sequence and its freshness arithmetic. */
module Attestation {
  import opened Text
  import opened ReplayCache
  import ReplayRuns
  import ReplayStale

  // ---- Time ----

  /** Instants are nanoseconds from the Unix epoch. */
  const NANOS: int := 1_000_000_000

  /** Instants the date-time type can hold: years -9999 to 9999. */
  predicate Representable(t: int) {
    -377_705_116_800 * NANOS <= t < 253_402_300_800 * NANOS
  }

  /** Whole seconds of a duration, truncated toward zero. */
  function WholeSeconds(d: int): int {
    if d >= 0 then d / NANOS else -((-d) / NANOS)
  }

  /** Unix seconds of an instant, floored. */
  function UnixSeconds(t: int): int { t / NANOS }

  function Abs(n: int): int { if n < 0 then -n else n }

  // ---- Messages ----

  datatype Stamp = NoStamp | Malformed | Issued(at: int)

  /** The envelope fields verification reads; `rest` is everything else the signature covers. */
  datatype Message =
    | NotAnObject
    | Object(version: Option<string>, agent: Option<string>, issuedAt: Stamp, nonce: Option<string>, rest: string)

  datatype IdentityError =
    | UnsupportedVersion
    | UnknownAgent
    | Replay(why: ReplayReason)
    | BadSignature

  datatype ReplayReason = MissingStamp | UnparsableStamp | OutsideSkew | MissingNonce | NonceUsed | AtCapacity

  datatype Verified = Verified(agent: string, issuedAt: int, nonce: string)

  /** `signed(key, m)` holds when `m` carries a signature over its canonical form that verifies under `key`. */
  datatype Identity = Identity(enrolled: map<string, nat>, skew: int, signed: (nat, Message) -> bool)

  // ---- The checks ----

  const EXPECTED_MAJOR: string := "0"

  predicate SupportedVersion(version: Option<string>) {
    version.Some? &&
    var parts := Split(version.value, '.');
    |parts| == 2 && parts[0] == EXPECTED_MAJOR
  }

  /** Major `0` with any one minor component. */
  lemma SupportedVersions(v: string)
    ensures SupportedVersion(Some(v)) <==> exists minor: string :: v == "0." + minor && '.' !in minor
  {
    var parts := Split(v, '.');
    if SupportedVersion(Some(v)) {
      assert parts[1..] == [parts[1]];
      assert v == parts[0] + ['.'] + Join([parts[1]], ['.']);
      assert v == "0." + parts[1];
    }
    if minor: string :| v == "0." + minor && '.' !in minor {
      var two := ["0", minor];
      assert two[1..] == [minor];
      assert Join(two, ['.']) == "0" + ['.'] + minor == v;
      SplitOfJoin(two, '.');
    }
  }

  function CheckFreshness(stamp: Stamp, now: int, skew: int): Result<int, IdentityError> {
    match stamp
    case NoStamp => Err(Replay(MissingStamp))
    case Malformed => Err(Replay(UnparsableStamp))
    case Issued(at) => if Abs(WholeSeconds(now - at)) > skew then Err(Replay(OutsideSkew)) else Ok(at)
  }

  /** Truncation makes the window open at just under one second past the skew, on both sides. */
  lemma FreshnessWindow(at: int, now: int, skew: int)
    ensures CheckFreshness(Issued(at), now, skew).Ok? <==> Abs(now - at) < (skew + 1) * NANOS
  {
    var d := Abs(now - at);
    assert Abs(WholeSeconds(now - at)) == d / NANOS;
    assert d / NANOS > skew <==> d >= (skew + 1) * NANOS;
  }

  function Retention(skew: int): int {
    if skew * 3 > MAX_I64 then MAX_I64 else if skew * 3 < MIN_I64 then MIN_I64 else skew * 3
  }

  /** The retention is the 64-bit number nearest to three times the skew. */
  lemma RetentionIsNearest(skew: int, other: int)
    ensures Word64(Retention(skew))
    ensures Word64(other) && other != Retention(skew) ==>
              || (skew * 3 <= Retention(skew) < other) || (other < Retention(skew) <= skew * 3)
              || Retention(skew) == skew * 3
  {
  }

  /** Everything before the nonce is looked up. */
  function Preliminary(id: Identity, m: Message, now: int): Result<Verified, IdentityError> {
    if m.NotAnObject? then Err(BadSignature)
    else if !SupportedVersion(m.version) then Err(UnsupportedVersion)
    else if m.agent.None? || m.agent.value == "" || m.agent.value !in id.enrolled then Err(UnknownAgent)
    else
      var issued := CheckFreshness(m.issuedAt, now, id.skew);
      if issued.Err? then Err(issued.error)
      else if m.nonce.None? || m.nonce.value == "" then Err(Replay(MissingNonce))
      else Ok(Verified(m.agent.value, issued.value, m.nonce.value))
  }

  /** The first check that fails decides; the nonce is reserved before the signature is looked at. */
  function Verify(id: Identity, cfg: Config, s: State, m: Message, now: int): (State, Result<Verified, IdentityError>) {
    var v := Preliminary(id, m, now);
    if v.Err? then (s, v)
    else
      var (q, r) := Reserve(cfg, s, v.value.agent, v.value.nonce, UnixSeconds(now), Retention(id.skew));
      match r
      case Duplicate => (q, Err(Replay(NonceUsed)))
      case CapacityFull => (q, Err(Replay(AtCapacity)))
      case Fresh => (q, if id.signed(id.enrolled[v.value.agent], m) then v else Err(BadSignature))
  }

  class Attestor {
    const id: Identity
    const cache: Cache

    constructor (id: Identity, cache: Cache)
      ensures this.id == id && this.cache == cache
    {
      this.id := id;
      this.cache := cache;
    }

    method VerifyMessage(m: Message, now: int) returns (r: Result<Verified, IdentityError>)
      modifies cache
      ensures (cache.Snapshot(), r) == Verify(id, cache.cfg, old(cache.Snapshot()), m, now)
    {
      if m.NotAnObject? { return Err(BadSignature); }
      if !SupportedVersion(m.version) { return Err(UnsupportedVersion); }
      if m.agent.None? || m.agent.value == "" { return Err(UnknownAgent); }
      var agent := m.agent.value;
      if agent !in id.enrolled { return Err(UnknownAgent); }
      var key := id.enrolled[agent];
      var issued := CheckFreshness(m.issuedAt, now, id.skew);
      if issued.Err? { return Err(issued.error); }
      if m.nonce.None? || m.nonce.value == "" { return Err(Replay(MissingNonce)); }
      var reservation := cache.CheckAndReserve(agent, m.nonce.value, UnixSeconds(now), Retention(id.skew));
      match reservation
      case Duplicate => return Err(Replay(NonceUsed));
      case CapacityFull => return Err(Replay(AtCapacity));
      case Fresh =>
        if !id.signed(key, m) { return Err(BadSignature); }
        return Ok(Verified(agent, issued.value, m.nonce.value));
    }
  }

  // ---- What acceptance means ----

  /** A verdict names the enrolled, fresh, correctly signed message; nothing else is accepted. */
  lemma AcceptanceMeans(id: Identity, cfg: Config, s: State, m: Message, now: int)
    requires Verify(id, cfg, s, m, now).1.Ok?
    ensures var v := Verify(id, cfg, s, m, now).1.value;
            && m.Object? && m.agent == Some(v.agent) && m.nonce == Some(v.nonce) && m.issuedAt == Issued(v.issuedAt)
            && v.agent in id.enrolled && id.signed(id.enrolled[v.agent], m)
            && Abs(now - v.issuedAt) < (id.skew + 1) * NANOS
            && Reserve(cfg, s, v.agent, v.nonce, UnixSeconds(now), Retention(id.skew)).1 == Fresh
  {
    FreshnessWindow(m.issuedAt.at, now, id.skew);
  }

  /**
   * A message is accepted exactly when it is an object of major version 0 from an enrolled agent, issued within the
   * window, with a nonce that the cache did not hold and had room for, and signed with that agent's key.
   */
  lemma AcceptedExactly(id: Identity, cfg: Config, s: State, m: Message, now: int)
    ensures Verify(id, cfg, s, m, now).1.Ok? <==>
            && m.Object? && m.version.Some?
            && (exists minor: string :: m.version.value == "0." + minor && '.' !in minor)
            && m.agent.Some? && m.agent.value != "" && m.agent.value in id.enrolled
            && m.issuedAt.Issued? && Abs(now - m.issuedAt.at) < (id.skew + 1) * NANOS
            && m.nonce.Some? && m.nonce.value != ""
            && Reserve(cfg, s, m.agent.value, m.nonce.value, UnixSeconds(now), Retention(id.skew)).1 == Fresh
            && id.signed(id.enrolled[m.agent.value], m)
  {
    if m.Object? && m.version.Some? { SupportedVersions(m.version.value); }
    if m.Object? && m.issuedAt.Issued? { FreshnessWindow(m.issuedAt.at, now, id.skew); }
  }

  // ---- Runs ----

  /** A message arrives, or the daemon restarts over its journal. */
  datatype Call =
    | Deliver(m: Message, now: int)
    | Reboot(cap: nat, now: int)

  function Handle(id: Identity, w: ReplayRuns.World, c: Call): ReplayRuns.World {
    match c
    case Deliver(m, now) => w.(s := Verify(id, w.cfg, w.s, m, now).0)
    case Reboot(cap, now) => ReplayRuns.Step(Retention(id.skew), w, ReplayRuns.Restart(cap, UnixSeconds(now)))
  }

  function After(id: Identity, cfg: Config, calls: seq<Call>): ReplayRuns.World {
    if calls == [] then ReplayRuns.World(cfg, EMPTY)
    else Handle(id, After(id, cfg, calls[..|calls| - 1]), calls[|calls| - 1])
  }

  /** The verdict on the message delivered at index `i`. */
  function VerdictAt(id: Identity, cfg: Config, calls: seq<Call>, i: nat): Result<Verified, IdentityError>
    requires i < |calls| && calls[i].Deliver?
  {
    var w := After(id, cfg, calls[..i]);
    Verify(id, w.cfg, w.s, calls[i].m, calls[i].now).1
  }

  ghost predicate AcceptedAt(id: Identity, cfg: Config, calls: seq<Call>, i: nat)
    requires i < |calls|
  {
    calls[i].Deliver? && VerdictAt(id, cfg, calls, i).Ok?
  }

  /**
   * Every instant is representable. A call reads the clock before it takes the cache's lock, so its reading may be
   * up to `d` seconds older than one that came before it; a restart is in time order with everything around it.
   */
  ghost predicate Timely(calls: seq<Call>, d: nat) {
    && (forall i :: 0 <= i < |calls| ==> Representable(calls[i].now))
    && (forall i, j :: 0 <= i < j < |calls| ==> calls[i].now <= calls[j].now + d * NANOS)
    && InOrderAroundRestarts(calls)
  }

  ghost predicate InOrderAroundRestarts(calls: seq<Call>) {
    forall i, j :: 0 <= i < j < |calls| && (calls[i].Reboot? || calls[j].Reboot?) ==> calls[i].now <= calls[j].now
  }

  /** The replay-cache step of a call that gets that far. */
  function StepOf(id: Identity, c: Call): ReplayRuns.Event {
    match c
    case Reboot(cap, now) => ReplayRuns.Restart(cap, UnixSeconds(now))
    case Deliver(m, now) =>
      var v := Preliminary(id, m, now);
      if v.Ok? then ReplayRuns.Attempt(v.value.agent, v.value.nonce, UnixSeconds(now))
      else ReplayRuns.Attempt("", "", UnixSeconds(now))
  }

  /** One call is at most one replay-cache step, at the same second. */
  lemma CallIsAStep(id: Identity, w: ReplayRuns.World, c: Call)
    ensures StepOf(id, c).now == UnixSeconds(c.now) && (StepOf(id, c).Restart? <==> c.Reboot?)
    ensures Handle(id, w, c) == w || Handle(id, w, c) == ReplayRuns.Step(Retention(id.skew), w, StepOf(id, c))
  {
  }

  lemma SecondsFollowTime(t: int, now: int)
    requires t <= now
    ensures UnixSeconds(t) <= UnixSeconds(now)
  {
  }

  lemma {:induction false} ReachableIsSound(id: Identity, cfg: Config, calls: seq<Call>, t: int)
    requires cfg.persisted && InOrderAroundRestarts(calls)
    requires forall i :: 0 <= i < |calls| ==> calls[i].now <= t
    ensures ReplayStale.Sound(After(id, cfg, calls), UnixSeconds(t))
    decreases |calls|
  {
    if calls == [] {
      assert ReplayStale.Kept(cfg, EMPTY, UnixSeconds(t), []);
    } else {
      var front, last := calls[..|calls| - 1], calls[|calls| - 1];
      var latest := if last.Reboot? then last.now else t;
      assert forall i :: 0 <= i < |front| ==> front[i] == calls[i];
      ReachableIsSound(id, cfg, front, latest);
      CallIsSound(id, After(id, cfg, front), latest, last, t);
    }
  }

  lemma {:induction false} CallIsSound(id: Identity, w: ReplayRuns.World, latest: int, c: Call, t: int)
    requires ReplayStale.Sound(w, UnixSeconds(latest)) && latest <= t && c.now <= t && (c.Reboot? ==> latest <= c.now)
    ensures ReplayStale.Sound(Handle(id, w, c), UnixSeconds(t))
  {
    SecondsFollowTime(latest, t);
    SecondsFollowTime(c.now, t);
    if c.Reboot? { SecondsFollowTime(latest, c.now); }
    CallIsAStep(id, w, c);
    if Handle(id, w, c) == w {
      var ghosts :| ReplayStale.Kept(w.cfg, w.s, UnixSeconds(latest), ghosts);
      ReplayStale.LaterKept(w.cfg, w.s, UnixSeconds(latest), ghosts, UnixSeconds(t));
    } else {
      var ev := StepOf(id, c);
      ReplayStale.StepIsSound(Retention(id.skew), w, UnixSeconds(latest), ev, UnixSeconds(t));
    }
  }

  lemma {:induction false} CallKeepsKey(id: Identity, w: ReplayRuns.World, latest: int, c: Call, key: Key)
    requires ReplayStale.Sound(w, UnixSeconds(latest)) && (c.Reboot? ==> latest <= c.now)
    requires key in w.s.seen && UnixSeconds(c.now) < w.s.seen[key]
    ensures key in Handle(id, w, c).s.seen && Handle(id, w, c).s.seen[key] == w.s.seen[key]
  {
    if c.Reboot? { SecondsFollowTime(latest, c.now); }
    CallIsAStep(id, w, c);
    if Handle(id, w, c) != w {
      ReplayStale.StepKeepsKey(Retention(id.skew), w, UnixSeconds(latest), StepOf(id, c), key);
    }
  }

  lemma {:induction false} HeldAcross(id: Identity, cfg: Config, calls: seq<Call>, k: nat, t: int, key: Key)
    requires cfg.persisted && InOrderAroundRestarts(calls) && k < |calls|
    requires forall i :: 0 <= i < |calls| ==> calls[i].now <= t
    requires key in After(id, cfg, calls[..k]).s.seen
    requires UnixSeconds(calls[k].now) < After(id, cfg, calls[..k]).s.seen[key]
    ensures key in After(id, cfg, calls[..k + 1]).s.seen
    ensures After(id, cfg, calls[..k + 1]).s.seen[key] == After(id, cfg, calls[..k]).s.seen[key]
  {
    var front, last := calls[..k], calls[k];
    var latest := if last.Reboot? then last.now else t;
    assert forall i :: 0 <= i < |front| ==> front[i] == calls[i];
    ReachableIsSound(id, cfg, front, latest);
    CallKeepsKey(id, After(id, cfg, front), latest, last, key);
    assert calls[..k + 1][..k] == front;
  }

  /** A reserved nonce stays reserved through deliveries and restarts until a reading reaches its expiry. */
  lemma {:induction false} HeldUntilExpiry(
    id: Identity, cfg: Config, calls: seq<Call>, i: nat, j: nat, t: int, key: Key, expiry: int)
    requires cfg.persisted && InOrderAroundRestarts(calls) && i <= j <= |calls|
    requires forall k :: 0 <= k < |calls| ==> calls[k].now <= t
    requires key in After(id, cfg, calls[..i]).s.seen && After(id, cfg, calls[..i]).s.seen[key] == expiry
    requires forall k :: i <= k < j ==> UnixSeconds(calls[k].now) < expiry
    ensures key in After(id, cfg, calls[..j]).s.seen && After(id, cfg, calls[..j]).s.seen[key] == expiry
    decreases j - i
  {
    if i < j {
      HeldUntilExpiry(id, cfg, calls, i, j - 1, t, key, expiry);
      HeldAcross(id, cfg, calls, j - 1, t, key);
    }
  }

  /** An accepted message's nonce is reserved until three skews past the second of acceptance. */
  lemma {:induction false} AcceptanceReserves(id: Identity, cfg: Config, calls: seq<Call>, i: nat)
    requires i < |calls| && AcceptedAt(id, cfg, calls, i)
    ensures var v := VerdictAt(id, cfg, calls, i).value;
            var seen := After(id, cfg, calls[..i + 1]).s.seen;
            && (v.agent, v.nonce) in seen
            && seen[(v.agent, v.nonce)] == SaturatingAdd(UnixSeconds(calls[i].now), Retention(id.skew))
  {
    var w := After(id, cfg, calls[..i]);
    var v := VerdictAt(id, cfg, calls, i).value;
    assert calls[..i + 1][..i] == calls[..i];
    ReplayRuns.ReserveCases(w.cfg, w.s, v.agent, v.nonce, UnixSeconds(calls[i].now), Retention(id.skew));
  }

  /** A nonce in force when a message with it is judged: the message is not accepted. */
  lemma {:induction false} InForceIsRefused(id: Identity, cfg: Config, calls: seq<Call>, j: nat, t: int, key: Key)
    requires cfg.persisted && InOrderAroundRestarts(calls) && j < |calls| && calls[j].Deliver?
    requires forall k :: 0 <= k < |calls| ==> calls[k].now <= t
    requires key in After(id, cfg, calls[..j]).s.seen
    requires UnixSeconds(calls[j].now) < After(id, cfg, calls[..j]).s.seen[key]
    requires calls[j].m.Object? && calls[j].m.agent == Some(key.0) && calls[j].m.nonce == Some(key.1)
    ensures !AcceptedAt(id, cfg, calls, j)
  {
    var front := calls[..j];
    assert forall i :: 0 <= i < |front| ==> front[i] == calls[i];
    ReachableIsSound(id, cfg, front, t);
    NonceInForce(id, After(id, cfg, front), UnixSeconds(t), calls[j].m, calls[j].now, key);
  }

  lemma {:induction false} NonceInForce(
    id: Identity, w: ReplayRuns.World, latest: int, m: Message, now: int, key: Key)
    requires ReplayStale.Sound(w, latest) && key in w.s.seen && UnixSeconds(now) < w.s.seen[key]
    requires m.Object? && m.agent == Some(key.0) && m.nonce == Some(key.1)
    ensures Verify(id, w.cfg, w.s, m, now).1.Err?
  {
    var attempt := ReplayRuns.Attempt(key.0, key.1, UnixSeconds(now));
    ReplayStale.StepKeepsKey(Retention(id.skew), w, latest, attempt, key);
  }

  /** Every reading up to the second acceptance falls short of the first reservation's expiry. */
  lemma GapIsCovered(skew: int, d: nat, at: int, first: int, second: int, read: int)
    requires skew >= d + 3 && Representable(first) && Representable(read) && read <= second + d * NANOS
    requires Abs(first - at) < (skew + 1) * NANOS && Abs(second - at) < (skew + 1) * NANOS
    ensures UnixSeconds(read) < SaturatingAdd(UnixSeconds(first), Retention(skew))
  {
    assert read - first < (2 * skew + 2 + d) * NANOS;
    assert UnixSeconds(read) <= UnixSeconds(first) + 2 * skew + 2 + d;
  }

  lemma LatestReading(calls: seq<Call>) returns (t: int)
    ensures forall i :: 0 <= i < |calls| ==> calls[i].now <= t
  {
    t := 0;
    for n := 0 to |calls|
      invariant forall i :: 0 <= i < n ==> calls[i].now <= t
    {
      if calls[n].now > t { t := calls[n].now; }
    }
  }

  /** No acceptance if the skew is negative: nothing is ever fresh. */
  lemma {:induction false} StampOf(id: Identity, cfg: Config, calls: seq<Call>, i: nat)
    requires i < |calls| && AcceptedAt(id, cfg, calls, i)
    ensures id.skew >= 0
    ensures var m, v := calls[i].m, VerdictAt(id, cfg, calls, i).value;
            && m.Object? && m.agent == Some(v.agent) && m.nonce == Some(v.nonce) && m.issuedAt == Issued(v.issuedAt)
            && Abs(calls[i].now - v.issuedAt) < (id.skew + 1) * NANOS
  {
    var w := After(id, cfg, calls[..i]);
    AcceptanceMeans(id, w.cfg, w.s, calls[i].m, calls[i].now);
  }

  /** With readings at most `d` seconds stale, the same agent, nonce and issue time is accepted at most once. */
  lemma {:induction false} AcceptedOnce(id: Identity, cfg: Config, calls: seq<Call>, d: nat, i: nat, j: nat)
    requires cfg.persisted && Timely(calls, d) && i < j < |calls|
    requires id.skew < 0 || id.skew >= d + 3
    requires calls[i].Deliver? && calls[j].Deliver? && SameIntent(calls[i].m, calls[j].m)
    ensures !(AcceptedAt(id, cfg, calls, i) && AcceptedAt(id, cfg, calls, j))
  {
    if AcceptedAt(id, cfg, calls, i) && AcceptedAt(id, cfg, calls, j) {
      StampOf(id, cfg, calls, i);
      StampOf(id, cfg, calls, j);
      SecondIsRefused(id, cfg, calls, d, i, j);
    }
  }

  lemma {:induction false} SecondIsRefused(id: Identity, cfg: Config, calls: seq<Call>, d: nat, i: nat, j: nat)
    requires cfg.persisted && Timely(calls, d) && i < j < |calls| && id.skew >= d + 3
    requires AcceptedAt(id, cfg, calls, i) && calls[j].Deliver? && SameIntent(calls[i].m, calls[j].m)
    requires var at := VerdictAt(id, cfg, calls, i).value.issuedAt;
             && Abs(calls[i].now - at) < (id.skew + 1) * NANOS && Abs(calls[j].now - at) < (id.skew + 1) * NANOS
    ensures !AcceptedAt(id, cfg, calls, j)
  {
    StampOf(id, cfg, calls, i);
    var v := VerdictAt(id, cfg, calls, i).value;
    var key, expiry := (v.agent, v.nonce), SaturatingAdd(UnixSeconds(calls[i].now), Retention(id.skew));
    AcceptanceReserves(id, cfg, calls, i);
    var t := LatestReading(calls);
    forall k | i + 1 <= k <= j ensures UnixSeconds(calls[k].now) < expiry {
      GapIsCovered(id.skew, d, v.issuedAt, calls[i].now, calls[j].now, calls[k].now);
    }
    HeldUntilExpiry(id, cfg, calls, i + 1, j, t, key, expiry);
    InForceIsRefused(id, cfg, calls, j, t, key);
  }

  predicate SameIntent(m: Message, n: Message) {
    m.Object? && n.Object? && m.agent == n.agent && m.nonce == n.nonce && m.issuedAt == n.issuedAt
  }

  /** No persisted gateway with this skew ever accepts one intent twice, with readings at most `d` seconds stale. */
  ghost predicate SingleUse(skew: int, d: nat) {
    forall id: Identity, cfg: Config, calls: seq<Call>, i: nat, j: nat
      {:trigger Repeats(id, cfg, calls, skew, d, i, j)} :: !Repeats(id, cfg, calls, skew, d, i, j)
  }

  ghost predicate Repeats(id: Identity, cfg: Config, calls: seq<Call>, skew: int, d: nat, i: nat, j: nat) {
    && id.skew == skew && cfg.persisted && Timely(calls, d) && i < j < |calls|
    && calls[i].Deliver? && calls[j].Deliver? && SameIntent(calls[i].m, calls[j].m)
    && AcceptedAt(id, cfg, calls, i) && AcceptedAt(id, cfg, calls, j)
  }

  // ---- The bound is tight ----

  function AnySignature(key: nat, m: Message): bool { true }

  /** With room for two lines, a nonce that is not held is reserved. */
  lemma {:induction false} RoomForOne(cfg: Config, line: nat, s: State, a: string, n: string, now: int, ret: int)
    requires (forall e: Entry :: cfg.width(e) <= line) && 2 * line <= cfg.cap
    requires |Purged(s, now).order| <= 1 && (a, n) !in Purged(s, now).seen
    ensures var (q, r) := Reserve(cfg, s, a, n, now, ret);
            && r == Fresh && q.order == Purged(s, now).order + [Entry(a, n, SaturatingAdd(now, ret))]
            && q.seen == Purged(s, now).seen[(a, n) := SaturatingAdd(now, ret)]
  {
    var p, e := Purged(s, now), Entry(a, n, SaturatingAdd(now, ret));
    ReplayRuns.ReserveCases(cfg, s, a, n, now, ret);
    LinesSnoc(cfg.width, p.order, e);
    if p.order == [] {
      assert Lines(p.order) == [];
    } else {
      assert p.order == [] + [p.order[0]] && Lines([]) == [];
      LinesSnoc(cfg.width, [], p.order[0]);
    }
  }

  /** A reservation that a later reading has purged does not stop a second one at an older reading. */
  lemma {:induction false} ReservedTwice(
    cfg: Config, line: nat, a: string, n: string, other: string, ret: int, late: int, again: int)
    requires (forall e: Entry :: cfg.width(e) <= line) && 2 * line <= cfg.cap
    requires n != other && 0 <= ret <= late && ret <= MAX_I64
    ensures var one := Reserve(cfg, EMPTY, a, n, 0, ret);
            var two := Reserve(cfg, one.0, a, other, late, ret);
            one.1 == Fresh && two.1 == Fresh && Reserve(cfg, two.0, a, n, again, ret).1 == Fresh
  {
    RoomForOne(cfg, line, EMPTY, a, n, 0, ret);
    var one := Reserve(cfg, EMPTY, a, n, 0, ret).0;
    assert one.order == [Entry(a, n, ret)] && one.order[1..] == [];
    assert Purged(one, late).order == [] && Purged(one, late).seen == map[];
    RoomForOne(cfg, line, one, a, other, late, ret);
    var two := Reserve(cfg, one, a, other, late, ret).0;
    assert two.seen == map[(a, other) := SaturatingAdd(late, ret)] && |two.order| == 1;
    OnePurged(two, again);
    RoomForOne(cfg, line, two, a, n, again, ret);
  }

  lemma {:induction false} OnePurged(s: State, now: int)
    requires |s.order| == 1
    ensures |Purged(s, now).order| <= 1 && Purged(s, now).seen.Keys <= s.seen.Keys
  {
    if s.order[0].expires <= now {
      var rest := s.(seen := s.seen - {s.order[0].Key()}, order := s.order[1..]);
      assert rest.order == [] && Purged(rest, now) == rest;
    }
  }

  /** Staleness in seconds up to some thirty years keeps every instant used here representable. */
  const LONGEST_STALENESS: nat := 1_000_000_000

  /** Just inside the early edge of its window, past its expiry by a reading ahead, just inside the late edge. */
  lemma {:induction false} AtTheEdges(skew: int, d: nat) returns (at: int, first: int, ahead: int, second: int)
    requires 0 <= skew <= d + 2 && d <= LONGEST_STALENESS
    ensures CheckFreshness(Issued(at), first, skew) == CheckFreshness(Issued(at), second, skew) == Ok(at)
    ensures CheckFreshness(Issued(ahead), ahead, skew) == Ok(ahead)
    ensures UnixSeconds(first) == 0 && Retention(skew) == 3 * skew <= UnixSeconds(ahead)
    ensures first <= second <= ahead <= second + d * NANOS
    ensures Representable(first) && Representable(second) && Representable(ahead)
  {
    first := NANOS - 1;
    at := first + (skew + 1) * NANOS - 1;
    second := at + (skew + 1) * NANOS - 1;
    ahead := second + (if skew <= 2 then 0 else skew - 2) * NANOS;
    FreshnessWindow(at, first, skew);
    FreshnessWindow(at, second, skew);
    FreshnessWindow(ahead, ahead, skew);
    assert UnixSeconds(second) == 2 * skew + 2;
  }

  lemma {:induction false} ThreeDeliveries(id: Identity, cfg: Config, a: Call, b: Call, c: Call)
    requires a.Deliver? && b.Deliver? && c.Deliver?
    ensures var one := Verify(id, cfg, EMPTY, a.m, a.now);
            var two := Verify(id, cfg, one.0, b.m, b.now);
            && VerdictAt(id, cfg, [a, b, c], 0) == one.1
            && VerdictAt(id, cfg, [a, b, c], 2) == Verify(id, cfg, two.0, c.m, c.now).1
  {
    var calls := [a, b, c];
    assert calls[..0] == [] && calls[..1] == [] + [a] && calls[..2] == [a] + [b];
    AfterSnoc(id, cfg, [], a);
    AfterSnoc(id, cfg, [a], b);
    assert [] + [a] == [a];
  }

  lemma {:induction false} AfterSnoc(id: Identity, cfg: Config, calls: seq<Call>, c: Call)
    ensures After(id, cfg, calls + [c]) == Handle(id, After(id, cfg, calls), c)
  {
    assert (calls + [c])[..|calls|] == calls;
  }

  /** For every cap that holds two lines and every skew below the bound, a run that accepts one message twice. */
  lemma {:induction false} SmallSkewAcceptsTwice(
    skew: int, d: nat, cfg: Config, line: nat, v: string, a: string, n: string, other: string)
    returns (id: Identity, calls: seq<Call>)
    requires 0 <= skew <= d + 2 && d <= LONGEST_STALENESS
    requires cfg.persisted && (forall e: Entry :: cfg.width(e) <= line) && 2 * line <= cfg.cap
    requires SupportedVersion(Some(v)) && a != "" && n != "" && other != "" && other != n
    ensures |calls| == 3 && Repeats(id, cfg, calls, skew, d, 0, 2)
  {
    var at, first, ahead, second := AtTheEdges(skew, d);
    id := Identity(map[a := 0], skew, AnySignature);
    var m := Object(Some(v), Some(a), Issued(at), Some(n), "");
    var m2 := Object(Some(v), Some(a), Issued(ahead), Some(other), "");
    calls := [Deliver(m, first), Deliver(m2, ahead), Deliver(m, second)];
    ReservedTwice(cfg, line, a, n, other, 3 * skew, UnixSeconds(ahead), UnixSeconds(second));
    AcceptedAround(id, cfg, m, m2, first, ahead, second);
    ThreeTimely(calls, d);
  }

  /** A message, another, and the first again, each admitted by the cache. */
  lemma {:induction false} AcceptedAround(
    id: Identity, cfg: Config, m: Message, m2: Message, first: int, ahead: int, second: int)
    requires Admissible(id, m, first) && Admissible(id, m2, ahead) && Admissible(id, m, second)
    requires UnixSeconds(first) == 0
    requires var ret := Retention(id.skew);
             var one := Reserve(cfg, EMPTY, m.agent.value, m.nonce.value, 0, ret);
             var two := Reserve(cfg, one.0, m2.agent.value, m2.nonce.value, UnixSeconds(ahead), ret);
             && one.1 == Fresh
             && Reserve(cfg, two.0, m.agent.value, m.nonce.value, UnixSeconds(second), ret).1 == Fresh
    ensures var calls := [Deliver(m, first), Deliver(m2, ahead), Deliver(m, second)];
            AcceptedAt(id, cfg, calls, 0) && AcceptedAt(id, cfg, calls, 2)
  {
    ThreeDeliveries(id, cfg, Deliver(m, first), Deliver(m2, ahead), Deliver(m, second));
    var one := Reserve(cfg, EMPTY, m.agent.value, m.nonce.value, 0, Retention(id.skew)).0;
    var two := Reserve(cfg, one, m2.agent.value, m2.nonce.value, UnixSeconds(ahead), Retention(id.skew)).0;
    FreshIsAccepted(id, cfg, EMPTY, m, first);
    FreshIsAccepted(id, cfg, one, m2, ahead);
    FreshIsAccepted(id, cfg, two, m, second);
  }

  /** All but the nonce speaks for the message. */
  ghost predicate Admissible(id: Identity, m: Message, now: int) {
    && m.Object? && SupportedVersion(m.version) && m.agent.Some? && m.agent.value != ""
    && m.agent.value in id.enrolled && m.nonce.Some? && m.nonce.value != "" && id.signed == AnySignature
    && CheckFreshness(m.issuedAt, now, id.skew).Ok?
  }

  lemma {:induction false} FreshIsAccepted(id: Identity, cfg: Config, s: State, m: Message, now: int)
    requires Admissible(id, m, now)
    ensures var q := Reserve(cfg, s, m.agent.value, m.nonce.value, UnixSeconds(now), Retention(id.skew));
            Verify(id, cfg, s, m, now).0 == q.0 && (q.1 == Fresh ==> Verify(id, cfg, s, m, now).1.Ok?)
  {
  }

  lemma ThreeTimely(calls: seq<Call>, d: nat)
    requires |calls| == 3 && (forall i :: 0 <= i < 3 ==> calls[i].Deliver? && Representable(calls[i].now))
    requires calls[0].now <= calls[2].now <= calls[1].now <= calls[2].now + d * NANOS
    ensures Timely(calls, d)
  {
  }

  function HundredBytes(e: Entry): nat { 100 }

  /**
   * With readings at most `d` seconds stale, single use holds of every run if and only if the skew is at least
   * `d + 3` seconds (or accepts nothing).
   */
  lemma {:induction false} SingleUseExactly(skew: int, d: nat)
    requires d <= LONGEST_STALENESS
    ensures SingleUse(skew, d) <==> skew < 0 || skew >= d + 3
  {
    if skew < 0 || skew >= d + 3 {
      forall id: Identity, cfg: Config, calls: seq<Call>, i: nat, j: nat
        ensures !Repeats(id, cfg, calls, skew, d, i, j)
      {
        if Repeats(id, cfg, calls, skew, d, i, j) { AcceptedOnce(id, cfg, calls, d, i, j); }
      }
    } else {
      assert "0.1" == "0." + "1";
      SupportedVersions("0.1");
      var cfg := Config(true, 1000, HundredBytes);
      var id, calls := SmallSkewAcceptsTwice(skew, d, cfg, 100, "0.1", "a", "n", "o");
    }
  }

  // ---- Reservation precedes the signature check ----

  /** A message with a bad signature still uses up the nonce it names. */
  lemma BadSignatureBurnsNonce(id: Identity, cfg: Config, s: State, t: int, ghosts: seq<Entry>,
                               forged: Message, honest: Message, now: int, later: int)
    requires Inv(cfg, Retention(id.skew), s, t, ghosts) && t <= UnixSeconds(now) && now <= later
    requires Preliminary(id, forged, now).Ok? && Verify(id, cfg, s, forged, now).1 == Err(BadSignature)
    requires honest.Object? && honest.agent == forged.agent && honest.nonce == forged.nonce
    requires Preliminary(id, honest, later).Ok?
    requires UnixSeconds(later) < SaturatingAdd(UnixSeconds(now), Retention(id.skew))
    ensures Verify(id, cfg, Verify(id, cfg, s, forged, now).0, honest, later).1 == Err(Replay(NonceUsed))
  {
    var ret := Retention(id.skew);
    var v := Preliminary(id, forged, now).value;
    var q := Verify(id, cfg, s, forged, now).0;
    var after := ReplayRuns.ReserveRefines(cfg, ret, s, t, ghosts, v.agent, v.nonce, UnixSeconds(now));
    var again := ReplayRuns.ReserveRefines(cfg, ret, q, UnixSeconds(now), after, v.agent, v.nonce, UnixSeconds(later));
    assert (v.agent, v.nonce) in ReplayRuns.Unexpired(q.seen, UnixSeconds(later));
  }
}

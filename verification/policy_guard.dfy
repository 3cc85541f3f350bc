/** The policy integrity watch: polls the file on disk and halts the gateway at the first drift. */
module PolicyGuard {
  import opened Text
  import Gateway

  /** What one poll finds. */
  datatype Read = Content(bytes: string) | NotFound | Unreadable

  datatype Drift = Drift(observed: string, detail: string)

  datatype Observation = Consistent | Unconfirmed | Drifted(drift: Drift)

  /** The loaded document's hash, and the hash function. */
  datatype Watch = Watch(baseline: string, hash: string -> string)

  function CheckOnce(w: Watch, read: Read, priorFailures: nat): Observation {
    match read
    case Content(bytes) =>
      if w.hash(bytes) == w.baseline then Consistent else Drifted(Drift(w.hash(bytes), "content changed"))
    case NotFound => Drifted(Drift("", "file missing"))
    case Unreadable => if priorFailures >= 1 then Drifted(Drift("", "file unreadable")) else Unconfirmed
  }

  function Short(hex: string): string {
    if |hex| <= 16 then hex else hex[..16]
  }

  /** A hash is shown by its first sixteen digits, or whole if it is shorter. */
  lemma ShortShows(hex: string)
    ensures Short(hex) <= hex && |Short(hex)| <= 16 && (Short(hex) == hex <==> |hex| <= 16)
    ensures |hex| >= 16 ==> |Short(hex)| == 16
  {
    if |hex| > 16 { assert |Short(hex)| != |hex|; }
  }

  function Reason(w: Watch, d: Drift): string {
    "policy integrity guard: " + d.detail + " (loaded " + Short(w.baseline) + ", observed " + Short(d.observed) + ")"
  }

  /** `alerts` are the drifts recorded in the audit chain and sent to the feed. */
  datatype State = State(failures: nat, halt: Option<string>, alerts: seq<Drift>)

  function Tick(w: Watch, s: State, read: Read): State {
    if s.halt.Some? then s
    else
      match CheckOnce(w, read, s.failures)
      case Consistent => s.(failures := 0)
      case Unconfirmed => s.(failures := s.failures + 1)
      case Drifted(d) => s.(halt := Some(Reason(w, d)), alerts := s.alerts + [d])
  }

  function Ticks(w: Watch, s: State, polls: seq<Read>): State {
    if polls == [] then s else Tick(w, Ticks(w, s, polls[..|polls| - 1]), polls[|polls| - 1])
  }

  /** Halt, then the record and the broadcast. */
  method FireDrift(w: Watch, d: Drift, gateway: Gateway.Broker, alerts: seq<Drift>) returns (more: seq<Drift>)
    modifies gateway`haltReason
    ensures gateway.haltReason
            == (if old(gateway.haltReason).None? then Some(Reason(w, d)) else old(gateway.haltReason))
    ensures more == alerts + [d]
  {
    gateway.Halt(Reason(w, d));
    more := alerts + [d];
  }

  /** The polling loop, over the polls that happen before the watch is dropped. */
  method Run(w: Watch, polls: seq<Read>, gateway: Gateway.Broker) returns (alerts: seq<Drift>, failures: nat)
    modifies gateway`haltReason
    ensures State(failures, gateway.haltReason, alerts) == Ticks(w, State(0, old(gateway.haltReason), []), polls)
  {
    failures, alerts := 0, [];
    for i := 0 to |polls|
      invariant State(failures, gateway.haltReason, alerts)
                == Ticks(w, State(0, old(gateway.haltReason), []), polls[..i])
    {
      assert polls[..i + 1][..i] == polls[..i];
      if gateway.haltReason.Some? { continue; }
      match CheckOnce(w, polls[i], failures)
      case Consistent => failures := 0;
      case Unconfirmed => failures := failures + 1;
      case Drifted(d) => alerts := FireDrift(w, d, gateway, alerts);
    }
    assert polls[..|polls|] == polls;
  }

  // ---- When it fires ----

  /** Poll `i` shows a drift: changed, missing, or unreadable for the second time running. */
  predicate Shows(w: Watch, polls: seq<Read>, i: nat)
    requires i < |polls|
  {
    match polls[i]
    case Content(bytes) => w.hash(bytes) != w.baseline
    case NotFound => true
    case Unreadable => i > 0 && polls[i - 1].Unreadable?
  }

  /** What a drift at poll `i` is called. */
  function DriftAt(w: Watch, read: Read): Drift {
    match read
    case Content(bytes) => Drift(w.hash(bytes), "content changed")
    case NotFound => Drift("", "file missing")
    case Unreadable => Drift("", "file unreadable")
  }

  ghost predicate FirstAt(w: Watch, polls: seq<Read>, i: nat) {
    i < |polls| && Shows(w, polls, i) && forall k :: 0 <= k < i ==> !Shows(w, polls, k)
  }

  lemma {:induction false} ShowsBefore(w: Watch, polls: seq<Read>, i: nat)
    requires i < |polls| - 1
    ensures Shows(w, polls[..|polls| - 1], i) == Shows(w, polls, i)
  {
  }

  /** Before the first drift the watch has no alert, and counts exactly the last failed read. */
  lemma {:induction false} QuietUntilDrift(w: Watch, polls: seq<Read>)
    requires forall k :: 0 <= k < |polls| ==> !Shows(w, polls, k)
    ensures Ticks(w, State(0, None, []), polls)
         == State(if polls != [] && polls[|polls| - 1].Unreadable? then 1 else 0, None, [])
  {
    if polls != [] {
      var front := polls[..|polls| - 1];
      forall k | 0 <= k < |front| ensures !Shows(w, front, k) {
        ShowsBefore(w, polls, k);
      }
      QuietUntilDrift(w, front);
      assert !Shows(w, polls, |polls| - 1);
    }
  }

  /** The watch halts the gateway at exactly the first drift, with its reason, and alerts exactly once. */
  lemma {:induction false} FiresAtFirstDrift(w: Watch, polls: seq<Read>, i: nat)
    requires FirstAt(w, polls, i)
    ensures Ticks(w, State(0, None, []), polls).halt == Some(Reason(w, DriftAt(w, polls[i])))
    ensures Ticks(w, State(0, None, []), polls).alerts == [DriftAt(w, polls[i])]
    decreases |polls|
  {
    var front := polls[..|polls| - 1];
    if i == |polls| - 1 {
      forall k | 0 <= k < |front| ensures !Shows(w, front, k) {
        ShowsBefore(w, polls, k);
        assert !Shows(w, polls, k);
      }
      QuietUntilDrift(w, front);
    } else {
      forall k | 0 <= k <= i ensures Shows(w, front, k) == Shows(w, polls, k) {
        ShowsBefore(w, polls, k);
      }
      FiresAtFirstDrift(w, front, i);
    }
  }

  lemma {:induction false} FirstOf(w: Watch, polls: seq<Read>, i: nat) returns (first: nat)
    requires i < |polls| && Shows(w, polls, i)
    ensures first <= i && FirstAt(w, polls, first)
  {
    if k :| 0 <= k < i && Shows(w, polls, k) {
      first := FirstOf(w, polls, k);
    } else {
      first := i;
    }
  }

  /** It halts if and only if some poll shows a drift. */
  lemma {:induction false} HaltsExactly(w: Watch, polls: seq<Read>)
    ensures Ticks(w, State(0, None, []), polls).halt.Some? <==> exists i :: 0 <= i < |polls| && Shows(w, polls, i)
  {
    if i :| 0 <= i < |polls| && Shows(w, polls, i) {
      var first := FirstOf(w, polls, i);
      FiresAtFirstDrift(w, polls, first);
    } else {
      QuietUntilDrift(w, polls);
    }
  }

  /** A gateway that is already halted stays as it is: no alert, and the earlier reason. */
  lemma {:induction false} HaltedWatchDoesNothing(w: Watch, s: State, polls: seq<Read>)
    requires s.halt.Some?
    ensures Ticks(w, s, polls) == s
  {
    if polls != [] { HaltedWatchDoesNothing(w, s, polls[..|polls| - 1]); }
  }
}

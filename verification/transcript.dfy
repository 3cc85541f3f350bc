/** The transcript sidecar: the same seal, driven by a writer that builds and seals in two lock sections. */
module Transcript {
  import opened Text
  import opened JournalText
  import opened AuditChain
  import opened AuditWriter
  import Hex

  datatype CreateError = AlreadyExists

  class TranscriptWriter {
    var number: nat
    var prev: seq<Byte>
    var file: string
    const c: Crypto

    function Snapshot(): Writer
      reads this
    {
      Writer(number, prev, file)
    }

    constructor (c: Crypto)
      ensures this.c == c && Snapshot() == Writer(0, Zeros(c), "")
    {
      this.c := c;
      number, prev, file := 0, Zeros(c), "";
    }

    /** First lock section: the body names the position found now. */
    method Build(event: Body) returns (b: Body)
      ensures b == Stamped(Next(number), prev, event)
    {
      b := Stamped(Next(number), prev, event);
    }

    /** Second lock section: seal over the position found by then. */
    method SealAndWriteBody(b: Body) returns (r: Option<Tail>)
      modifies this
      ensures r.None? <==> FieldNat(b, Seq).None?
      ensures r.None? ==> Snapshot() == old(Snapshot())
      ensures r.Some? ==> Snapshot() == SealAndWrite(c, old(Snapshot()), b, FieldNat(b, Seq).value)
      ensures r.Some? ==> r.value == Tail(number, Hex.Encode(prev))
    {
      var n := FieldNat(b, Seq);
      if n.None? { return None; }
      var (hash, line) := Seal(c, b, prev);
      number, prev := n.value, hash;
      file := file + line;
      file := file + [LF];
      return Some(Tail(n.value, Hex.Encode(hash)));
    }

    /** One frame by one caller. At the largest number the counter stays where it is. */
    method AppendFrame(event: Body) returns (head: Tail)
      requires number <= MAX_U64
      modifies this
      ensures Snapshot() == Append(c, old(Snapshot()), event)
      ensures head == Tail(number, Hex.Encode(prev))
    {
      var b := Build(event);
      var r := SealAndWriteBody(b);
      head := r.value;
    }
  }

  /** A transcript is created once: an existing file is never extended. */
  method Create(c: Crypto, existing: Option<string>, genesis: Body) returns (r: Result<TranscriptWriter, CreateError>)
    ensures r.Ok? <==> existing.None?
    ensures r.Ok? ==> fresh(r.value) && r.value.c == c && r.value.Snapshot() == Genesis(c, "", genesis)
  {
    if existing.Some? { return Err(AlreadyExists); }
    var t := new TranscriptWriter(c);
    var head := t.SealAndWriteBody(Stamped(0, Zeros(c), genesis));
    return Ok(t);
  }

  /** The transcript of one caller: genesis, then frames one at a time, the end record among them. */
  function OneCaller(c: Crypto, genesis: Body, frames: seq<Body>): Writer {
    if frames == [] then Genesis(c, "", genesis)
    else Append(c, OneCaller(c, genesis, frames[..|frames| - 1]), frames[|frames| - 1])
  }

  /** Driven by one caller at a time, a transcript is accepted with its head as tail and one record per call. */
  lemma {:induction false} OneCallerIsAccepted(c: Crypto, genesis: Body, frames: seq<Body>)
    requires Laws(c) && |frames| <= MAX_U64
    ensures Synced(c, OneCaller(c, genesis, frames)) && OneCaller(c, genesis, frames).number == |frames|
    decreases |frames|
  {
    if frames == [] {
      FreshJournalSyncs(c, genesis);
    } else {
      OneCallerIsAccepted(c, genesis, frames[..|frames| - 1]);
      AppendKeepsSync(c, OneCaller(c, genesis, frames[..|frames| - 1]), frames[|frames| - 1]);
    }
  }

  /** A frame sealed after its body went stale: accepted exactly when nothing was sealed in between. */
  lemma SealAcceptsCurrentBodyOnly(c: Crypto, built: Writer, t: Writer, event: Body)
    requires Laws(c) && Synced(c, t) && built.number < MAX_U64
    ensures Accepted(
              c, Lines(SealAndWrite(c, t, Stamped(Next(built.number), built.prev, event), Next(built.number)).file))
       <==> built.number == t.number && built.prev == t.prev
  {
    WriteKeepsSync(c, t, Next(built.number), built.prev, event);
  }

  /** Any further records, each sealed with the number its body names. */
  function SealAll(c: Crypto, w: Writer, seals: seq<(Body, nat)>): Writer {
    if seals == [] then w
    else
      var (b, number) := seals[|seals| - 1];
      SealAndWrite(c, SealAll(c, w, seals[..|seals| - 1]), b, number)
  }

  /** No later records, however many, repair a transcript that has stopped being accepted. */
  lemma {:induction false} BrokenForGood(c: Crypto, w: Writer, seals: seq<(Body, nat)>)
    requires Laws(c) && Unended(w.file) == "" && !Accepted(c, Lines(w.file))
    ensures !Accepted(c, Lines(SealAll(c, w, seals).file))
    ensures Unended(SealAll(c, w, seals).file) == ""
  {
    if seals != [] {
      var front := seals[..|seals| - 1];
      var (b, number) := seals[|seals| - 1];
      BrokenForGood(c, w, front);
      WalkAfterWrite(c, SealAll(c, w, front), b, number);
      WalkEnded(c, SealAll(c, w, front).file);
    }
  }

  /**
   * Two callers overlap: both build their frames on one position, then both seal. The transcript is
   * not accepted, whatever is appended after them.
   */
  lemma OverlappingFramesBreak(c: Crypto, t: Writer, first: Body, second: Body, seals: seq<(Body, nat)>)
    requires Laws(c) && Synced(c, t) && t.number + 1 < MAX_U64
    ensures var one := Append(c, t, first);
            var two := SealAndWrite(c, one, Stamped(Next(t.number), t.prev, second), Next(t.number));
            !Accepted(c, Lines(SealAll(c, two, seals).file))
  {
    AppendKeepsSync(c, t, first);
    var one := Append(c, t, first);
    SealAcceptsCurrentBodyOnly(c, t, one, second);
    var stale := Stamped(Next(t.number), t.prev, second);
    WalkAfterWrite(c, one, stale, Next(t.number));
    BrokenForGood(c, SealAndWrite(c, one, stale, Next(t.number)), seals);
  }
}

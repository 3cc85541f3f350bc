/** The journal in its own terms: its parsed records, field by field, against the events that were recorded. */
module JournalRecords {
  import opened Text
  import opened JournalText
  import opened AuditChain
  import opened AuditWriter
  import opened TamperEvidence
  import Hex

  /** The records of a journal as parsed, with all their fields. */
  function Records(c: Crypto, lines: seq<string>): seq<Body> {
    if lines == [] then []
    else
      var rest, last := Records(c, lines[..|lines| - 1]), lines[|lines| - 1];
      var v := c.parse(last);
      if Blank(last) || v.None? || !v.value.Obj? then rest else rest + [v.value.fields]
  }

  /** The two records agree on every field but their own hash and signature. */
  ghost predicate Agree(a: Body, b: Body) {
    forall f: Field :: f != ThisHash && f != Sig ==> (f in a <==> f in b) && (f in a && f in b ==> a[f] == b[f])
  }

  /** What a record's hash covers: the predecessor it names, then all its fields but its own hash and signature. */
  function Covered(c: Crypto, r: Body): seq<int> {
    var named := FieldStr(r, PrevHash);
    var prev := if named.None? then None else Hex.Decode(named.value);
    (if prev.None? then [] else prev.value)
    + Codes(c.canon(Obj(map f | f in r && f != ThisHash && f != Sig :: r[f])))
  }

  /** Two records, one of each journal, that cover different texts and have the same digest. */
  ghost predicate Collision(c: Crypto, a: seq<Body>, b: seq<Body>) {
    exists i: nat, j: nat ::
      i < |a| && j < |b| && Covered(c, a[i]) != Covered(c, b[j])
      && c.digest(Covered(c, a[i])) == c.digest(Covered(c, b[j]))
  }

  /** The last record's signature verifies over a digest that none of our records has. */
  ghost predicate Forgery(c: Crypto, ours: seq<Body>, theirs: seq<Body>) {
    && theirs != []
    && var last := theirs[|theirs| - 1];
    && c.verify(c.digest(Covered(c, last)), SigOf(last))
    && forall k :: 0 <= k < |ours| ==> c.digest(Covered(c, ours[k])) != c.digest(Covered(c, last))
  }

  // ---- From parsed records to the chain ----

  /** Record `k` of a journal is body `k` of its chain, and covers what the chain's digest is taken over. */
  ghost predicate Stands(c: Crypto, records: seq<Body>, bodies: seq<Body>, sigs: seq<string>, k: nat) {
    && k < |records| == |bodies| == |sigs|
    && bodies[k] == Hashed(records[k]) && sigs[k] == SigOf(records[k])
    && Covered(c, records[k]) == Preimage(c, bodies, k)
  }

  lemma {:induction false} CoveredBody(c: Crypto, b: Body, prev: string, n: nat)
    requires VerifyBody(c, b, prev, n).Ok?
    ensures Hex.Decode(prev).Some?
    ensures Covered(c, b) == Hex.Decode(prev).value + Codes(c.canon(Obj(Hashed(Hashed(b)))))
  {
    AcceptedBody(c, b, prev, n);
    assert (map f | f in b && f != ThisHash && f != Sig :: b[f]) == Hashed(Hashed(b));
  }

  lemma {:induction false} StandsAfter(
    c: Crypto, records: seq<Body>, bodies: seq<Body>, sigs: seq<string>, r: Body, body: Body, sig: string, k: nat)
    requires Stands(c, records, bodies, sigs, k)
    ensures Stands(c, records + [r], bodies + [body], sigs + [sig], k)
  {
    assert (bodies + [body])[..k] == bodies[..k];
  }

  lemma {:induction false} RecordsStand(c: Crypto, lines: seq<string>)
    requires Accepted(c, lines)
    ensures |Records(c, lines)| == |Bodies(c, lines)| == |Sigs(c, lines)|
    ensures forall k: nat :: k < |Records(c, lines)| ==>
              Stands(c, Records(c, lines), Bodies(c, lines), Sigs(c, lines), k)
    decreases |lines|
  {
    if lines != [] {
      var front, last := lines[..|lines| - 1], lines[|lines| - 1];
      RecordsStand(c, front);
      AcceptedIsChain(c, front);
      if !Blank(last) {
        var records, bodies, sigs := Records(c, front), Bodies(c, front), Sigs(c, front);
        var b := c.parse(last).value.fields;
        var walk := Walk(c, front);
        CoveredBody(c, b, ExpectPrev(c, walk), walk.recordsOk);
        assert (bodies + [Hashed(b)])[..|bodies|] == bodies;
        forall k: nat | k < |records| + 1
          ensures Stands(c, records + [b], bodies + [Hashed(b)], sigs + [SigOf(b)], k)
        {
          if k < |records| { StandsAfter(c, records, bodies, sigs, b, Hashed(b), SigOf(b), k); }
        }
      }
    }
  }

  // ---- What each accepted record says ----

  lemma {:induction false} TailIsLast(c: Crypto, lines: seq<string>)
    requires Accepted(c, lines)
    ensures var r, t := Records(c, lines), Walk(c, lines).tail;
            && |r| == Walk(c, lines).recordsOk && (r == [] <==> t.None?)
            && (r != [] ==> FieldStr(r[|r| - 1], ThisHash) == Some(t.value.hashHex))
    decreases |lines|
  {
    if lines != [] {
      var front, last := lines[..|lines| - 1], lines[|lines| - 1];
      TailIsLast(c, front);
      if !Blank(last) {
        AcceptedBody(c, c.parse(last).value.fields, ExpectPrev(c, Walk(c, front)), Walk(c, front).recordsOk);
      }
    }
  }

  /** The predecessor that record `k` must name: a text of zeros, or the hash text of the record before it. */
  predicate Predecessor(c: Crypto, records: seq<Body>, k: nat, named: string) {
    && k <= |records|
    && if k == 0 then |named| == 2 * c.width && forall i :: 0 <= i < |named| ==> named[i] == '0'
       else FieldStr(records[k - 1], ThisHash) == Some(named)
  }

  /** Record `k` is of this version, numbered `k`, linked, hashed over all it covers, and signed over that hash. */
  ghost predicate Says(c: Crypto, records: seq<Body>, k: nat) {
    && k < |records|
    && var r := records[k];
    && FieldNat(r, ChainVersion) == Some(1) && FieldNat(r, Seq) == Some(k)
    && FieldStr(r, PrevHash).Some? && Predecessor(c, records, k, FieldStr(r, PrevHash).value)
    && FieldStr(r, ThisHash).Some? && Hex.Decode(FieldStr(r, ThisHash).value) == Some(c.digest(Covered(c, r)))
    && FieldStr(r, Sig).Some? && c.verify(c.digest(Covered(c, r)), FieldStr(r, Sig).value)
  }

  lemma {:induction false} SaysStill(c: Crypto, records: seq<Body>, r: Body, k: nat)
    requires Says(c, records, k)
    ensures Says(c, records + [r], k)
  {
  }

  lemma {:induction false} LastSays(c: Crypto, lines: seq<string>, r: Body)
    requires Accepted(c, lines)
    requires VerifyBody(c, r, ExpectPrev(c, Walk(c, lines)), Walk(c, lines).recordsOk).Ok?
    ensures Says(c, Records(c, lines) + [r], |Records(c, lines)|)
  {
    var walk := Walk(c, lines);
    TailIsLast(c, lines);
    AcceptedBody(c, r, ExpectPrev(c, walk), walk.recordsOk);
    CoveredBody(c, r, ExpectPrev(c, walk), walk.recordsOk);
    HashedTwice(r);
    Hex.ZerosEncode(Zeros(c));
    var all, k := Records(c, lines) + [r], |Records(c, lines)|;
    assert all[k] == r && (k > 0 ==> all[k - 1] == Records(c, lines)[k - 1]);
  }

  /** Every record of an accepted journal says so of itself, in its own fields. */
  lemma {:induction false} AcceptedRecordsSay(c: Crypto, lines: seq<string>, k: nat)
    requires Accepted(c, lines) && k < |Records(c, lines)|
    ensures Says(c, Records(c, lines), k)
    decreases |lines|
  {
    var front, last := lines[..|lines| - 1], lines[|lines| - 1];
    if !Blank(last) {
      var r := c.parse(last).value.fields;
      if k < |Records(c, front)| {
        AcceptedRecordsSay(c, front, k);
        SaysStill(c, Records(c, front), r, k);
      } else {
        LastSays(c, front, r);
      }
    } else {
      AcceptedRecordsSay(c, front, k);
    }
  }

  ghost predicate AllSay(c: Crypto, records: seq<Body>) {
    forall k: nat :: k < |records| ==> Says(c, records, k)
  }

  /** Every line that is not blank is read as an object. */
  ghost predicate AllRead(c: Crypto, lines: seq<string>) {
    forall i :: 0 <= i < |lines| && !Blank(lines[i]) ==> c.parse(lines[i]).Some? && c.parse(lines[i]).value.Obj?
  }

  lemma {:induction false} SaidBefore(c: Crypto, records: seq<Body>, r: Body, k: nat)
    requires Says(c, records + [r], k) && k < |records|
    ensures Says(c, records, k)
  {
  }

  /** The text that names record `k`'s predecessor is the one the walk expects. */
  lemma {:induction false} ExpectedPredecessor(c: Crypto, lines: seq<string>, named: string)
    requires Accepted(c, lines) && Predecessor(c, Records(c, lines), |Records(c, lines)|, named)
    requires AllSay(c, Records(c, lines))
    ensures named == ExpectPrev(c, Walk(c, lines)) && Hex.Decode(named).Some?
  {
    TailIsLast(c, lines);
    var n := |Records(c, lines)|;
    if n == 0 {
      Hex.ZerosEncode(Zeros(c));
      assert named == GenesisPrev(c);
      Hex.DecodeOfEncode(Zeros(c));
    } else {
      assert Says(c, Records(c, lines), n - 1);
    }
  }

  lemma {:induction false} LastAccepted(c: Crypto, lines: seq<string>, r: Body)
    requires Accepted(c, lines) && Says(c, Records(c, lines) + [r], |Records(c, lines)|)
    requires AllSay(c, Records(c, lines))
    ensures VerifyBody(c, r, ExpectPrev(c, Walk(c, lines)), Walk(c, lines).recordsOk).Ok?
  {
    var records, named := Records(c, lines), FieldStr(r, PrevHash).value;
    assert (records + [r])[|records|] == r;
    assert Predecessor(c, records, |records|, named);
    ExpectedPredecessor(c, lines, named);
    TailIsLast(c, lines);
    assert (map f | f in r && f != ThisHash && f != Sig :: r[f]) == Hashed(r);
    AcceptedBody(c, r, named, |records|);
  }

  lemma {:induction false} AllSaidIsAccepted(c: Crypto, lines: seq<string>)
    requires AllRead(c, lines) && AllSay(c, Records(c, lines))
    ensures Accepted(c, lines)
    decreases |lines|
  {
    if lines != [] {
      var front, last := lines[..|lines| - 1], lines[|lines| - 1];
      var records := Records(c, front);
      assert AllRead(c, front);
      if Blank(last) {
        assert Records(c, lines) == records;
        AllSaidIsAccepted(c, front);
      } else {
        assert lines[|front|] == last;
        var r := c.parse(last).value.fields;
        assert Records(c, lines) == records + [r];
        forall k: nat | k < |records| ensures Says(c, records, k) { SaidBefore(c, records, r, k); }
        AllSaidIsAccepted(c, front);
        LastAccepted(c, front, r);
      }
    }
  }

  lemma {:induction false} AcceptedIsRead(c: Crypto, lines: seq<string>)
    requires Accepted(c, lines)
    ensures AllRead(c, lines)
    decreases |lines|
  {
    if lines != [] {
      var front, last := lines[..|lines| - 1], lines[|lines| - 1];
      AcceptedIsRead(c, front);
      assert !Blank(last) ==> c.parse(last).Some? && c.parse(last).value.Obj?;
      forall i | 0 <= i < |lines| && !Blank(lines[i])
        ensures c.parse(lines[i]).Some? && c.parse(lines[i]).value.Obj?
      {
        if i < |front| { assert front[i] == lines[i]; }
      }
    }
  }

  /**
   * The verifier accepts a journal exactly when every line that is not blank is an object and every record, in its
   * own fields, is of this version, numbered by its place, linked to the one before it, and hashed and signed over
   * everything but its own hash and signature.
   */
  lemma {:induction false} AcceptedExactly(c: Crypto, lines: seq<string>)
    ensures Accepted(c, lines) <==> AllRead(c, lines) && AllSay(c, Records(c, lines))
  {
    if Accepted(c, lines) {
      AcceptedIsRead(c, lines);
      forall k: nat | k < |Records(c, lines)| ensures Says(c, Records(c, lines), k) {
        AcceptedRecordsSay(c, lines, k);
      }
    } else if AllRead(c, lines) && AllSay(c, Records(c, lines)) {
      AllSaidIsAccepted(c, lines);
    }
  }

  lemma {:induction false} DigestOfRecord(
    c: Crypto, records: seq<Body>, bodies: seq<Body>, sigs: seq<string>, k: nat)
    requires Stands(c, records, bodies, sigs, k)
    ensures c.digest(Covered(c, records[k])) == ChainHash(c, bodies[..k + 1])
  {
    assert bodies[..k + 1][..k] == bodies[..k];
  }

  lemma {:induction false} CollisionOfRecords(c: Crypto, ours: seq<string>, theirs: seq<string>)
    requires Accepted(c, ours) && Accepted(c, theirs) && Collides(c, Bodies(c, theirs), Bodies(c, ours))
    ensures Collision(c, Records(c, theirs), Records(c, ours))
  {
    RecordsStand(c, ours);
    RecordsStand(c, theirs);
    var a, b := Bodies(c, theirs), Bodies(c, ours);
    var i: nat, j: nat :| i < |a| && j < |b| && Preimage(c, a, i) != Preimage(c, b, j)
      && c.digest(Preimage(c, a, i)) == c.digest(Preimage(c, b, j));
    assert Stands(c, Records(c, theirs), a, Sigs(c, theirs), i) && Stands(c, Records(c, ours), b, Sigs(c, ours), j);
  }

  lemma {:induction false} ForgeryOfRecords(c: Crypto, ours: seq<string>, theirs: seq<string>)
    requires Accepted(c, ours) && Accepted(c, theirs)
    requires Forges(c, {Bodies(c, ours)}, Bodies(c, theirs), Sigs(c, theirs))
    ensures Forgery(c, Records(c, ours), Records(c, theirs))
  {
    RecordsStand(c, ours);
    RecordsStand(c, theirs);
    var records, bodies, sigs := Records(c, theirs), Bodies(c, theirs), Sigs(c, theirs);
    var last := |records| - 1;
    DigestOfRecord(c, records, bodies, sigs, last);
    assert bodies[..last + 1] == bodies;
    var mine := Records(c, ours);
    forall k | 0 <= k < |mine| ensures c.digest(Covered(c, mine[k])) != c.digest(Covered(c, records[last])) {
      DigestOfRecord(c, mine, Bodies(c, ours), Sigs(c, ours), k);
    }
  }

  lemma {:induction false} SameBodyAgrees(a: Body, b: Body)
    requires Hashed(a) == Hashed(b)
    ensures Agree(a, b)
  {
    forall f: Field | f != ThisHash && f != Sig
      ensures (f in a <==> f in b) && (f in a && f in b ==> a[f] == b[f])
    {
      assert (f in a <==> f in Hashed(a)) && (f in b <==> f in Hashed(b));
    }
  }

  lemma {:induction false} SameBodiesAgree(c: Crypto, ours: seq<string>, theirs: seq<string>)
    requires Accepted(c, ours) && Accepted(c, theirs) && Bodies(c, theirs) <= Bodies(c, ours)
    ensures Truncates(Records(c, theirs), Records(c, ours))
  {
    RecordsStand(c, ours);
    RecordsStand(c, theirs);
    var mine, edits := Records(c, ours), Records(c, theirs);
    forall k | 0 <= k < |edits| ensures Agree(edits[k], mine[k]) {
      assert Stands(c, edits, Bodies(c, theirs), Sigs(c, theirs), k);
      assert Stands(c, mine, Bodies(c, ours), Sigs(c, ours), k);
      SameBodyAgrees(edits[k], mine[k]);
    }
  }

  // ---- What an edit can change ----

  /** Their records are ours, field by field, as far as they go. */
  ghost predicate Truncates(theirs: seq<Body>, ours: seq<Body>) {
    |theirs| <= |ours| && forall k :: 0 <= k < |theirs| ==> Agree(theirs[k], ours[k])
  }

  /**
   * Whatever was done to a writer's journal, if it is still accepted then each of its records agrees with the
   * writer's record of that number on every field but the record's own hash and signature, or the two journals
   * exhibit a digest collision or a forged signature.
   */
  lemma {:induction false} EditedRecordsAgree(c: Crypto, w: Writer, edited: string)
    requires Laws(c) && Synced(c, w) && Accepted(c, Lines(edited))
    ensures var ours, theirs := Records(c, Lines(w.file)), Records(c, Lines(edited));
            Truncates(theirs, ours) || Collision(c, theirs, ours) || Forgery(c, ours, theirs)
  {
    var mine, edits := Lines(w.file), Lines(edited);
    RecordsStand(c, edits);
    AcceptedIsChain(c, edits);
    if Records(c, edits) != [] {
      EditedJournal(c, w, edited);
      if Bodies(c, edits) <= Bodies(c, mine) {
        SameBodiesAgree(c, mine, edits);
      } else if Collides(c, Bodies(c, edits), Bodies(c, mine)) {
        CollisionOfRecords(c, mine, edits);
      } else {
        ForgeryOfRecords(c, mine, edits);
      }
    }
  }

  // ---- What the writer puts in ----

  /** The record has the event's own fields, with their values and no others; the rest are the chain's. */
  ghost predicate Carries(r: Body, event: Body) {
    forall f: Field :: f.Other? ==> (f in r <==> f in event) && (f in r && f in event ==> r[f] == event[f])
  }

  /** The number, the version and the predecessor that a record states. */
  predicate States(r: Body, number: nat, prev: seq<Byte>) {
    && FieldNat(r, ChainVersion) == Some(VERSION) && FieldNat(r, Seq) == Some(number)
    && FieldStr(r, PrevHash) == Some(Hex.Encode(prev))
  }

  lemma {:induction false} SealedCarries(c: Crypto, number: nat, built: seq<Byte>, event: Body, hash: seq<Byte>)
    requires number <= MAX_U64
    ensures var r := SealedBody(c, Stamped(number, built, event), hash);
            Carries(r, event) && States(r, number, built)
  {
    SealedFields(c, number, built, event, hash);
  }

  /** A line that is read as an object adds that object, a blank one nothing. */
  lemma {:induction false} RecordsSnoc(c: Crypto, lines: seq<string>, line: string)
    ensures Blank(line) ==> Records(c, lines + [line]) == Records(c, lines)
    ensures !Blank(line) && c.parse(line).Some? && c.parse(line).value.Obj? ==>
              Records(c, lines + [line]) == Records(c, lines) + [c.parse(line).value.fields]
  {
    assert (lines + [line])[..|lines|] == lines;
  }

  lemma {:induction false} ReadableLine(c: Crypto, left: string, r: Body)
    requires Laws(c) && JsonBlank(left)
    ensures !Blank(left + c.canon(Obj(r))) && c.parse(left + c.canon(Obj(r))) == Some(Obj(r))
  {
    var line := c.canon(Obj(r));
    assert OneLine(line);
    ReadsBack(c, left, r);
    assert (left + line)[|left|] == '{' && !Whitespace('{');
  }

  lemma {:induction false} WrittenRecord(c: Crypto, w: Writer, number: nat, built: seq<Byte>, event: Body)
    returns (r: Body)
    requires Laws(c) && JsonBlank(Unended(w.file)) && number <= MAX_U64
    ensures Records(c, Lines(SealAndWrite(c, w, Stamped(number, built, event), number).file))
         == Records(c, Lines(w.file)) + [r]
    ensures Carries(r, event) && States(r, number, built)
  {
    var b := Stamped(number, built, event);
    var hash := ContentHash(c, w.prev, b);
    r := SealedBody(c, b, hash);
    SealedCarries(c, number, built, event, hash);
    var ended, left, line := StripAll(Ended(w.file)), Unended(w.file), c.canon(Obj(r));
    assert OneLine(line);
    AppendedLine(w.file, line);
    ReadableLine(c, left, r);
    RecordsSnoc(c, ended, left + line);
    JsonBlankIsBlank(left);
    RecordsSnoc(c, ended, left);
    assert ended + [] == ended;
  }

  /** An append adds one record: the event's own fields, the next number and the head it was appended to. */
  lemma {:induction false} AppendRecordsItsEvent(c: Crypto, w: Writer, event: Body) returns (r: Body)
    requires Laws(c) && Synced(c, w) && w.number < MAX_U64
    ensures Records(c, Lines(Append(c, w, event).file)) == Records(c, Lines(w.file)) + [r]
    ensures Carries(r, event) && States(r, w.number + 1, w.prev)
  {
    assert Next(w.number) == w.number + 1;
    assert Append(c, w, event) == SealAndWrite(c, w, Stamped(w.number + 1, w.prev, event), w.number + 1);
    r := WrittenRecord(c, w, w.number + 1, w.prev, event);
  }

  /** The events of a run, the genesis event first. */
  function Recorded(genesis: Body, ops: seq<Op>): seq<Body> {
    if ops == [] then [genesis]
    else
      var last := ops[|ops| - 1];
      Recorded(genesis, ops[..|ops| - 1]) + if last.Record? then [last.event] else []
  }

  /** One record for each event, in order, numbered from zero. */
  ghost predicate Keeps(records: seq<Body>, events: seq<Body>) {
    && |records| == |events|
    && forall k :: 0 <= k < |records| ==> Carries(records[k], events[k]) && FieldNat(records[k], Seq) == Some(k)
  }

  lemma {:induction false} KeepsOneMore(records: seq<Body>, events: seq<Body>, r: Body, event: Body)
    requires Keeps(records, events) && Carries(r, event) && FieldNat(r, Seq) == Some(|records|)
    ensures Keeps(records + [r], events + [event])
  {
  }

  /** A new journal holds its genesis event. */
  lemma {:induction false} GenesisKept(c: Crypto, genesis: Body)
    requires Laws(c)
    ensures Opened(c, "", genesis).Ok? && Keeps(Records(c, Lines(Opened(c, "", genesis).value.file)), [genesis])
    ensures Opened(c, "", genesis).value.number == 0
  {
    assert Split("", LF) == [""];
    assert Lines("") == [];
    var r := WrittenRecord(c, Writer(0, Zeros(c), ""), 0, Zeros(c), genesis);
    assert Records(c, Lines("")) + [r] == [r];
  }

  lemma {:induction false} OneMoreKept(c: Crypto, w: Writer, events: seq<Body>, event: Body)
    requires Laws(c) && Synced(c, w) && w.number < MAX_U64
    requires Keeps(Records(c, Lines(w.file)), events) && w.number + 1 == |events|
    ensures Keeps(Records(c, Lines(Append(c, w, event).file)), events + [event])
    ensures Append(c, w, event).number == w.number + 1
  {
    var r := AppendRecordsItsEvent(c, w, event);
    KeepsOneMore(Records(c, Lines(w.file)), events, r, event);
  }

  /** The journal of this writer holds exactly these events, in order. */
  ghost predicate Holds(c: Crypto, w: Writer, events: seq<Body>) {
    Keeps(Records(c, Lines(w.file)), events) && w.number + 1 == |events|
  }

  /** Over every run of appends and reopenings the journal holds exactly the events recorded, in order. */
  lemma {:induction false} JournalKeepsItsEvents(c: Crypto, genesis: Body, ops: seq<Op>)
    requires Laws(c) && |ops| <= MAX_U64
    ensures After(c, genesis, ops).Ok? && Holds(c, After(c, genesis, ops).value, Recorded(genesis, ops))
    decreases |ops|
  {
    if ops == [] {
      GenesisKept(c, genesis);
    } else {
      var front, last := ops[..|ops| - 1], ops[|ops| - 1];
      JournalKeepsItsEvents(c, genesis, front);
      RunStaysSynced(c, genesis, front);
      var w := After(c, genesis, front).value;
      match last
      case Record(event) => OneMoreKept(c, w, Recorded(genesis, front), event);
      case Reopen(again) => ReopenResumes(c, w, again);
    }
  }

  /**
   * After every run, an edited journal that is still accepted tells what was recorded: its records carry the
   * events of the run, in order from the first, or it holds a collision with the run's own records or a forgery.
   */
  lemma {:induction false} HistoryIsKept(c: Crypto, genesis: Body, ops: seq<Op>, edited: string)
    requires Laws(c) && |ops| <= MAX_U64 && Accepted(c, Lines(edited))
    ensures After(c, genesis, ops).Ok?
    ensures var ours := Records(c, Lines(After(c, genesis, ops).value.file));
            var theirs := Records(c, Lines(edited));
            || (|theirs| <= |Recorded(genesis, ops)| && Keeps(theirs, Recorded(genesis, ops)[..|theirs|]))
            || Collision(c, theirs, ours) || Forgery(c, ours, theirs)
  {
    JournalKeepsItsEvents(c, genesis, ops);
    RunStaysSynced(c, genesis, ops);
    var w := After(c, genesis, ops).value;
    EditedRecordsAgree(c, w, edited);
    var ours, theirs, events := Records(c, Lines(w.file)), Records(c, Lines(edited)), Recorded(genesis, ops);
    if Truncates(theirs, ours) { TruncatedKeeps(theirs, ours, events); }
  }

  lemma {:induction false} TruncatedKeeps(theirs: seq<Body>, ours: seq<Body>, events: seq<Body>)
    requires Truncates(theirs, ours) && Keeps(ours, events)
    ensures |theirs| <= |events| && Keeps(theirs, events[..|theirs|])
  {
    forall k | 0 <= k < |theirs| ensures Carries(theirs[k], events[k]) && FieldNat(theirs[k], Seq) == Some(k) {
      AgreedCarries(theirs[k], ours[k], events[k], k);
    }
  }

  lemma {:induction false} AgreedCarries(a: Body, b: Body, event: Body, k: nat)
    requires Agree(a, b) && Carries(b, event) && FieldNat(b, Seq) == Some(k)
    ensures Carries(a, event) && FieldNat(a, Seq) == Some(k)
  {
  }
}

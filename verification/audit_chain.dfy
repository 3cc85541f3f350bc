/** The audit chain's verifier: one record at a time, then the whole journal. */
module AuditChain {
  import opened Text
  import opened JournalText
  import Hex

  type Byte = Hex.Byte

  /** The field names the chain reads, and all others. */
  datatype Field = ChainVersion | Seq | PrevHash | ThisHash | Sig | Other(name: string)

  datatype Value =
    | Null
    | Bool(b: bool)
    | Num(n: int)
    | Str(s: string)
    | Arr(items: seq<Value>)
    | Obj(fields: map<Field, Value>)

  type Body = map<Field, Value>

  /**
   * The primitives the chain is built from: JSON reading and canonical writing, the digest and its
   * width in bytes (32), and signing and verification under the one audit key.
   */
  datatype Crypto = Crypto(
    width: nat,
    parse: string -> Option<Value>,
    canon: Value -> string,
    digest: seq<int> -> seq<Byte>,
    sign: seq<Byte> -> string,
    verify: (seq<Byte>, string) -> bool)

  const VERSION: int := 1
  const MAX_U64: int := 0xFFFF_FFFF_FFFF_FFFF

  // ---- Reading one record ----

  function FieldNat(b: Body, f: Field): Option<nat> {
    if f in b && b[f].Num? && 0 <= b[f].n <= MAX_U64 then Some(b[f].n) else None
  }

  function FieldStr(b: Body, f: Field): Option<string> {
    if f in b && b[f].Str? then Some(b[f].s) else None
  }

  function Codes(s: string): seq<int> {
    seq(|s|, i requires 0 <= i < |s| => s[i] as int)
  }

  /** What the hash and the signature cover. */
  function Hashed(b: Body): Body {
    b - {ThisHash, Sig}
  }

  function ContentHash(c: Crypto, prev: seq<Byte>, b: Body): seq<Byte> {
    c.digest(prev + Codes(c.canon(Obj(Hashed(b)))))
  }

  datatype Reason =
    | NotJson | NotObject | BadVersion | MissingSeq | WrongSeq | MissingHash | MissingPrev
    | PrevMismatch | PrevNotHex | HashNotHex | HashMismatch | MissingSig | BadSignature

  /** Checks a record against its expected predecessor and number; gives its own hash text. */
  function VerifyLine(c: Crypto, line: string, expectPrev: string, expectSeq: nat): Result<string, Reason> {
    var value := c.parse(line);
    if value.None? then Err(NotJson)
    else if !value.value.Obj? then Err(NotObject)
    else VerifyBody(c, value.value.fields, expectPrev, expectSeq)
  }

  function VerifyBody(c: Crypto, b: Body, expectPrev: string, expectSeq: nat): Result<string, Reason> {
    if FieldNat(b, ChainVersion) != Some(VERSION) then Err(BadVersion)
    else if FieldNat(b, Seq).None? then Err(MissingSeq)
    else if FieldNat(b, Seq).value != expectSeq then Err(WrongSeq)
    else if FieldStr(b, ThisHash).None? then Err(MissingHash)
    else if FieldStr(b, PrevHash).None? then Err(MissingPrev)
    else if FieldStr(b, PrevHash).value != expectPrev then Err(PrevMismatch)
    else if Hex.Decode(expectPrev).None? then Err(PrevNotHex)
    else
      var recomputed := ContentHash(c, Hex.Decode(expectPrev).value, b);
      var stored := Hex.Decode(FieldStr(b, ThisHash).value);
      if stored.None? then Err(HashNotHex)
      else if stored.value != recomputed then Err(HashMismatch)
      else if FieldStr(b, Sig).None? then Err(MissingSig)
      else if !c.verify(recomputed, FieldStr(b, Sig).value) then Err(BadSignature)
      else Ok(FieldStr(b, ThisHash).value)
  }

  // ---- Walking a journal ----

  datatype Tail = Tail(number: nat, hashHex: string)

  datatype Break = Break(line: nat, reason: Reason)

  datatype Report = Report(tail: Option<Tail>, error: Option<Break>, recordsOk: nat)

  function Zeros(c: Crypto): seq<Byte> {
    seq(c.width, i => 0)
  }

  function GenesisPrev(c: Crypto): string {
    Hex.Encode(Zeros(c))
  }

  /** The hash text the next record must name. */
  function ExpectPrev(c: Crypto, r: Report): string {
    if r.tail.None? then GenesisPrev(c) else r.tail.value.hashHex
  }

  function WalkLine(c: Crypto, r: Report, i: nat, line: string): Report {
    if r.error.Some? || Blank(line) then r
    else
      var v := VerifyLine(c, line, ExpectPrev(c, r), r.recordsOk);
      if v.Err? then r.(error := Some(Break(i, v.error)))
      else Report(Some(Tail(r.recordsOk, v.value)), None, r.recordsOk + 1)
  }

  function Walk(c: Crypto, lines: seq<string>): Report {
    if lines == [] then Report(None, None, 0)
    else WalkLine(c, Walk(c, lines[..|lines| - 1]), |lines| - 1, lines[|lines| - 1])
  }

  predicate Accepted(c: Crypto, lines: seq<string>) {
    Walk(c, lines).error.None?
  }

  /** The loop over the lines. */
  method WalkEach(c: Crypto, lines: seq<string>) returns (r: Report)
    ensures r == Walk(c, lines)
  {
    var recordsOk := 0;
    var expectPrev := GenesisPrev(c);
    var tail: Option<Tail> := None;
    for i := 0 to |lines|
      invariant Walk(c, lines[..i]) == Report(tail, None, recordsOk)
      invariant expectPrev == ExpectPrev(c, Report(tail, None, recordsOk))
    {
      assert lines[..i + 1] == lines[..i] + [lines[i]];
      WalkSnoc(c, lines[..i], lines[i]);
      if !Blank(lines[i]) {
        var v := VerifyLine(c, lines[i], expectPrev, recordsOk);
        if v.Err? {
          StaysBroken(c, lines, i + 1, |lines|);
          assert lines[..|lines|] == lines;
          return Report(tail, Some(Break(i, v.error)), recordsOk);
        }
        expectPrev := v.value;
        tail := Some(Tail(recordsOk, v.value));
        recordsOk := recordsOk + 1;
      }
    }
    assert lines[..|lines|] == lines;
    return Report(tail, None, recordsOk);
  }

  /** The verifier over a journal's text. */
  method WalkLines(c: Crypto, journal: string) returns (r: Report)
    ensures r == Walk(c, Lines(journal))
  {
    r := WalkEach(c, Lines(journal));
  }

  // ---- Prefixes and blank lines ----

  lemma WalkSnoc(c: Crypto, lines: seq<string>, line: string)
    ensures Walk(c, lines + [line]) == WalkLine(c, Walk(c, lines), |lines|, line)
  {
    assert (lines + [line])[..|lines|] == lines;
  }

  /** The report is final at the first break. */
  lemma {:induction false} StaysBroken(c: Crypto, lines: seq<string>, i: nat, j: nat)
    requires i <= j <= |lines| && Walk(c, lines[..i]).error.Some?
    ensures Walk(c, lines[..j]) == Walk(c, lines[..i])
    decreases j
  {
    if i < j {
      assert lines[..j][..j - 1] == lines[..j - 1];
      StaysBroken(c, lines, i, j - 1);
    }
  }

  /** Every prefix of an accepted journal is accepted. */
  lemma PrefixAccepted(c: Crypto, lines: seq<string>, k: nat)
    requires Accepted(c, lines) && k <= |lines|
    ensures Accepted(c, lines[..k])
  {
    if Walk(c, lines[..k]).error.Some? {
      StaysBroken(c, lines, k, |lines|);
      assert lines[..|lines|] == lines;
    }
  }

  lemma {:induction false} BreakLine(c: Crypto, lines: seq<string>)
    requires Walk(c, lines).error.Some?
    ensures var b := Walk(c, lines).error.value.line;
            b < |lines| && Walk(c, lines[..b]) == Walk(c, lines).(error := None)
    decreases |lines|
  {
    var front := lines[..|lines| - 1];
    if Walk(c, front).error.Some? {
      BreakLine(c, front);
      assert front[..Walk(c, front).error.value.line] == lines[..Walk(c, front).error.value.line];
    }
  }

  /**
   * On a broken journal the report is that of the longest accepted prefix: the prefix up to the
   * reported line is accepted with the same tail and count, and no longer prefix is accepted.
   */
  lemma BrokenReport(c: Crypto, lines: seq<string>, k: nat)
    requires Walk(c, lines).error.Some? && k <= |lines|
    ensures var r := Walk(c, lines);
            var b := r.error.value.line;
            && b < |lines|
            && Walk(c, lines[..b]) == Report(r.tail, None, r.recordsOk)
            && (Accepted(c, lines[..k]) <==> k <= b)
  {
    var b := Walk(c, lines).error.value.line;
    BreakLine(c, lines);
    if k <= b {
      PrefixAccepted(c, lines[..b], k);
      assert lines[..b][..k] == lines[..k];
    } else {
      if Accepted(c, lines[..k]) {
        PrefixAccepted(c, lines[..k], b + 1);
        assert lines[..k][..b + 1] == lines[..b + 1];
        BreaksHere(c, lines);
        assert false;
      }
    }
  }

  lemma {:induction false} BreaksHere(c: Crypto, lines: seq<string>)
    requires Walk(c, lines).error.Some? && Walk(c, lines).error.value.line < |lines|
    ensures Walk(c, lines[..Walk(c, lines).error.value.line + 1]).error.Some?
    decreases |lines|
  {
    var front := lines[..|lines| - 1];
    var b := Walk(c, lines).error.value.line;
    if Walk(c, front).error.Some? {
      BreakLine(c, front);
      BreaksHere(c, front);
      assert front[..b + 1] == lines[..b + 1];
    } else {
      assert lines[..b + 1] == lines;
    }
  }

  /** The lines that are not blank, in order. */
  function NonBlank(lines: seq<string>): seq<string> {
    if lines == [] then []
    else
      var rest := NonBlank(lines[..|lines| - 1]);
      if Blank(lines[|lines| - 1]) then rest else rest + [lines[|lines| - 1]]
  }

  lemma {:induction false} NonBlankMeans(lines: seq<string>)
    ensures forall line :: line in NonBlank(lines) <==> line in lines && !Blank(line)
    ensures (forall i :: 0 <= i < |lines| ==> !Blank(lines[i])) ==> NonBlank(lines) == lines
    decreases |lines|
  {
    if lines != [] {
      var front, last := lines[..|lines| - 1], lines[|lines| - 1];
      NonBlankMeans(front);
      assert lines == front + [last];
      assert forall i :: 0 <= i < |front| ==> front[i] == lines[i];
    }
  }

  /** The two reports agree but for where a break lies. */
  predicate SameReport(r: Report, q: Report) {
    r.tail == q.tail && r.recordsOk == q.recordsOk && (r.error.Some? <==> q.error.Some?)
  }

  lemma {:induction false} SameAfterLine(c: Crypto, r: Report, i: nat, q: Report, j: nat, line: string)
    requires SameReport(r, q)
    ensures SameReport(WalkLine(c, r, i, line), WalkLine(c, q, j, line))
  {
    assert ExpectPrev(c, r) == ExpectPrev(c, q);
  }

  /** Blank lines change neither the verdict nor the tail nor the count. */
  lemma {:induction false} BlankLinesIgnored(c: Crypto, lines: seq<string>)
    ensures SameReport(Walk(c, lines), Walk(c, NonBlank(lines)))
    decreases |lines|
  {
    if lines != [] {
      var front, last := lines[..|lines| - 1], lines[|lines| - 1];
      BlankLinesIgnored(c, front);
      if !Blank(last) {
        WalkSnoc(c, NonBlank(front), last);
        SameAfterLine(c, Walk(c, front), |front|, Walk(c, NonBlank(front)), |NonBlank(front)|, last);
      }
    }
  }

  // ---- The chain a journal holds ----

  /** The hash at the end of a chain of bodies. */
  function ChainHash(c: Crypto, bodies: seq<Body>): seq<Byte> {
    if bodies == [] then Zeros(c)
    else ContentHash(c, ChainHash(c, bodies[..|bodies| - 1]), bodies[|bodies| - 1])
  }

  /** The hashed bodies of a journal's records. */
  function Bodies(c: Crypto, lines: seq<string>): seq<Body> {
    if lines == [] then []
    else
      var rest, last := Bodies(c, lines[..|lines| - 1]), lines[|lines| - 1];
      var v := c.parse(last);
      if Blank(last) || v.None? || !v.value.Obj? then rest else rest + [Hashed(v.value.fields)]
  }

  function SigOf(b: Body): string {
    if FieldStr(b, Sig).Some? then FieldStr(b, Sig).value else ""
  }

  /** The signature texts of a journal's records, one for each body. */
  function Sigs(c: Crypto, lines: seq<string>): (sigs: seq<string>)
    ensures |sigs| == |Bodies(c, lines)|
  {
    if lines == [] then []
    else
      var rest, last := Sigs(c, lines[..|lines| - 1]), lines[|lines| - 1];
      var v := c.parse(last);
      if Blank(last) || v.None? || !v.value.Obj? then rest else rest + [SigOf(v.value.fields)]
  }

  /** Bodies are numbered from zero and carry neither hash nor signature. */
  ghost predicate Numbered(bodies: seq<Body>) {
    forall k :: 0 <= k < |bodies| ==>
      FieldNat(bodies[k], Seq) == Some(k) && Hashed(bodies[k]) == bodies[k]
  }

  /** Each record's own signature verifies over the chain hash up to and including that record. */
  ghost predicate Endorsed(c: Crypto, bodies: seq<Body>, sigs: seq<string>) {
    |sigs| == |bodies| && forall k :: 0 <= k < |sigs| ==> c.verify(ChainHash(c, bodies[..k + 1]), sigs[k])
  }

  lemma HashedTwice(b: Body)
    ensures Hashed(Hashed(b)) == Hashed(b)
    ensures FieldNat(Hashed(b), Seq) == FieldNat(b, Seq)
  {
  }

  /**
   * A record is accepted exactly when it is of this version, carries the expected number and predecessor, states
   * the hash of its body over that predecessor, and its own signature verifies over that hash.
   */
  lemma AcceptedBody(c: Crypto, b: Body, prev: string, n: nat)
    ensures VerifyBody(c, b, prev, n).Ok? <==>
            && FieldNat(b, ChainVersion) == Some(VERSION) && FieldNat(b, Seq) == Some(n)
            && FieldStr(b, PrevHash) == Some(prev) && Hex.Decode(prev).Some?
            && var h := ContentHash(c, Hex.Decode(prev).value, b);
            && FieldStr(b, ThisHash).Some? && Hex.Decode(FieldStr(b, ThisHash).value) == Some(h)
            && FieldStr(b, Sig).Some? && c.verify(h, SigOf(b))
    ensures VerifyBody(c, b, prev, n).Ok? ==> Some(VerifyBody(c, b, prev, n).value) == FieldStr(b, ThisHash)
  {
  }

  /** One more record on a chain. */
  lemma {:induction false} ChainGrows(c: Crypto, bodies: seq<Body>, b: Body)
    requires Numbered(bodies) && FieldNat(b, Seq) == Some(|bodies|)
    ensures Numbered(bodies + [Hashed(b)])
    ensures ChainHash(c, bodies + [Hashed(b)]) == ContentHash(c, ChainHash(c, bodies), b)
  {
    HashedTwice(b);
    assert (bodies + [Hashed(b)])[..|bodies|] == bodies;
  }

  lemma {:induction false} EndorsedGrows(c: Crypto, bodies: seq<Body>, sigs: seq<string>, b: Body, sig: string)
    requires Endorsed(c, bodies, sigs) && c.verify(ChainHash(c, bodies + [b]), sig)
    ensures Endorsed(c, bodies + [b], sigs + [sig])
  {
    var all, more := bodies + [b], sigs + [sig];
    forall k | 0 <= k < |more| ensures c.verify(ChainHash(c, all[..k + 1]), more[k]) {
      if k < |sigs| {
        assert all[..k + 1] == bodies[..k + 1];
      } else {
        assert all[..k + 1] == all;
      }
    }
  }

  /** What the walk knows about the chain it has read. */
  ghost predicate Follows(c: Crypto, r: Report, bodies: seq<Body>, sigs: seq<string>) {
    && |bodies| == r.recordsOk && Numbered(bodies) && Endorsed(c, bodies, sigs)
    && Hex.Decode(ExpectPrev(c, r)) == Some(ChainHash(c, bodies))
    && (r.tail.None? <==> r.recordsOk == 0)
    && (r.tail.Some? ==> r.tail.value.number == r.recordsOk - 1)
  }

  lemma {:induction false} RecordFollows(
    c: Crypto, r: Report, i: nat, line: string, bodies: seq<Body>, sigs: seq<string>)
    requires r.error.None? && Follows(c, r, bodies, sigs) && !Blank(line)
    ensures VerifyLine(c, line, ExpectPrev(c, r), r.recordsOk).Ok? ==>
              var b := c.parse(line).value.fields;
              Follows(c, WalkLine(c, r, i, line), bodies + [Hashed(b)], sigs + [SigOf(b)])
  {
    if VerifyLine(c, line, ExpectPrev(c, r), r.recordsOk).Ok? {
      var b := c.parse(line).value.fields;
      AcceptedBody(c, b, ExpectPrev(c, r), r.recordsOk);
      ChainGrows(c, bodies, b);
      EndorsedGrows(c, bodies, sigs, Hashed(b), SigOf(b));
    }
  }

  /** An accepted journal is a numbered chain whose tail is its chain hash, each record signed over its own hash. */
  lemma {:induction false} AcceptedIsChain(c: Crypto, lines: seq<string>)
    requires Accepted(c, lines)
    ensures Follows(c, Walk(c, lines), Bodies(c, lines), Sigs(c, lines))
    decreases |lines|
  {
    if lines == [] {
      Hex.DecodeOfEncode(Zeros(c));
    } else {
      var front, last := lines[..|lines| - 1], lines[|lines| - 1];
      AcceptedIsChain(c, front);
      if !Blank(last) {
        RecordFollows(c, Walk(c, front), |lines| - 1, last, Bodies(c, front), Sigs(c, front));
      }
    }
  }
}

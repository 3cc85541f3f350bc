/** The append-only audit writer, and why what it writes always verifies. */
module AuditWriter {
  import opened Text
  import opened JournalText
  import opened AuditChain
  import Hex

  // ---- What the primitives promise ----

  /** Whitespace a JSON reader skips before a value. */
  predicate JsonBlank(s: string) {
    forall i :: 0 <= i < |s| ==> s[i] == ' ' || s[i] == '\t' || s[i] == '\n' || s[i] == '\r'
  }

  /** A canonical record is one line of text that opens with a brace. */
  predicate OneLine(s: string) {
    s != "" && s[0] == '{' && LF !in s && CR !in s
  }

  /**
   * Digests are 32 bytes; a canonical object is one line that reads back as itself behind
   * nothing but JSON whitespace; a signature verifies over what it signed.
   */
  ghost predicate Laws(c: Crypto) {
    && c.width == 32
    && (forall x: seq<int> :: |c.digest(x)| == c.width)
    && (forall b: Body :: OneLine(c.canon(Obj(b))))
    && (forall p: string, b: Body :: c.parse(p + c.canon(Obj(b))) == if JsonBlank(p) then Some(Obj(b)) else None)
    && (forall h: seq<Byte> :: c.verify(h, c.sign(h)))
  }

  // ---- Sealing ----

  /** The writer's position and its file. */
  datatype Writer = Writer(number: nat, prev: seq<Byte>, file: string)

  function Next(n: nat): nat {
    if n < MAX_U64 then n + 1 else n
  }

  /** The fields every record carries, over whatever the event holds. */
  function Stamped(number: nat, prev: seq<Byte>, event: Body): Body {
    event[ChainVersion := Num(VERSION)][Seq := Num(number)][PrevHash := Str(Hex.Encode(prev))]
  }

  function SealedBody(c: Crypto, b: Body, hash: seq<Byte>): Body {
    b[ThisHash := Str(Hex.Encode(hash))][Sig := Str(c.sign(hash))]
  }

  /** Canonical body to hash, to signature, to the final line. */
  function Seal(c: Crypto, b: Body, prev: seq<Byte>): (seq<Byte>, string) {
    var hash := ContentHash(c, prev, b);
    (hash, c.canon(Obj(SealedBody(c, b, hash))))
  }

  function SealAndWrite(c: Crypto, w: Writer, b: Body, number: nat): Writer {
    var (hash, line) := Seal(c, b, w.prev);
    Writer(number, hash, w.file + line + [LF])
  }

  function Append(c: Crypto, w: Writer, event: Body): Writer {
    SealAndWrite(c, w, Stamped(Next(w.number), w.prev, event), Next(w.number))
  }

  function Genesis(c: Crypto, file: string, event: Body): Writer {
    SealAndWrite(c, Writer(0, Zeros(c), file), Stamped(0, Zeros(c), event), 0)
  }

  datatype OpenError = BrokenChain(at: Break) | NoTail | TailNotHash

  /** Opens a journal: a blank one gets its genesis record, an accepted one is resumed. */
  function Opened(c: Crypto, file: string, genesis: Body): Result<Writer, OpenError> {
    if Blank(file) then Ok(Genesis(c, file, genesis))
    else
      var r := Walk(c, Lines(file));
      if r.error.Some? then Err(BrokenChain(r.error.value))
      else if r.tail.None? then Err(NoTail)
      else
        var hash := Hex.Decode(r.tail.value.hashHex);
        if hash.None? || |hash.value| != c.width then Err(TailNotHash)
        else Ok(Writer(r.tail.value.number, hash.value, file))
  }

  class Journal {
    var number: nat
    var prev: seq<Byte>
    var file: string
    const c: Crypto

    function Snapshot(): Writer
      reads this
    {
      Writer(number, prev, file)
    }

    constructor (c: Crypto, w: Writer)
      ensures this.c == c && Snapshot() == w
    {
      this.c := c;
      number, prev, file := w.number, w.prev, w.file;
    }

    method WriteLine(line: string)
      modifies this`file
      ensures file == old(file) + line + [LF]
    {
      file := file + line;
      file := file + [LF];
    }

    method AppendGenesis(event: Body)
      modifies this
      ensures Snapshot() == Genesis(c, old(file), event)
    {
      var (hash, line) := Seal(c, Stamped(0, Zeros(c), event), Zeros(c));
      number, prev := 0, hash;
      WriteLine(line);
    }

    method AppendEvent(event: Body) returns (head: Tail)
      modifies this
      ensures Snapshot() == Append(c, old(Snapshot()), event)
      ensures head == Tail(number, Hex.Encode(prev))
    {
      var next := Next(number);
      var (hash, line) := Seal(c, Stamped(next, prev, event), prev);
      number, prev := next, hash;
      WriteLine(line);
      return Tail(next, Hex.Encode(hash));
    }

    method Head() returns (head: Tail)
      ensures head == Tail(number, Hex.Encode(prev))
    {
      var hex := Hex.EncodeBytes(prev);
      return Tail(number, hex);
    }
  }

  method Open(c: Crypto, file: string, genesis: Body) returns (r: Result<Journal, OpenError>)
    ensures r.Ok? <==> Opened(c, file, genesis).Ok?
    ensures r.Ok? ==> fresh(r.value) && r.value.c == c && r.value.Snapshot() == Opened(c, file, genesis).value
    ensures r.Err? ==> Err(r.error) == Opened(c, file, genesis)
  {
    if Blank(file) {
      var j := new Journal(c, Writer(0, Zeros(c), file));
      j.AppendGenesis(genesis);
      return Ok(j);
    }
    var report := WalkLines(c, file);
    if report.error.Some? { return Err(BrokenChain(report.error.value)); }
    if report.tail.None? { return Err(NoTail); }
    var hash := Hex.DecodeText(report.tail.value.hashHex);
    if hash.None? || |hash.value| != c.width { return Err(TailNotHash); }
    var j := new Journal(c, Writer(report.tail.value.number, hash.value, file));
    return Ok(j);
  }

  // ---- Sealed records verify ----

  lemma SealedBodyHashes(c: Crypto, b: Body, hash: seq<Byte>)
    ensures Hashed(SealedBody(c, b, hash)) == Hashed(b)
  {
  }

  lemma SealedFields(c: Crypto, number: nat, built: seq<Byte>, event: Body, hash: seq<Byte>)
    requires number <= MAX_U64
    ensures var s := SealedBody(c, Stamped(number, built, event), hash);
            && FieldNat(s, ChainVersion) == Some(VERSION) && FieldNat(s, Seq) == Some(number)
            && FieldStr(s, PrevHash) == Some(Hex.Encode(built)) && FieldStr(s, ThisHash) == Some(Hex.Encode(hash))
            && FieldStr(s, Sig) == Some(c.sign(hash))
  {
  }

  /** A sealed record is accepted exactly under the number and predecessor its body names. */
  lemma SealedVerifies(
    c: Crypto, number: nat, built: seq<Byte>, event: Body, prev: seq<Byte>, expectPrev: string, n: nat)
    requires Laws(c) && number <= MAX_U64
    requires Hex.Decode(expectPrev) == Some(prev)
    ensures var b := Stamped(number, built, event);
            var hash := ContentHash(c, prev, b);
            var v := VerifyBody(c, SealedBody(c, b, hash), expectPrev, n);
            && (v.Ok? <==> number == n && Hex.Encode(built) == expectPrev)
            && (v.Ok? ==> v.value == Hex.Encode(hash))
  {
    var b := Stamped(number, built, event);
    var hash := ContentHash(c, prev, b);
    SealedFields(c, number, built, event, hash);
    SealedBodyHashes(c, b, hash);
    Hex.DecodeOfEncode(hash);
    AcceptedBody(c, SealedBody(c, b, hash), expectPrev, n);
  }

  lemma JsonBlankIsBlank(s: string)
    requires JsonBlank(s)
    ensures Blank(s)
  {
    forall i | 0 <= i < |s| ensures Whitespace(s[i]) {
      assert s[i] == ' ' || s[i] == '\t' || s[i] == '\n' || s[i] == '\r';
    }
  }

  /** How the walk reads the line that a write produces, glued to whatever was left unended. */
  lemma WrittenLine(c: Crypto, r: Report, i: nat, left: string, b: Body)
    requires Laws(c) && r.error.None?
    ensures WalkLine(c, r, i, left + c.canon(Obj(b))) ==
            if !JsonBlank(left) then r.(error := Some(Break(i, NotJson)))
            else
              var v := VerifyBody(c, b, ExpectPrev(c, r), r.recordsOk);
              if v.Err? then r.(error := Some(Break(i, v.error)))
              else Report(Some(Tail(r.recordsOk, v.value)), None, r.recordsOk + 1)
  {
    var line := left + c.canon(Obj(b));
    assert OneLine(c.canon(Obj(b)));
    assert line[|left|] == '{' && !Whitespace('{');
    assert c.parse(line) == if JsonBlank(left) then Some(Obj(b)) else None;
  }

  /** The walk before the new line: the old lines, an unended blank piece skipped. */
  lemma WalkEnded(c: Crypto, file: string)
    requires Blank(Unended(file))
    ensures Walk(c, StripAll(Ended(file))) == Walk(c, Lines(file))
  {
    if Unended(file) != "" {
      WalkSnoc(c, StripAll(Ended(file)), Unended(file));
    } else {
      assert StripAll(Ended(file)) + [] == StripAll(Ended(file));
    }
  }

  /** The walk over a file after one more sealed record. */
  lemma WalkAfterWrite(c: Crypto, w: Writer, b: Body, number: nat)
    requires Laws(c)
    ensures var full := SealedBody(c, b, ContentHash(c, w.prev, b));
            var ended := StripAll(Ended(w.file));
            Walk(c, Lines(SealAndWrite(c, w, b, number).file))
            == WalkLine(c, Walk(c, ended), |ended|, Unended(w.file) + c.canon(Obj(full)))
    ensures Unended(SealAndWrite(c, w, b, number).file) == ""
  {
    var full := SealedBody(c, b, ContentHash(c, w.prev, b));
    var line := c.canon(Obj(full));
    assert OneLine(line);
    AppendedLine(w.file, line);
    WalkSnoc(c, StripAll(Ended(w.file)), Unended(w.file) + line);
  }

  // ---- The invariant of a writer ----

  /** The file is accepted, ends in a newline, and its tail and count are the writer's position. */
  ghost predicate Synced(c: Crypto, w: Writer) {
    && Unended(w.file) == ""
    && |w.prev| == c.width
    && Walk(c, Lines(w.file)) == Report(Some(Tail(w.number, Hex.Encode(w.prev))), None, w.number + 1)
  }

  /** Writing a record keeps the invariant exactly when its body was built at the current position. */
  lemma WriteKeepsSync(c: Crypto, w: Writer, number: nat, built: seq<Byte>, event: Body)
    requires Laws(c) && Synced(c, w) && number <= MAX_U64
    ensures Synced(c, SealAndWrite(c, w, Stamped(number, built, event), number))
            <==> number == w.number + 1 && built == w.prev
    ensures Accepted(c, Lines(SealAndWrite(c, w, Stamped(number, built, event), number).file)) <==>
            number == w.number + 1 && built == w.prev
  {
    var b := Stamped(number, built, event);
    var full := SealedBody(c, b, ContentHash(c, w.prev, b));
    WalkAfterWrite(c, w, b, number);
    WalkEnded(c, w.file);
    var r := Walk(c, Lines(w.file));
    WrittenLine(c, r, |StripAll(Ended(w.file))|, Unended(w.file), full);
    Hex.DecodeOfEncode(w.prev);
    Hex.DecodeOfEncode(built);
    SealedVerifies(c, number, built, event, w.prev, Hex.Encode(w.prev), w.number + 1);
  }

  lemma AppendKeepsSync(c: Crypto, w: Writer, event: Body)
    requires Laws(c) && Synced(c, w) && w.number < MAX_U64
    ensures Synced(c, Append(c, w, event))
  {
    assert Next(w.number) == w.number + 1;
    WriteKeepsSync(c, w, Next(w.number), w.prev, event);
  }

  /** A genesis record on a blank journal is accepted exactly when nothing but JSON whitespace precedes it. */
  lemma GenesisSyncs(c: Crypto, file: string, event: Body)
    requires Laws(c) && Blank(Unended(file)) && Walk(c, Lines(file)) == Report(None, None, 0)
    ensures Synced(c, Genesis(c, file, event)) <==> JsonBlank(Unended(file))
  {
    var w := Writer(0, Zeros(c), file);
    var b := Stamped(0, Zeros(c), event);
    var full := SealedBody(c, b, ContentHash(c, w.prev, b));
    WalkAfterWrite(c, w, b, 0);
    WalkEnded(c, file);
    WrittenLine(c, Walk(c, Lines(file)), |StripAll(Ended(file))|, Unended(file), full);
    Hex.DecodeOfEncode(Zeros(c));
    SealedVerifies(c, 0, Zeros(c), event, Zeros(c), GenesisPrev(c), 0);
  }

  // ---- Runs ----

  /** A new journal starts in step with its file. */
  lemma FreshJournalSyncs(c: Crypto, genesis: Body)
    requires Laws(c)
    ensures Opened(c, "", genesis).Ok? && Synced(c, Opened(c, "", genesis).value)
  {
    assert Split("", LF) == [""];
    assert Lines("") == [];
    GenesisSyncs(c, "", genesis);
  }

  /** Closing and reopening resumes exactly where the writer was. */
  lemma ReopenResumes(c: Crypto, w: Writer, genesis: Body)
    requires Laws(c) && Synced(c, w)
    ensures Opened(c, w.file, genesis) == Ok(w)
  {
    Hex.DecodeOfEncode(w.prev);
    if Blank(w.file) {
      BlankFileHasNoRecords(c, w.file);
    }
  }

  lemma BlankFileHasNoRecords(c: Crypto, file: string)
    requires Blank(file)
    ensures Walk(c, Lines(file)) == Report(None, None, 0)
  {
    var lines := Lines(file);
    forall i | 0 <= i < |lines| ensures Blank(lines[i]) {
      BlankPieces(file);
    }
    AllBlank(c, lines);
  }

  lemma BlankPieces(file: string)
    requires Blank(file)
    ensures forall i :: 0 <= i < |Lines(file)| ==> Blank(Lines(file)[i])
  {
    var pieces := Split(file, LF);
    forall i | 0 <= i < |pieces| ensures Blank(pieces[i]) && Blank(StripCr(pieces[i])) {
      PieceInside(pieces, i, [LF]);
      var at :| At(pieces[i], file, at);
      assert forall k :: 0 <= k < |pieces[i]| ==> pieces[i][k] == file[at + k];
    }
  }

  lemma {:induction false} PieceInside(parts: seq<string>, i: nat, sep: string)
    requires i < |parts|
    ensures exists at: int :: At(parts[i], Join(parts, sep), at)
    decreases |parts|
  {
    var all := Join(parts, sep);
    if i == 0 {
      assert At(parts[0], all, 0);
    } else {
      PieceInside(parts[1..], i - 1, sep);
      var at: int :| At(parts[1..][i - 1], Join(parts[1..], sep), at);
      var lead := |parts[0] + sep|;
      assert all[lead + at..lead + at + |parts[i]|] == Join(parts[1..], sep)[at..at + |parts[i]|];
      assert At(parts[i], all, lead + at);
    }
  }

  lemma {:induction false} AllBlank(c: Crypto, lines: seq<string>)
    requires forall i :: 0 <= i < |lines| ==> Blank(lines[i])
    ensures Walk(c, lines) == Report(None, None, 0)
    decreases |lines|
  {
    if lines != [] {
      AllBlank(c, lines[..|lines| - 1]);
    }
  }

  datatype Op = Record(event: Body) | Reopen(genesis: Body)

  /** The writer after a run of appends, by any callers in the order they took the lock, and reopenings. */
  function After(c: Crypto, genesis: Body, ops: seq<Op>): Result<Writer, OpenError> {
    if ops == [] then Opened(c, "", genesis)
    else
      var w := After(c, genesis, ops[..|ops| - 1]);
      if w.Err? then w
      else
        match ops[|ops| - 1]
        case Record(event) => Ok(Append(c, w.value, event))
        case Reopen(again) => Opened(c, w.value.file, again)
  }

  /**
   * Over every run the journal is accepted, the verifier's tail is the writer's head, and the record
   * count is one more than the head's number.
   */
  lemma {:induction false} RunStaysSynced(c: Crypto, genesis: Body, ops: seq<Op>)
    requires Laws(c) && |ops| <= MAX_U64
    ensures After(c, genesis, ops).Ok?
    ensures Synced(c, After(c, genesis, ops).value) && After(c, genesis, ops).value.number <= |ops|
    decreases |ops|
  {
    if ops == [] {
      FreshJournalSyncs(c, genesis);
    } else {
      var front := ops[..|ops| - 1];
      RunStaysSynced(c, genesis, front);
      var w := After(c, genesis, front).value;
      match ops[|ops| - 1]
      case Record(event) => AppendKeepsSync(c, w, event);
      case Reopen(again) => ReopenResumes(c, w, again);
    }
  }

  // ---- Extending a journal the writer did not leave behind ----

  /**
   * Any accepted journal can be opened, but the next record is accepted exactly when the journal ends
   * in a newline (JSON blanks aside) and its last hash is written in lower case.
   */
  lemma ExtendsExactlyWhen(c: Crypto, file: string, genesis: Body, event: Body)
    requires Laws(c) && !Blank(file) && Accepted(c, Lines(file))
    requires Walk(c, Lines(file)).tail.Some? && Walk(c, Lines(file)).recordsOk <= MAX_U64
    ensures Opened(c, file, genesis).Ok?
    ensures var tail := Walk(c, Lines(file)).tail.value;
            Accepted(c, Lines(Append(c, Opened(c, file, genesis).value, event).file)) <==>
            JsonBlank(Unended(file)) && Hex.LowerAll(tail.hashHex) == tail.hashHex
  {
    var r := Walk(c, Lines(file));
    AcceptedIsChain(c, Lines(file));
    var bodies := Bodies(c, Lines(file));
    assert |ChainHash(c, bodies)| == c.width;
    var w := Opened(c, file, genesis).value;
    var b := Stamped(Next(w.number), w.prev, event);
    var full := SealedBody(c, b, ContentHash(c, w.prev, b));
    WalkAfterWrite(c, w, b, Next(w.number));
    Hex.EncodeOfDecode(r.tail.value.hashHex);
    SealedVerifies(c, Next(w.number), w.prev, event, w.prev, r.tail.value.hashHex, r.recordsOk);
    var ended := StripAll(Ended(file));
    if JsonBlank(Unended(file)) {
      JsonBlankIsBlank(Unended(file));
      WalkEnded(c, file);
      WrittenLine(c, r, |ended|, Unended(file), full);
    } else {
      assert Lines(file)[..|ended|] == ended;
      PrefixAccepted(c, Lines(file), |ended|);
      WrittenLine(c, Walk(c, ended), |ended|, Unended(file), full);
    }
  }
}

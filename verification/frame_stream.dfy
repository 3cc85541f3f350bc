/** Frames on a stream: what is written is what is read, and a cut stream never yields another message. */
module FrameStream {
  import opened Text
  import opened JournalText
  import opened Codec

  // ---- Reading ----

  /** One frame at the start of `input`: its text and the bytes it took. */
  function ReadOne(utf8: Utf8, input: string): (r: Result<(string, nat), FrameError>)
    ensures r.Ok? ==> 0 < r.value.1 <= |input|
  {
    var h := HeaderFrom(input, 0);
    if h.Err? then Err(h.error)
    else
      var n := ContentLength(utf8, input[..h.value]);
      if n.Err? then Err(n.error)
      else if n.value > MAX_FRAME_BYTES then Err(FrameTooLarge(n.value))
      else if h.value + n.value > |input| then Err(UnexpectedEof)
      else
        var text := utf8(input[h.value..h.value + n.value]);
        if text.None? then Err(InvalidUtf8) else Ok((text.value, h.value + n.value))
  }

  lemma NextByte(input: string, start: nat, buf: string)
    requires start + |buf| < |input| && buf == input[start..][..|buf|]
    ensures buf + [input[start + |buf|]] == input[start..][..|buf| + 1]
  {
  }

  class Reader {
    const input: string
    var pos: nat

    ghost predicate Valid()
      reads this
    {
      pos <= |input|
    }

    constructor (input: string)
      ensures Valid() && this.input == input && pos == 0
    {
      this.input := input;
      pos := 0;
    }

    /** Byte by byte up to and including the blank line. */
    method ReadHeader() returns (r: Result<string, FrameError>)
      requires Valid()
      modifies this
      ensures Valid()
      ensures var h := HeaderFrom(input[old(pos)..], 0);
              && (h.Err? ==> r == Err(h.error))
              && (h.Ok? ==> pos == old(pos) + h.value && r == Ok(input[old(pos)..][..h.value]))
    {
      ghost var whole := input[pos..];
      ghost var want := HeaderFrom(whole, 0);
      var buf := "";
      while true
        invariant Valid() && pos == old(pos) + |buf|
        invariant buf == whole[..|buf|]
        invariant |buf| <= |whole| && HeaderFrom(whole, |buf|) == want
        decreases |input| - pos
      {
        if pos == |input| {
          if buf == "" { return Err(Closed); }
          return Err(UnexpectedEof);
        }
        NextByte(input, pos - |buf|, buf);
        buf := buf + [input[pos]];
        pos := pos + 1;
        if |buf| > MAX_HEADER_BYTES { return Err(HeaderTooLarge); }
        if EndsWith(buf, TERMINATOR) { return Ok(buf); }
      }
    }

    method ReadBody(utf8: Utf8, n: nat) returns (r: Result<string, FrameError>)
      requires Valid()
      modifies this
      ensures Valid() && pos == (if old(pos) + n > |input| then |input| else old(pos) + n)
      ensures var rest := input[old(pos)..];
              r == if n > |rest| then Err(UnexpectedEof)
                   else if utf8(rest[..n]).None? then Err(InvalidUtf8)
                   else Ok(utf8(rest[..n]).value)
    {
      ghost var rest := input[pos..];
      if pos + n > |input| {
        pos := |input|;
        return Err(UnexpectedEof);
      }
      assert input[pos..pos + n] == rest[..n];
      var text := utf8(input[pos..pos + n]);
      pos := pos + n;
      if text.None? { return Err(InvalidUtf8); }
      return Ok(text.value);
    }

    /** One framed message. A declared length over the limit is refused before any body byte is read. */
    method ReadFrame(utf8: Utf8) returns (r: Result<string, FrameError>)
      requires Valid()
      modifies this
      ensures Valid()
      ensures var one := ReadOne(utf8, input[old(pos)..]);
              && (one.Err? ==> r == Err(one.error))
              && (one.Ok? ==> r == Ok(one.value.0) && pos == old(pos) + one.value.1)
      ensures r.Err? && r.error.FrameTooLarge? ==>
                HeaderFrom(input[old(pos)..], 0).Ok? && pos == old(pos) + HeaderFrom(input[old(pos)..], 0).value
    {
      var start := pos;
      ghost var whole := input[start..];
      var header := ReadHeader();
      if header.Err? { return Err(header.error); }
      var n := ParseContentLength(utf8, header.value);
      if n.Err? { return Err(n.error); }
      if n.value > MAX_FRAME_BYTES { return Err(FrameTooLarge(n.value)); }
      ghost var h, rest := pos - start, input[pos..];
      assert n.value <= |rest| ==> rest[..n.value] == whole[h..h + n.value];
      r := ReadBody(utf8, n.value);
    }
  }

  /** Frames until the first failure, and that failure. */
  function ReadAll(utf8: Utf8, input: string): (seq<string>, FrameError)
    decreases |input|
  {
    var one := ReadOne(utf8, input);
    if one.Err? then ([], one.error)
    else
      var (rest, e) := ReadAll(utf8, input[one.value.1..]);
      ([one.value.0] + rest, e)
  }

  // ---- Writing ----

  function Header(n: nat): string {
    "Content-Length: " + Decimal(n) + TERMINATOR
  }

  function Written(payload: string): string {
    Header(|payload|) + payload
  }

  function Stream(payloads: seq<string>): string {
    if payloads == [] then "" else Written(payloads[0]) + Stream(payloads[1..])
  }

  // ---- What the parameters promise ----

  predicate Ascii(s: string) {
    forall i :: 0 <= i < |s| ==> s[i] < '\U{80}'
  }

  ghost predicate DecodesAscii(utf8: Utf8) {
    forall s: string {:trigger Ascii(s)} :: Ascii(s) ==> utf8(s) == Some(s)
  }

  // ---- A written header reads back ----

  /** The first terminator of a block whose body has no carriage return is its own. */
  lemma {:induction false} HeaderEndsThere(body: string, rest: string, n: nat)
    requires CR !in body && |body| + 4 <= MAX_HEADER_BYTES && n < |body| + 4
    ensures HeaderFrom(body + TERMINATOR + rest, n) == Ok(|body| + 4)
    decreases |body| + 4 - n
  {
    var input := body + TERMINATOR + rest;
    var seen := input[..n + 1];
    assert seen == (body + TERMINATOR)[..n + 1];
    if n + 1 == |body| + 4 {
      assert seen == body + TERMINATOR;
      assert seen[|body|..] == TERMINATOR;
    } else {
      NotYet(body, n + 1);
      HeaderEndsThere(body, rest, n + 1);
    }
  }

  lemma NotYet(body: string, m: nat)
    requires CR !in body && m < |body| + 4
    ensures !EndsWith((body + TERMINATOR)[..m], TERMINATOR)
  {
    var seen := (body + TERMINATOR)[..m];
    if m >= 4 {
      assert seen[m - 4] == body[m - 4];
      assert seen[m - 4..][0] == body[m - 4];
    }
  }

  /** A header block cut short is an unexpected end, or a clean close if nothing came at all. */
  lemma {:induction false} CutHeader(body: string, k: nat, n: nat)
    requires CR !in body && |body| + 4 <= MAX_HEADER_BYTES && n <= k < |body| + 4
    ensures HeaderFrom((body + TERMINATOR)[..k], n) == Err(if k == 0 then Closed else UnexpectedEof)
    decreases k - n
  {
    var input := (body + TERMINATOR)[..k];
    if n < k {
      assert input[..n + 1] == (body + TERMINATOR)[..n + 1];
      NotYet(body, n + 1);
      CutHeader(body, k, n + 1);
    }
  }

  lemma AtHolds(needle: string, hay: string, at: nat)
    requires needle != "" && At(needle, hay, at)
    ensures needle[0] in hay
  {
    assert hay[at] == hay[at..at + |needle|][0];
  }

  lemma EndHolds(hay: string, tail: string)
    requires tail != "" && EndsWith(hay, tail)
    ensures tail[0] in hay
  {
    assert hay[|hay| - |tail|] == hay[|hay| - |tail|..][0];
  }

  lemma TrimsOneTerminator(body: string)
    requires CR !in body
    ensures TrimEndMatches(body + TERMINATOR, TERMINATOR) == body
  {
    var s := body + TERMINATOR;
    assert s[|body|..] == TERMINATOR && s[..|s| - 4] == body;
    if EndsWith(body, TERMINATOR) { EndHolds(body, TERMINATOR); }
  }

  lemma OneHeaderLine(body: string)
    requires CR !in body
    ensures SplitStr(body, CRLF) == [body]
  {
    var at := FindFrom(body, CRLF, 0);
    if at.Some? { AtHolds(CRLF, body, at.value); }
  }

  lemma DigitsAreNotSpace(s: string)
    requires AllDigits(s) && s != ""
    ensures Trim(" " + s) == s
  {
    assert (" " + s)[1..] == s && Whitespace(' ');
    assert IsDigit(s[0]) && IsDigit(s[|s| - 1]);
    assert TrimStart(s) == s;
    assert TrimStart(" " + s) == s && TrimEnd(s) == s;
  }

  const LENGTH_NAME: string := "Content-Length"

  lemma LengthNameTrims()
    ensures Trim(LENGTH_NAME) == LENGTH_NAME && EqIgnoreAsciiCase(LENGTH_NAME, "content-length")
    ensures ':' !in LENGTH_NAME && CR !in LENGTH_NAME && Ascii(LENGTH_NAME)
  {
  }

  /** The one line of a written header declares the payload's length. */
  lemma LineParts(value: string)
    requires ':' !in value
    ensures var line := LENGTH_NAME + ":" + value;
            ':' in line && NameOf(line) == LENGTH_NAME && ValueOf(line) == value
  {
    var line := LENGTH_NAME + ":" + value;
    var parts := [LENGTH_NAME, value];
    assert parts[1..] == [value];
    assert Join(parts, [':']) == line;
    SplitOfJoin(parts, ':');
    assert line[|LENGTH_NAME|] == ':';
    assert line[|LENGTH_NAME| + 1..] == value;
  }

  lemma LengthLine(n: nat)
    requires n <= MAX_U64
    ensures var line := LENGTH_NAME + ":" + (" " + Decimal(n));
            IsLength(line) && ParseU64(Trim(ValueOf(line))) == Some(n) && CR !in line && Ascii(line)
  {
    var value := " " + Decimal(n);
    var line := LENGTH_NAME + ":" + value;
    LengthNameTrims();
    DecimalRoundTrip(n);
    forall i | 0 <= i < |value| ensures value[i] != ':' && value[i] != CR && value[i] < '\U{80}' {
      if i > 0 { assert IsDigit(Decimal(n)[i - 1]); }
    }
    LineParts(value);
    DigitsAreNotSpace(Decimal(n));
    assert IsDigit(Decimal(n)[0]);
  }

  /** A header block of one length line. */
  lemma OneLineHeader(utf8: Utf8, line: string, n: nat)
    requires DecodesAscii(utf8) && CR !in line && Ascii(line)
    requires IsLength(line) && ParseU64(Trim(ValueOf(line))) == Some(n)
    ensures ContentLength(utf8, line + TERMINATOR) == Ok(n)
  {
    assert Ascii(line + TERMINATOR);
    TrimsOneTerminator(line);
    OneHeaderLine(line);
    assert [line][1..] == [];
    assert LengthIn([line], None) == LengthIn([], Some(n));
  }

  lemma HeaderIsOneLine(n: nat)
    ensures Header(n) == LENGTH_NAME + ":" + (" " + Decimal(n)) + TERMINATOR
  {
    assert "Content-Length: " == LENGTH_NAME + ":" + " ";
  }

  /** Every length a frame may declare is written as one line that reads back. */
  lemma WrittenHeaderReads(utf8: Utf8, n: nat) returns (body: string)
    requires DecodesAscii(utf8) && n <= MAX_U64
    ensures ContentLength(utf8, Header(n)) == Ok(n)
    ensures Header(n) == body + TERMINATOR && CR !in body && |body| + 4 <= MAX_HEADER_BYTES
  {
    body := LENGTH_NAME + ":" + (" " + Decimal(n));
    LengthLine(n);
    HeaderIsOneLine(n);
    OneLineHeader(utf8, body, n);
    TwentyDigits();
    DecimalLength(n, 20);
  }

  lemma SevenDigits()
    ensures Pow10(7) == 10_000_000
  {
    assert Pow10(3) == 1000;
    assert Pow10(5) == 100 * Pow10(3);
    assert Pow10(7) == 100 * Pow10(5);
  }

  // ---- The stream ----

  lemma FrameReads(utf8: Utf8, payload: string, rest: string)
    requires DecodesAscii(utf8) && |payload| <= MAX_FRAME_BYTES && utf8(payload).Some?
    ensures ReadOne(utf8, Written(payload) + rest) == Ok((utf8(payload).value, |Written(payload)|))
  {
    var n := |payload|;
    var body := WrittenHeaderReads(utf8, n);
    var input := Written(payload) + rest;
    assert input == body + TERMINATOR + (payload + rest);
    HeaderEndsThere(body, payload + rest, 0);
    assert input[..|Header(n)|] == Header(n);
    assert input[|Header(n)|..|Header(n)| + n] == payload;
  }

  ghost predicate Sendable(utf8: Utf8, payloads: seq<string>) {
    forall i :: 0 <= i < |payloads| ==> |payloads[i]| <= MAX_FRAME_BYTES && utf8(payloads[i]).Some?
  }

  ghost function Texts(utf8: Utf8, payloads: seq<string>): seq<string>
    requires Sendable(utf8, payloads)
  {
    seq(|payloads|, i requires 0 <= i < |payloads| => utf8(payloads[i]).value)
  }

  /** A frame cut anywhere before its end is an unexpected end, or a close if nothing of it came. */
  lemma CutFrame(utf8: Utf8, payload: string, k: nat)
    requires DecodesAscii(utf8) && |payload| <= MAX_FRAME_BYTES && k < |Written(payload)|
    ensures ReadOne(utf8, Written(payload)[..k]) == Err(if k == 0 then Closed else UnexpectedEof)
  {
    var n := |payload|;
    var body := WrittenHeaderReads(utf8, n);
    var input := Written(payload)[..k];
    if k < |Header(n)| {
      assert input == (body + TERMINATOR)[..k];
      CutHeader(body, k, 0);
    } else {
      var part := payload[..k - |Header(n)|];
      assert input == body + TERMINATOR + part;
      HeaderEndsThere(body, part, 0);
      assert input[..|Header(n)|] == Header(n);
    }
  }

  /** Where a cut at byte `k` falls: how many whole frames precede it, and whether it is on a boundary. */
  function WholeFrames(payloads: seq<string>, k: nat): (nat, bool) {
    if payloads == [] then (0, true)
    else if k < |Written(payloads[0])| then (0, k == 0)
    else
      var (j, clean) := WholeFrames(payloads[1..], k - |Written(payloads[0])|);
      (j + 1, clean)
  }

  lemma {:induction false} WholeFramesBound(payloads: seq<string>, k: nat)
    requires k <= |Stream(payloads)|
    ensures WholeFrames(payloads, k).0 <= |payloads|
    ensures k == |Stream(payloads)| ==> WholeFrames(payloads, k) == (|payloads|, true)
    decreases |payloads|
  {
    if payloads != [] && k >= |Written(payloads[0])| {
      WholeFramesBound(payloads[1..], k - |Written(payloads[0])|);
    }
  }

  lemma {:induction false} ReadAllStep(utf8: Utf8, payload: string, more: string)
    requires DecodesAscii(utf8) && |payload| <= MAX_FRAME_BYTES && utf8(payload).Some?
    ensures ReadAll(utf8, Written(payload) + more)
         == ([utf8(payload).value] + ReadAll(utf8, more).0, ReadAll(utf8, more).1)
  {
    FrameReads(utf8, payload, more);
    assert (Written(payload) + more)[|Written(payload)|..] == more;
  }

  lemma {:induction false} TextsStep(utf8: Utf8, payloads: seq<string>, j: nat)
    requires Sendable(utf8, payloads) && payloads != [] && j < |payloads|
    ensures Texts(utf8, payloads)[..j + 1] == [utf8(payloads[0]).value] + Texts(utf8, payloads[1..])[..j]
  {
  }

  /** The first `k` bytes yield the messages whose frames are whole, then a close on a boundary or an unexpected end. */
  ghost predicate CutYields(utf8: Utf8, payloads: seq<string>, k: nat)
    requires Sendable(utf8, payloads) && k <= |Stream(payloads)|
  {
    var (j, clean) := WholeFrames(payloads, k);
    j <= |payloads| &&
    ReadAll(utf8, Stream(payloads)[..k]) == (Texts(utf8, payloads)[..j], if clean then Closed else UnexpectedEof)
  }

  /** Any prefix of a written stream yields just that. It never yields another message. */
  lemma {:induction false} CutStream(utf8: Utf8, payloads: seq<string>, k: nat)
    requires DecodesAscii(utf8) && Sendable(utf8, payloads) && k <= |Stream(payloads)|
    ensures CutYields(utf8, payloads, k)
    decreases |payloads|
  {
    if payloads == [] {
      CutNothing(utf8);
    } else if k < |Written(payloads[0])| {
      CutInFirst(utf8, payloads, k);
    } else {
      CutAfterFirst(utf8, payloads, k);
    }
  }

  lemma StreamLength(payloads: seq<string>)
    requires payloads != []
    ensures |Stream(payloads)| == |Written(payloads[0])| + |Stream(payloads[1..])|
  {
  }

  lemma {:induction false} CutNothing(utf8: Utf8)
    ensures CutYields(utf8, [], 0)
  {
    assert Stream([])[..0] == "";
  }

  lemma {:induction false} CutAfterFirst(utf8: Utf8, payloads: seq<string>, k: nat)
    requires DecodesAscii(utf8) && Sendable(utf8, payloads) && payloads != []
    requires |Written(payloads[0])| <= k <= |Stream(payloads)|
    ensures CutYields(utf8, payloads, k)
    decreases |payloads|, 0
  {
    StreamLength(payloads);
    var rest := k - |Written(payloads[0])|;
    CutStream(utf8, payloads[1..], rest);
    CutLater(utf8, payloads, k);
    var j := WholeFrames(payloads[1..], rest).0;
    TextsStep(utf8, payloads, j);
    assert WholeFrames(payloads, k) == (j + 1, WholeFrames(payloads[1..], rest).1);
  }

  lemma {:induction false} CutInFirst(utf8: Utf8, payloads: seq<string>, k: nat)
    requires DecodesAscii(utf8) && Sendable(utf8, payloads) && payloads != [] && k < |Written(payloads[0])|
    ensures k <= |Stream(payloads)|
    ensures CutYields(utf8, payloads, k)
  {
    assert Stream(payloads)[..k] == Written(payloads[0])[..k];
    CutFrame(utf8, payloads[0], k);
  }

  lemma {:induction false} CutLater(utf8: Utf8, payloads: seq<string>, k: nat)
    requires DecodesAscii(utf8) && Sendable(utf8, payloads) && payloads != []
    requires |Written(payloads[0])| <= k <= |Stream(payloads)|
    ensures k - |Written(payloads[0])| <= |Stream(payloads[1..])|
    ensures var rest := ReadAll(utf8, Stream(payloads[1..])[..k - |Written(payloads[0])|]);
            ReadAll(utf8, Stream(payloads)[..k]) == ([utf8(payloads[0]).value] + rest.0, rest.1)
  {
    var first := Written(payloads[0]);
    assert Stream(payloads) == first + Stream(payloads[1..]);
    var more := Stream(payloads[1..])[..k - |first|];
    assert Stream(payloads)[..k] == first + more;
    ReadAllStep(utf8, payloads[0], more);
  }

  /** Everything written is read back in order, then the stream closes. */
  lemma StreamRoundTrip(utf8: Utf8, payloads: seq<string>)
    requires DecodesAscii(utf8) && Sendable(utf8, payloads)
    ensures ReadAll(utf8, Stream(payloads)) == (Texts(utf8, payloads), Closed)
  {
    var all := Stream(payloads);
    assert all[..|all|] == all;
    CutStream(utf8, payloads, |all|);
    WholeFramesBound(payloads, |all|);
    assert Texts(utf8, payloads)[..|payloads|] == Texts(utf8, payloads);
  }

  /** An oversized payload is refused by its declared length. */
  lemma OversizeRefused(utf8: Utf8, n: nat, rest: string)
    requires DecodesAscii(utf8) && MAX_FRAME_BYTES < n <= MAX_U64
    ensures ReadOne(utf8, Header(n) + rest) == Err(FrameTooLarge(n))
  {
    var body := WrittenHeaderReads(utf8, n);
    HeaderEndsThere(body, rest, 0);
    assert (Header(n) + rest)[..|Header(n)|] == Header(n);
  }

  lemma TwentyDigits()
    ensures Pow10(20) == 100_000_000_000_000_000_000
  {
    SevenDigits();
    assert Pow10(10) == 1000 * Pow10(7);
    assert Pow10(13) == 1000 * Pow10(10);
    assert Pow10(16) == 1000 * Pow10(13);
    assert Pow10(19) == 1000 * Pow10(16);
    assert Pow10(20) == 10 * Pow10(19);
  }
}

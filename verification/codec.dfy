/** The Content-Length frame codec. Bytes are modelled as characters; UTF-8 decoding is a parameter. */
module Codec {
  import opened Text
  import opened JournalText

  const MAX_FRAME_BYTES: nat := 8 * 1024 * 1024
  const MAX_HEADER_BYTES: nat := 16 * 1024
  const MAX_U64: nat := 0xFFFF_FFFF_FFFF_FFFF
  const CRLF: string := "\r\n"
  const TERMINATOR: string := "\r\n\r\n"

  type Utf8 = string -> Option<string>

  datatype Malformation = NotText | NoColon | NotANumber | DuplicateLength | MissingLength

  datatype FrameError =
    | Closed
    | MalformedHeader(why: Malformation)
    | HeaderTooLarge
    | FrameTooLarge(n: nat)
    | UnexpectedEof
    | InvalidUtf8

  // ---- The header block ----

  /** Length of the header block at the start of `input`, `n` bytes of which have been read. */
  function HeaderFrom(input: string, n: nat): (r: Result<nat, FrameError>)
    requires n <= |input|
    ensures r.Ok? ==> n < r.value <= |input|
    ensures r.Err? ==> r.error in {Closed, UnexpectedEof, HeaderTooLarge}
    decreases |input| - n
  {
    if n == |input| then Err(if n == 0 then Closed else UnexpectedEof)
    else if n + 1 > MAX_HEADER_BYTES then Err(HeaderTooLarge)
    else if EndsWith(input[..n + 1], TERMINATOR) then Ok(n + 1)
    else HeaderFrom(input, n + 1)
  }

  function TrimEndMatches(s: string, tail: string): string
    requires tail != ""
    decreases |s|
  {
    if EndsWith(s, tail) then TrimEndMatches(s[..|s| - |tail|], tail) else s
  }

  /** Pieces between occurrences of a separator of any length. */
  function SplitStr(s: string, sep: string): (parts: seq<string>)
    requires sep != ""
    ensures |parts| >= 1
    decreases |s|
  {
    var at := FindFrom(s, sep, 0);
    if at.None? then [s] else [s[..at.value]] + SplitStr(s[at.value + |sep|..], sep)
  }

  function TrimStart(s: string): string {
    if s != "" && Whitespace(s[0]) then TrimStart(s[1..]) else s
  }

  function TrimEnd(s: string): string {
    if s != "" && Whitespace(s[|s| - 1]) then TrimEnd(s[..|s| - 1]) else s
  }

  function Trim(s: string): string { TrimEnd(TrimStart(s)) }

  function LowerAscii(c: char): char {
    if 'A' <= c <= 'Z' then 'a' + (c - 'A') else c
  }

  predicate EqIgnoreAsciiCase(s: string, t: string) {
    |s| == |t| && forall i :: 0 <= i < |s| ==> LowerAscii(s[i]) == LowerAscii(t[i])
  }

  // ---- Numbers ----

  predicate IsDigit(c: char) { '0' <= c <= '9' }

  predicate AllDigits(s: string) {
    forall i :: 0 <= i < |s| ==> IsDigit(s[i])
  }

  function DecimalValue(s: string): nat
    requires AllDigits(s)
  {
    if s == "" then 0 else DecimalValue(s[..|s| - 1]) * 10 + (s[|s| - 1] - '0') as int
  }

  /** Unsigned 64-bit parsing: an optional plus sign, then digits, no overflow. */
  function ParseU64(s: string): Option<nat> {
    var digits := if s != "" && s[0] == '+' then s[1..] else s;
    if digits == "" || !AllDigits(digits) || DecimalValue(digits) > MAX_U64 then None
    else Some(DecimalValue(digits))
  }

  function Decimal(n: nat): string {
    if n < 10 then ['0' + n as char] else Decimal(n / 10) + ['0' + (n % 10) as char]
  }

  lemma {:induction false} DecimalRoundTrip(n: nat)
    ensures AllDigits(Decimal(n)) && Decimal(n) != "" && DecimalValue(Decimal(n)) == n
  {
    if n < 10 {
      assert Decimal(n)[..0] == "";
    } else {
      DecimalRoundTrip(n / 10);
      assert Decimal(n)[..|Decimal(n)| - 1] == Decimal(n / 10);
    }
  }

  ghost function Pow10(k: nat): nat {
    if k == 0 then 1 else 10 * Pow10(k - 1)
  }

  lemma {:induction false} DecimalLength(n: nat, k: nat)
    requires k >= 1 && n < Pow10(k)
    ensures |Decimal(n)| <= k
  {
    if n >= 10 {
      DecimalLength(n / 10, k - 1);
    }
  }

  // ---- The length header ----

  function NameOf(line: string): string
    requires ':' in line
  {
    Split(line, ':')[0]
  }

  function ValueOf(line: string): string
    requires ':' in line
  {
    line[|NameOf(line)| + 1..]
  }

  predicate IsLength(line: string) {
    ':' in line && EqIgnoreAsciiCase(Trim(NameOf(line)), "content-length")
  }

  /** The scan over header lines, with the length found so far. */
  function LengthIn(lines: seq<string>, found: Option<nat>): (r: Result<nat, FrameError>)
    ensures r.Err? ==> r.error.MalformedHeader?
  {
    if lines == [] then if found.None? then Err(MalformedHeader(MissingLength)) else Ok(found.value)
    else if lines[0] == "" then LengthIn(lines[1..], found)
    else if ':' !in lines[0] then Err(MalformedHeader(NoColon))
    else if !IsLength(lines[0]) then LengthIn(lines[1..], found)
    else
      var n := ParseU64(Trim(ValueOf(lines[0])));
      if n.None? then Err(MalformedHeader(NotANumber))
      else if found.Some? then Err(MalformedHeader(DuplicateLength))
      else LengthIn(lines[1..], n)
  }

  function HeaderLines(text: string): seq<string> {
    SplitStr(TrimEndMatches(text, TERMINATOR), CRLF)
  }

  function ContentLength(utf8: Utf8, header: string): Result<nat, FrameError> {
    var text := utf8(header);
    if text.None? then Err(MalformedHeader(NotText)) else LengthIn(HeaderLines(text.value), None)
  }

  method ParseContentLength(utf8: Utf8, header: string) returns (r: Result<nat, FrameError>)
    ensures r == ContentLength(utf8, header)
  {
    var text := utf8(header);
    if text.None? { return Err(MalformedHeader(NotText)); }
    var lines := HeaderLines(text.value);
    var found: Option<nat> := None;
    assert lines[0..] == lines;
    for i := 0 to |lines|
      invariant LengthIn(lines[i..], found) == LengthIn(lines, None)
    {
      assert lines[i..][0] == lines[i] && lines[i..][1..] == lines[i + 1..];
      if lines[i] != "" {
        if ':' !in lines[i] { return Err(MalformedHeader(NoColon)); }
        if IsLength(lines[i]) {
          var n := ParseU64(Trim(ValueOf(lines[i])));
          if n.None? { return Err(MalformedHeader(NotANumber)); }
          if found.Some? { return Err(MalformedHeader(DuplicateLength)); }
          found := n;
        }
      }
    }
    if found.None? { return Err(MalformedHeader(MissingLength)); }
    return Ok(found.value);
  }

  ghost predicate Named(line: string) {
    line != "" ==> ':' in line
  }

  /** Every line names a header and none is a length. */
  ghost predicate NoLengths(lines: seq<string>) {
    forall k :: 0 <= k < |lines| ==> Named(lines[k]) && !IsLength(lines[k])
  }

  /** Line `i` alone is the length, and it says `n`. */
  ghost predicate SoleLength(lines: seq<string>, i: nat, n: nat) {
    && i < |lines| && IsLength(lines[i]) && ParseU64(Trim(ValueOf(lines[i]))) == Some(n)
    && NoLengths(lines[..i]) && NoLengths(lines[i + 1..])
  }

  /** Exactly one header line declares a length, and it says `n`. */
  ghost predicate Declares(lines: seq<string>, n: nat) {
    exists i: nat :: SoleLength(lines, i, n)
  }

  lemma {:induction false} NoLengthsCons(lines: seq<string>)
    requires lines != []
    ensures NoLengths(lines) <==> Named(lines[0]) && !IsLength(lines[0]) && NoLengths(lines[1..])
  {
    assert forall k :: 1 <= k < |lines| ==> lines[k] == lines[1..][k - 1];
    assert forall k :: 0 <= k < |lines[1..]| ==> lines[1..][k] == lines[k + 1];
  }

  lemma {:induction false} SoleLengthCons(lines: seq<string>, i: nat, n: nat)
    requires lines != []
    ensures i == 0 ==> (SoleLength(lines, i, n) <==>
              IsLength(lines[0]) && ParseU64(Trim(ValueOf(lines[0]))) == Some(n) && NoLengths(lines[1..]))
    ensures i > 0 ==> (SoleLength(lines, i, n) <==>
              Named(lines[0]) && !IsLength(lines[0]) && SoleLength(lines[1..], i - 1, n))
  {
    if 0 < i < |lines| {
      NoLengthsCons(lines[..i]);
      assert lines[..i][1..] == lines[1..][..i - 1] && lines[1..][i..] == lines[i + 1..];
    }
  }

  lemma {:induction false} LengthAlreadyFound(lines: seq<string>, m: nat, n: nat)
    ensures LengthIn(lines, Some(m)) == Ok(n) <==> m == n && NoLengths(lines)
    decreases |lines|
  {
    if lines != [] {
      LengthAlreadyFound(lines[1..], m, n);
      NoLengthsCons(lines);
    }
  }

  /** A length is accepted exactly when one header line declares it: none missing, none repeated. */
  lemma {:induction false} LengthExactly(lines: seq<string>, n: nat)
    ensures LengthIn(lines, None) == Ok(n) <==> Declares(lines, n)
    decreases |lines|
  {
    if lines != [] {
      var rest := lines[1..];
      forall i: nat ensures SoleLength(lines, i, n) <==>
        if i == 0 then IsLength(lines[0]) && ParseU64(Trim(ValueOf(lines[0]))) == Some(n) && NoLengths(rest)
        else Named(lines[0]) && !IsLength(lines[0]) && SoleLength(rest, i - 1, n)
      {
        SoleLengthCons(lines, i, n);
      }
      if IsLength(lines[0]) {
        var v := ParseU64(Trim(ValueOf(lines[0])));
        if v.Some? { LengthAlreadyFound(rest, v.value, n); }
        assert Declares(lines, n) <==> SoleLength(lines, 0, n);
      } else {
        LengthExactly(rest, n);
        if Declares(rest, n) && Named(lines[0]) {
          var i: nat :| SoleLength(rest, i, n);
          assert SoleLength(lines, i + 1, n);
        }
        if Declares(lines, n) {
          var i: nat :| SoleLength(lines, i, n);
          assert SoleLength(rest, i - 1, n);
        }
      }
    }
  }
}

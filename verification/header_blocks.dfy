/** Header blocks as texts: which lines a block holds, which length it declares, and which frame it announces. */
module HeaderBlocks {
  import opened Text
  import opened JournalText
  import opened Codec
  import opened FrameStream

  // ---- Splitting at line breaks ----

  /** No carriage return stands right before a line feed. */
  predicate Unbroken(s: string) {
    forall k :: 1 <= k < |s| ==> !(s[k - 1] == CR && s[k] == LF)
  }

  predicate AllUnbroken(lines: seq<string>) {
    forall i :: 0 <= i < |lines| ==> Unbroken(lines[i])
  }

  lemma BreakAt(s: string, k: int)
    ensures At(CRLF, s, k) <==> 0 <= k && k + 2 <= |s| && s[k] == CR && s[k + 1] == LF
  {
    if 0 <= k && k + 2 <= |s| {
      assert s[k..k + 2] == [s[k], s[k + 1]];
    }
  }

  lemma {:induction false} NoBreak(s: string)
    requires Unbroken(s)
    ensures FindFrom(s, CRLF, 0) == None
  {
    forall k: int ensures !At(CRLF, s, k) {
      BreakAt(s, k);
      assert 0 <= k && k + 1 < |s| ==> !(s[k + 1 - 1] == CR && s[k + 1] == LF);
    }
  }

  lemma {:induction false} FirstBreak(first: string, rest: string)
    requires Unbroken(first)
    ensures FindFrom(first + CRLF + rest, CRLF, 0) == Some(|first|)
  {
    var text := first + CRLF + rest;
    BreakAt(text, |first|);
    forall k: int | 0 <= k < |first| ensures !At(CRLF, text, k) {
      BreakAt(text, k);
      assert text[k] == first[k];
      assert k + 1 < |first| ==> text[k + 1] == first[k + 1] && !(first[k + 1 - 1] == CR && first[k + 1] == LF);
      assert k + 1 == |first| ==> text[k + 1] == CR;
    }
  }

  lemma {:induction false} FirstLineSplits(first: string, rest: string)
    requires Unbroken(first)
    ensures SplitStr(first + CRLF + rest, CRLF) == [first] + SplitStr(rest, CRLF)
  {
    var text := first + CRLF + rest;
    FirstBreak(first, rest);
    assert text[..|first|] == first && text[|first| + 2..] == rest;
  }

  /** Splitting undoes joining when no line holds a line break. */
  lemma {:induction false} LinesOfJoin(lines: seq<string>)
    requires lines != [] && AllUnbroken(lines)
    ensures SplitStr(Join(lines, CRLF), CRLF) == lines
    decreases |lines|
  {
    if |lines| > 1 {
      FirstLineSplits(lines[0], Join(lines[1..], CRLF));
      LinesOfJoin(lines[1..]);
      assert lines == [lines[0]] + lines[1..];
    } else {
      NoBreak(lines[0]);
    }
  }

  lemma {:induction false} FrontUnbroken(text: string, n: nat)
    requires n <= |text| && forall k: int {:trigger At(CRLF, text, k)} :: 0 <= k < n ==> !At(CRLF, text, k)
    ensures Unbroken(text[..n])
  {
    forall k | 1 <= k < n ensures !(text[..n][k - 1] == CR && text[..n][k] == LF) {
      BreakAt(text, k - 1);
    }
  }

  lemma OneLineMore(first: string, lines: seq<string>)
    requires lines != [] && AllUnbroken(lines) && Unbroken(first)
    ensures AllUnbroken([first] + lines) && Join([first] + lines, CRLF) == first + CRLF + Join(lines, CRLF)
  {
    assert ([first] + lines)[1..] == lines;
  }

  /** A text with a line break is a line without one, the break, and the rest. */
  lemma {:induction false} AtFirstBreak(text: string) returns (first: string, rest: string)
    requires FindFrom(text, CRLF, 0).Some?
    ensures text == first + CRLF + rest && Unbroken(first) && |rest| < |text|
  {
    var at := FindFrom(text, CRLF, 0).value;
    first, rest := text[..at], text[at + 2..];
    FrontUnbroken(text, at);
  }

  /** Joining undoes splitting, whatever the text, and no piece holds a line break. */
  lemma {:induction false} JoinOfLines(text: string)
    ensures Join(SplitStr(text, CRLF), CRLF) == text && AllUnbroken(SplitStr(text, CRLF))
    decreases |text|
  {
    if FindFrom(text, CRLF, 0).Some? {
      var first, rest := AtFirstBreak(text);
      FirstLineSplits(first, rest);
      JoinOfLines(rest);
      OneLineMore(first, SplitStr(rest, CRLF));
    } else {
      FrontUnbroken(text, |text|);
      assert text[..|text|] == text;
    }
  }

  // ---- The lines of a block ----

  /** The text of a block that holds these lines. */
  function Block(lines: seq<string>): string
    requires lines != []
  {
    Join(lines, CRLF) + TERMINATOR
  }

  lemma {:induction false} NoBreakAtEnd(lines: seq<string>)
    requires lines != [] && lines[|lines| - 1] != "" && Unbroken(lines[|lines| - 1])
    ensures var text := Join(lines, CRLF);
            |text| >= 1 && (|text| >= 2 ==> !(text[|text| - 2] == CR && text[|text| - 1] == LF))
    decreases |lines|
  {
    if |lines| > 1 {
      NoBreakAtEnd(lines[1..]);
      var text, rest := Join(lines, CRLF), Join(lines[1..], CRLF);
      assert text == lines[0] + CRLF + rest;
      assert |rest| == 1 ==> text[|text| - 2] == LF;
      assert |rest| >= 2 ==> text[|text| - 2] == rest[|rest| - 2] && text[|text| - 1] == rest[|rest| - 1];
    } else {
      var last := lines[0];
      assert |last| >= 2 ==> !(last[|last| - 1 - 1] == CR && last[|last| - 1] == LF);
    }
  }

  lemma {:induction false} TrimsNothing(text: string)
    requires |text| >= 2 ==> !(text[|text| - 2] == CR && text[|text| - 1] == LF)
    ensures TrimEndMatches(text, TERMINATOR) == text
  {
    if |text| >= 4 {
      var tail := text[|text| - 4..];
      assert tail[2] == text[|text| - 2] && tail[3] == text[|text| - 1];
    }
  }

  /** A block of lines without line breaks, the last not empty, is read as exactly those lines. */
  lemma {:induction false} BlockHoldsItsLines(lines: seq<string>)
    requires lines != [] && lines[|lines| - 1] != "" && AllUnbroken(lines)
    ensures HeaderLines(Block(lines)) == lines
  {
    var text := Join(lines, CRLF);
    TrimsOneMore(text, TERMINATOR);
    NoBreakAtEnd(lines);
    TrimsNothing(text);
    LinesOfJoin(lines);
  }

  function Repeated(s: string, n: nat): string {
    if n == 0 then "" else Repeated(s, n - 1) + s
  }

  lemma {:induction false} TrimsOneMore(text: string, tail: string)
    requires tail != ""
    ensures TrimEndMatches(text + tail, tail) == TrimEndMatches(text, tail)
  {
    assert (text + tail)[|text|..] == tail && (text + tail)[..|text|] == text;
  }

  lemma OneMoreTail(left: string, tail: string, n: nat)
    ensures left + Repeated(tail, n) + tail == left + Repeated(tail, n + 1)
  {
    assert left + Repeated(tail, n) + tail == left + (Repeated(tail, n) + tail);
  }

  lemma {:induction false} TailsTrimmed(text: string, tail: string) returns (n: nat)
    requires tail != ""
    ensures text == TrimEndMatches(text, tail) + Repeated(tail, n) && !EndsWith(TrimEndMatches(text, tail), tail)
    decreases |text|
  {
    if EndsWith(text, tail) {
      var less := text[..|text| - |tail|];
      var m := TailsTrimmed(less, tail);
      n := m + 1;
      assert text == less + tail;
      TrimsOneMore(less, tail);
      OneMoreTail(TrimEndMatches(less, tail), tail, m);
    } else {
      n := 0;
      assert text + "" == text;
    }
  }

  /** Whatever the text, its lines joined are the text but for the terminators at its end. */
  lemma {:induction false} LinesMakeTheText(text: string) returns (n: nat)
    ensures text == Join(HeaderLines(text), CRLF) + Repeated(TERMINATOR, n)
    ensures !EndsWith(Join(HeaderLines(text), CRLF), TERMINATOR) && AllUnbroken(HeaderLines(text))
  {
    n := TailsTrimmed(text, TERMINATOR);
    JoinOfLines(TrimEndMatches(text, TERMINATOR));
  }

  // ---- The length a block declares ----

  /** Every line that is not empty names a header; line `i` is the only length among them, and it says `n`. */
  ghost predicate OnlyLength(lines: seq<string>, i: nat, n: nat) {
    && i < |lines| && IsLength(lines[i]) && ParseU64(Trim(ValueOf(lines[i]))) == Some(n)
    && (forall j :: 0 <= j < |lines| ==> Named(lines[j]))
    && (forall j :: 0 <= j < |lines| && IsLength(lines[j]) ==> j == i)
  }

  lemma {:induction false} OnlyLengthIsSole(lines: seq<string>, i: nat, n: nat)
    ensures OnlyLength(lines, i, n) <==> SoleLength(lines, i, n)
  {
    if OnlyLength(lines, i, n) {
      var after := lines[i + 1..];
      forall j | 0 <= j < |after| ensures Named(after[j]) && !IsLength(after[j]) {
        assert after[j] == lines[i + 1 + j];
      }
    }
    if SoleLength(lines, i, n) {
      forall j | 0 <= j < |lines| && j != i ensures Named(lines[j]) && !IsLength(lines[j]) {
        if j < i { assert lines[j] == lines[..i][j]; } else { assert lines[j] == lines[i + 1..][j - i - 1]; }
      }
    }
  }

  /** A block declares `n` exactly when one of its lines does, no other declares a length, and all name a header. */
  lemma {:induction false} BlockDeclaresExactly(utf8: Utf8, header: string, lines: seq<string>, n: nat)
    requires lines != [] && lines[|lines| - 1] != "" && AllUnbroken(lines) && utf8(header) == Some(Block(lines))
    ensures ContentLength(utf8, header) == Ok(n) <==> exists i: nat :: OnlyLength(lines, i, n)
  {
    BlockHoldsItsLines(lines);
    LengthExactly(lines, n);
    forall i: nat ensures OnlyLength(lines, i, n) <==> SoleLength(lines, i, n) {
      OnlyLengthIsSole(lines, i, n);
    }
  }

  /** A block with a second length line is refused, whatever the two lines say. */
  lemma {:induction false} SecondLengthIsRefused(utf8: Utf8, header: string, lines: seq<string>, i: nat, j: nat)
    requires lines != [] && lines[|lines| - 1] != "" && AllUnbroken(lines) && utf8(header) == Some(Block(lines))
    requires i < j < |lines| && IsLength(lines[i]) && IsLength(lines[j])
    ensures ContentLength(utf8, header).Err? && ContentLength(utf8, header).error.MalformedHeader?
  {
    forall n: nat ensures ContentLength(utf8, header) != Ok(n) {
      BlockDeclaresExactly(utf8, header, lines, n);
      assert forall k: nat :: OnlyLength(lines, k, n) ==> k == i && k == j;
    }
  }

  // ---- Whole frames ----

  /** Header lines as they come: none empty, none with a carriage return. */
  predicate Plain(lines: seq<string>) {
    lines != [] && forall i :: 0 <= i < |lines| ==> lines[i] != "" && CR !in lines[i]
  }

  lemma PlainIsUnbroken(lines: seq<string>)
    requires Plain(lines)
    ensures AllUnbroken(lines)
  {
    forall i | 0 <= i < |lines| ensures Unbroken(lines[i]) {
      assert forall k :: 0 <= k < |lines[i]| ==> lines[i][k] in lines[i];
    }
  }

  /** A carriage return in joined lines starts a break, and another line follows it. */
  lemma {:induction false} BreakThenLine(lines: seq<string>, p: nat)
    requires Plain(lines) && p < |Join(lines, CRLF)|
    ensures Join(lines, CRLF)[p] == CR ==> p + 2 < |Join(lines, CRLF)| && Join(lines, CRLF)[p + 2] != CR
    decreases |lines|
  {
    var text, first := Join(lines, CRLF), lines[0];
    assert forall k :: 0 <= k < |first| ==> first[k] in first;
    if |lines| > 1 {
      var rest := Join(lines[1..], CRLF);
      assert text == first + CRLF + rest;
      assert lines[1..][0] == lines[1];
      assert rest[0] == lines[1][0] && lines[1][0] in lines[1];
      if p >= |first| + 2 {
        BreakThenLine(lines[1..], p - |first| - 2);
      }
    }
  }

  lemma {:induction false} NotYetEnded(lines: seq<string>, m: nat)
    requires Plain(lines) && m < |Block(lines)|
    ensures !EndsWith(Block(lines)[..m], TERMINATOR)
  {
    var text, seen := Join(lines, CRLF), Block(lines)[..m];
    if m >= 4 {
      var p := m - 4;
      BreakThenLine(lines, p);
      assert seen[p..][0] == text[p] && seen[p..][2] == seen[p + 2];
      assert p + 2 < |text| ==> seen[p + 2] == text[p + 2];
    }
  }

  /** The block ends where its lines do, whatever follows it. */
  lemma {:induction false} BlockEnds(lines: seq<string>, rest: string, n: nat)
    requires Plain(lines) && |Block(lines)| <= MAX_HEADER_BYTES && n < |Block(lines)|
    ensures HeaderFrom(Block(lines) + rest, n) == Ok(|Block(lines)|)
    decreases |Block(lines)| - n
  {
    var block := Block(lines);
    assert (block + rest)[..n + 1] == block[..n + 1];
    if n + 1 < |block| {
      NotYetEnded(lines, n + 1);
      BlockEnds(lines, rest, n + 1);
    } else {
      assert block[..n + 1] == block;
    }
  }

  lemma {:induction false} PlainDeclares(utf8: Utf8, lines: seq<string>, i: nat, n: nat)
    requires Plain(lines) && utf8(Block(lines)) == Some(Block(lines)) && OnlyLength(lines, i, n)
    ensures ContentLength(utf8, Block(lines)) == Ok(n)
  {
    PlainIsUnbroken(lines);
    BlockDeclaresExactly(utf8, Block(lines), lines, n);
  }

  lemma {:induction false} ReadUnderBlock(
    utf8: Utf8, lines: seq<string>, payload: string, text: string, rest: string)
    requires Plain(lines) && |Block(lines)| <= MAX_HEADER_BYTES && |payload| <= MAX_FRAME_BYTES
    requires ContentLength(utf8, Block(lines)) == Ok(|payload|) && utf8(payload) == Some(text)
    ensures ReadOne(utf8, Block(lines) + (payload + rest)) == Ok((text, |Block(lines)| + |payload|))
  {
    var block := Block(lines);
    var input := block + (payload + rest);
    BlockEnds(lines, payload + rest, 0);
    assert input[..|block|] == block;
    assert input[|block|..|block| + |payload|] == payload;
  }

  /**
   * A frame with any header lines is read as its payload when exactly one line declares the payload's length,
   * whatever the other lines say and whatever follows the frame.
   */
  lemma {:induction false} FrameUnderItsHeaders(
    utf8: Utf8, lines: seq<string>, i: nat, payload: string, text: string, rest: string)
    requires Plain(lines) && |Block(lines)| <= MAX_HEADER_BYTES && utf8(Block(lines)) == Some(Block(lines))
    requires OnlyLength(lines, i, |payload|) && |payload| <= MAX_FRAME_BYTES && utf8(payload) == Some(text)
    ensures ReadOne(utf8, Block(lines) + (payload + rest)) == Ok((text, |Block(lines)| + |payload|))
  {
    PlainDeclares(utf8, lines, i, |payload|);
    ReadUnderBlock(utf8, lines, payload, text, rest);
  }

  /** A frame whose block has two length lines is refused, and nothing of its body is taken. */
  lemma {:induction false} TwoLengthsRefuseTheFrame(utf8: Utf8, lines: seq<string>, i: nat, j: nat, rest: string)
    requires Plain(lines) && |Block(lines)| <= MAX_HEADER_BYTES && utf8(Block(lines)) == Some(Block(lines))
    requires i < j < |lines| && IsLength(lines[i]) && IsLength(lines[j])
    ensures ReadOne(utf8, Block(lines) + rest).Err? && ReadOne(utf8, Block(lines) + rest).error.MalformedHeader?
  {
    BlockEnds(lines, rest, 0);
    assert (Block(lines) + rest)[..|Block(lines)|] == Block(lines);
    PlainIsUnbroken(lines);
    SecondLengthIsRefused(utf8, Block(lines), lines, i, j);
  }
}

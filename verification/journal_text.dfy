/** A journal as text: its lines, and what appending a line does to them. */
module JournalText {
  import opened Text

  const LF: char := '\n'
  const CR: char := '\r'

  predicate Whitespace(c: char) {
    || ('\t' <= c <= '\r') || c == ' ' || c == '\U{85}' || c == '\U{A0}' || c == '\U{1680}'
    || ('\U{2000}' <= c <= '\U{200A}') || c == '\U{2028}' || c == '\U{2029}' || c == '\U{202F}'
    || c == '\U{205F}' || c == '\U{3000}'
  }

  /** Nothing but whitespace: a line the readers skip. */
  predicate Blank(line: string) {
    forall i :: 0 <= i < |line| ==> Whitespace(line[i])
  }

  function StripCr(line: string): string {
    if line != "" && line[|line| - 1] == CR then line[..|line| - 1] else line
  }

  function StripAll(pieces: seq<string>): seq<string> {
    seq(|pieces|, i requires 0 <= i < |pieces| => StripCr(pieces[i]))
  }

  /** The newline-ended pieces of a text, and what follows the last newline. */
  function Ended(text: string): seq<string> {
    var pieces := Split(text, LF);
    pieces[..|pieces| - 1]
  }

  function Unended(text: string): string {
    var pieces := Split(text, LF);
    pieces[|pieces| - 1]
  }

  /** The lines of a text: a newline ends a line, and one carriage return before it goes too. */
  function Lines(text: string): seq<string> {
    StripAll(Ended(text)) + if Unended(text) == "" then [] else [Unended(text)]
  }

  lemma PiecesAfterAppend(text: string, line: string)
    requires LF !in line
    ensures Split(text + line + [LF], LF) == Ended(text) + [Unended(text) + line] + [""]
  {
    var front, last := Ended(text), Unended(text);
    assert Split(text, LF) == front + [last];
    JoinLengthensLast(front, last, line, [LF]);
    JoinAddsPiece(front + [last + line], "", [LF]);
    assert text + line + [LF] == text + line + [LF] + "";
    forall i | 0 <= i < |front| ensures LF !in front[i] {
      assert front[i] == Split(text, LF)[i];
    }
    SplitOfJoin(front + [last + line] + [""], LF);
  }

  /** Appending text and a newline makes one line of it and whatever the last newline left over. */
  lemma AppendedLine(text: string, line: string)
    requires LF !in line && CR !in line && line != ""
    ensures Unended(text + line + [LF]) == ""
    ensures Lines(text + line + [LF]) == StripAll(Ended(text)) + [Unended(text) + line]
  {
    var front, longer := Ended(text), Unended(text) + line;
    PiecesAfterAppend(text, line);
    assert (front + [longer] + [""])[..|front| + 1] == front + [longer];
    assert longer[|longer| - 1] == line[|line| - 1] && line[|line| - 1] in line;
    assert StripAll(front + [longer]) == StripAll(front) + [longer];
  }

  // ---- A file read back ----

  /** Lines as a file holds them, each followed by its ending. */
  function EndEach(lines: seq<string>, ending: string): string {
    if lines == [] then "" else EndEach(lines[..|lines| - 1], ending) + lines[|lines| - 1] + ending
  }

  lemma {:induction false} EndedReadBack(lines: seq<string>)
    requires forall i :: 0 <= i < |lines| ==> LF !in lines[i]
    ensures Ended(EndEach(lines, [LF])) == lines && Unended(EndEach(lines, [LF])) == ""
    decreases |lines|
  {
    if lines == [] {
      assert Split("", LF) == [""];
    } else {
      var front, last := lines[..|lines| - 1], lines[|lines| - 1];
      EndedReadBack(front);
      var text := EndEach(front, [LF]);
      PiecesAfterAppend(text, last);
      assert "" + last == last;
      assert Split(text + last + [LF], LF) == lines + [""];
    }
  }

  function WithCr(lines: seq<string>): seq<string> {
    seq(|lines|, i requires 0 <= i < |lines| => lines[i] + [CR])
  }

  lemma {:induction false} EndedWithCr(lines: seq<string>)
    ensures EndEach(lines, [CR, LF]) == EndEach(WithCr(lines), [LF])
    decreases |lines|
  {
    if lines != [] {
      var front, last := lines[..|lines| - 1], lines[|lines| - 1];
      EndedWithCr(front);
      assert WithCr(lines)[..|front|] == WithCr(front);
      var text := EndEach(front, [CR, LF]);
      assert text + last + [CR, LF] == text + (last + [CR]) + [LF];
    }
  }

  /** Lines written with either line ending are read back as they were; with a bare newline if none ends in a return. */
  lemma {:induction false} LinesReadBack(lines: seq<string>)
    requires forall i :: 0 <= i < |lines| ==> LF !in lines[i]
    ensures Lines(EndEach(lines, [CR, LF])) == lines
    ensures Lines(EndEach(lines, [LF])) == lines <==>
            forall i :: 0 <= i < |lines| ==> lines[i] == "" || lines[i][|lines[i]| - 1] != CR
  {
    EndedReadBack(lines);
    EndedReadBack(WithCr(lines));
    EndedWithCr(lines);
    assert StripAll(WithCr(lines)) + [] == lines;
    assert StripAll(lines) + [] == StripAll(lines);
    assert StripAll(lines) == lines <==> forall i :: 0 <= i < |lines| ==> StripCr(lines[i]) == lines[i];
  }
}

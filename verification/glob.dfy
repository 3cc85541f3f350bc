/** The glob matcher: a greedy left-to-right scan, and the meaning it is exact for. */
module Glob {
  import opened Text

  const STAR: char := '*'

  /** Literal pieces with one arbitrary run before each piece but the first. */
  ghost function Weave(parts: seq<string>, runs: seq<string>): string
    requires |parts| == |runs| + 1
  {
    if runs == [] then parts[0]
    else parts[0] + runs[0] + Weave(parts[1..], runs[1..])
  }

  /**
   * What a pattern means: the text is the pattern with every `*` replaced by some run of
   * characters, possibly empty.
   */
  ghost predicate Denotes(pattern: string, text: string) {
    var parts := Split(pattern, STAR);
    exists runs: seq<string> :: |runs| + 1 == |parts| && text == Weave(parts, runs)
  }

  /** `parts` stand in order in `text`, each after an arbitrary gap, the last one ending the text. */
  ghost predicate Fits(text: string, parts: seq<string>)
    requires |parts| >= 1
    decreases |parts|
  {
    exists at: int :: At(parts[0], text, at) && FitsAt(text, parts, at)
  }

  ghost predicate FitsAt(text: string, parts: seq<string>, at: int)
    requires |parts| >= 1 && At(parts[0], text, at)
    decreases |parts|, 0
  {
    if |parts| == 1 then at + |parts[0]| == |text| else Fits(text[at + |parts[0]|..], parts[1..])
  }

  /** A longer text on the left only widens the first gap. */
  lemma {:induction false} FitsWiden(text: string, parts: seq<string>, k: nat)
    requires |parts| >= 1 && k <= |text|
    requires Fits(text[k..], parts)
    ensures Fits(text, parts)
  {
    var at: int :| At(parts[0], text[k..], at) && FitsAt(text[k..], parts, at);
    assert text[k + at..k + at + |parts[0]|] == text[k..][at..at + |parts[0]|];
    assert text[k + at + |parts[0]|..] == text[k..][at + |parts[0]|..];
    assert At(parts[0], text, k + at) && FitsAt(text, parts, k + at);
  }

  /** The exchange step: if any placement of a piece works, the leftmost one does. */
  lemma {:induction false} LeftmostSuffices(text: string, parts: seq<string>, first: nat)
    requires |parts| >= 2
    requires At(parts[0], text, first)
    requires forall k: int {:trigger At(parts[0], text, k)} :: 0 <= k < first ==> !At(parts[0], text, k)
    ensures Fits(text, parts) <==> Fits(text[first + |parts[0]|..], parts[1..])
  {
    if Fits(text, parts) {
      var at: int :| At(parts[0], text, at) && FitsAt(text, parts, at);
      var rest := text[first + |parts[0]|..];
      assert rest[at - first..] == text[at + |parts[0]|..];
      FitsWiden(rest, parts[1..], at - first);
    }
    if Fits(text[first + |parts[0]|..], parts[1..]) {
      assert FitsAt(text, parts, first);
    }
  }

  /** An empty piece between two stars asks for nothing. */
  lemma {:induction false} EmptyPieceVanishes(text: string, parts: seq<string>)
    requires |parts| >= 2 && parts[0] == []
    ensures Fits(text, parts) <==> Fits(text, parts[1..])
  {
    assert At(parts[0], text, 0);
    LeftmostSuffices(text, parts, 0);
    assert text[0..] == text;
  }

  /** The last piece must fit after `pos` and end the text; an empty one always does. */
  lemma {:induction false} LastPiece(text: string, pos: nat, parts: seq<string>)
    requires pos <= |text| && |parts| == 1
    ensures Fits(text[pos..], parts) <==> |text| - pos >= |parts[0]| && EndsWith(text, parts[0])
  {
    var rest, tail := text[pos..], parts[0];
    if |text| - pos >= |tail| {
      var at := |rest| - |tail|;
      assert rest[at..] == text[|text| - |tail|..] == rest[at..at + |tail|];
      if EndsWith(text, tail) {
        assert At(tail, rest, at) && FitsAt(rest, parts, at);
      }
    }
  }

  /** One middle piece, placed leftmost after `pos`. */
  lemma {:induction false} MiddlePiece(text: string, pos: nat, parts: seq<string>, found: Option<nat>)
    requires pos <= |text| && |parts| >= 2
    requires found == FindFrom(text[pos..], parts[0], 0)
    ensures found.None? ==> !Fits(text[pos..], parts)
    ensures found.Some? ==> pos + found.value + |parts[0]| <= |text|
    ensures found.Some? ==> (Fits(text[pos..], parts) <==> Fits(text[pos + found.value + |parts[0]|..], parts[1..]))
  {
    if found.Some? {
      LeftmostSuffices(text[pos..], parts, found.value);
      assert text[pos..][found.value + |parts[0]|..] == text[pos + found.value + |parts[0]|..];
    }
  }

  lemma {:induction false} FitsGivesRuns(text: string, parts: seq<string>) returns (runs: seq<string>)
    requires |parts| >= 1
    requires Fits(text, parts)
    ensures |runs| == |parts| && text == Weave([[]] + parts, runs)
    decreases |parts|
  {
    var at: int :| At(parts[0], text, at) && FitsAt(text, parts, at);
    var whole := [[]] + parts;
    assert whole[1..] == parts;
    if |parts| == 1 {
      runs := [text[..at]];
    } else {
      var rest := text[at + |parts[0]|..];
      var more := FitsGivesRuns(rest, parts[1..]);
      runs := [text[..at]] + more;
      assert runs[1..] == more;
      WeaveHead(parts[0], parts[1..], more);
      assert [parts[0]] + parts[1..] == parts;
      assert text == text[..at] + (parts[0] + rest);
    }
    assert whole[0] == [];
  }

  lemma {:induction false} WeaveHead(head: string, parts: seq<string>, runs: seq<string>)
    requires |parts| == |runs| && |runs| >= 1
    ensures Weave([head] + parts, runs) == head + Weave([[]] + parts, runs)
  {
    assert ([head] + parts)[1..] == parts && ([[]] + parts)[1..] == parts;
    var rest := Weave(parts, runs[1..]);
    assert head + runs[0] + rest == head + ([] + runs[0] + rest);
  }

  lemma {:induction false} RunsGiveFits(parts: seq<string>, runs: seq<string>)
    requires |parts| == |runs| && |parts| >= 1
    ensures Fits(Weave([[]] + parts, runs), parts)
    decreases |parts|
  {
    var text := Weave([[]] + parts, runs);
    assert ([[]] + parts)[1..] == parts;
    assert text == runs[0] + Weave(parts, runs[1..]);
    var at := |runs[0]|;
    if |parts| == 1 {
      assert text[at..at + |parts[0]|] == parts[0];
      assert At(parts[0], text, at) && FitsAt(text, parts, at);
    } else {
      assert parts == [parts[0]] + parts[1..];
      WeaveHead(parts[0], parts[1..], runs[1..]);
      var rest := Weave([[]] + parts[1..], runs[1..]);
      RunsGiveFits(parts[1..], runs[1..]);
      assert text == runs[0] + (parts[0] + rest);
      assert text[at..at + |parts[0]|] == parts[0];
      assert text[at + |parts[0]|..] == rest;
      assert At(parts[0], text, at) && FitsAt(text, parts, at);
    }
  }

  /** Placing pieces and choosing runs are the same thing. */
  lemma {:induction false} DenotesIsFits(pattern: string, text: string)
    ensures var parts := Split(pattern, STAR);
            Denotes(pattern, text) <==>
            if |parts| == 1 then text == pattern
            else parts[0] <= text && Fits(text[|parts[0]|..], parts[1..])
  {
    var parts := Split(pattern, STAR);
    if |parts| == 1 {
      assert Weave(parts, []) == parts[0] == pattern;
      if text == pattern { assert text == Weave(parts, []); }
    } else {
      var head, tail := parts[0], parts[1..];
      assert parts == [head] + tail;
      if Denotes(pattern, text) {
        var runs: seq<string> :| |runs| + 1 == |parts| && text == Weave(parts, runs);
        WeaveHead(head, tail, runs);
        RunsGiveFits(tail, runs);
        assert text[|head|..] == Weave([[]] + tail, runs);
      }
      if head <= text && Fits(text[|head|..], tail) {
        var runs := FitsGivesRuns(text[|head|..], tail);
        WeaveHead(head, tail, runs);
        assert text == Weave(parts, runs);
      }
    }
  }

  /** The scan over the middle pieces: where the last piece may start, or nothing. */
  method PlaceMiddles(text: string, from: nat, parts: seq<string>) returns (end: Option<nat>)
    requires from <= |text| && |parts| >= 1
    ensures end.None? ==> !Fits(text[from..], parts)
    ensures end.Some? ==> end.value <= |text|
    ensures end.Some? ==> (Fits(text[from..], parts) <==> Fits(text[end.value..], parts[|parts| - 1..]))
  {
    var pos := from;
    var i := 0;
    ghost var wanted := Fits(text[from..], parts);
    ghost var rest := parts;
    while i < |parts| - 1
      invariant 0 <= i <= |parts| - 1
      invariant 0 <= pos <= |text|
      invariant rest == parts[i..]
      invariant wanted <==> Fits(text[pos..], rest)
    {
      var middle := parts[i];
      if middle == [] {
        EmptyPieceVanishes(text[pos..], rest);
      } else {
        var found := FindFrom(text[pos..], middle, 0);
        MiddlePiece(text, pos, rest, found);
        if found.None? {
          return None;
        }
        pos := pos + found.value + |middle|;
      }
      i, rest := i + 1, rest[1..];
    }
    return Some(pos);
  }

  /** The matcher. Greedy, yet exact for `Denotes`. */
  method GlobMatch(pattern: string, text: string) returns (matched: bool)
    ensures matched <==> Denotes(pattern, text)
  {
    var parts := Split(pattern, STAR);
    DenotesIsFits(pattern, text);
    if |parts| == 1 {
      return pattern == text;
    }
    var head := parts[0];
    if !(head <= text) {
      return false;
    }
    var end := PlaceMiddles(text, |head|, parts[1..]);
    if end.None? {
      return false;
    }
    var pos := end.value;
    var tail := parts[|parts| - 1];
    assert parts[1..][|parts| - 2..] == [tail];
    LastPiece(text, pos, [tail]);
    if tail == [] {
      return true;
    }
    var left := if |text| >= pos then |text| - pos else 0;
    return left >= |tail| && EndsWith(text, tail);
  }
}

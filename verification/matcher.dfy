/** Rule matchers: parsing, the canonical source form, and what a matcher accepts. */
module Matchers {
  import opened Text
  import Glob

  datatype Matcher =
    | Any
    | Exact(v: string)
    | Prefix(v: string)
    | Globbed(v: string)

  const GLOB_TAG: string := "glob:"
  const PREFIX_TAG: string := "prefix:"
  const EXACT_TAG: string := "exact:"

  /** Rule-file text to matcher. Every text is accepted. */
  function Parse(raw: string): Matcher {
    if GLOB_TAG <= raw then Globbed(raw[|GLOB_TAG|..])
    else if PREFIX_TAG <= raw then Prefix(raw[|PREFIX_TAG|..])
    else if EXACT_TAG <= raw then Exact(raw[|EXACT_TAG|..])
    else if Glob.STAR in raw then Globbed(raw)
    else Exact(raw)
  }

  /** Matcher to rule-file text; `Any` is written by leaving the axis out. */
  function Source(m: Matcher): Option<string> {
    match m
    case Any => None
    case Exact(v) => Some(if Glob.STAR in v then EXACT_TAG + v else v)
    case Prefix(p) => Some(PREFIX_TAG + p)
    case Globbed(g) => Some(if Glob.STAR in g then g else GLOB_TAG + g)
  }

  /** The candidates a matcher accepts. */
  ghost predicate Accepts(m: Matcher, candidate: string) {
    match m
    case Any => true
    case Exact(v) => v == candidate
    case Prefix(p) => p <= candidate
    case Globbed(g) => Glob.Denotes(g, candidate)
  }

  method Matches(m: Matcher, candidate: string) returns (matched: bool)
    ensures matched <==> Accepts(m, candidate)
  {
    match m
    case Any => return true;
    case Exact(v) => return v == candidate;
    case Prefix(p) => return p <= candidate;
    case Globbed(g) => matched := Glob.GlobMatch(g, candidate);
  }

  predicate Tagged(s: string) {
    GLOB_TAG <= s || PREFIX_TAG <= s || EXACT_TAG <= s
  }

  /** The source form is written without a tag although the text itself starts with one. */
  predicate Mistagged(m: Matcher) {
    match m
    case Any => false
    case Exact(v) => Glob.STAR !in v && Tagged(v)
    case Prefix(_) => false
    case Globbed(g) => Glob.STAR in g && Tagged(g)
  }

  lemma TagThenText(tag: string, text: string)
    ensures (tag + text)[|tag|..] == text
    ensures tag <= tag + text
  {
  }

  /** The writer's round trip is exact for precisely the matchers that are not mistagged. */
  lemma ParseOfSource(m: Matcher)
    requires m != Any
    ensures Parse(Source(m).value) == m <==> !Mistagged(m)
  {
    match m
    case Exact(v) =>
      TagThenText(EXACT_TAG, v);
      assert (EXACT_TAG + v)[0] == 'e';
      if Mistagged(m) { assert |Parse(v).v| < |v|; }
    case Prefix(p) =>
      TagThenText(PREFIX_TAG, p);
      assert (PREFIX_TAG + p)[0] == 'p';
    case Globbed(g) =>
      TagThenText(GLOB_TAG, g);
      if Mistagged(m) { assert |Parse(g).v| < |g|; }
  }

  /** Read back, the matcher is written without the tag that its text starts with. */
  predicate LosesATag(m: Matcher) {
    match m
    case Any => false
    case Exact(v) => Glob.STAR !in v && EXACT_TAG <= v
    case Prefix(_) => false
    case Globbed(g) => Glob.STAR in g && GLOB_TAG <= g
  }

  /** Written, read and written again, the text is the same exactly when no tag is lost. */
  lemma SourceTwice(m: Matcher)
    requires m != Any
    ensures Source(Parse(Source(m).value)) == Source(m) <==> !LosesATag(m)
  {
    ParseOfSource(m);
    if Mistagged(m) {
      var tag, w := TagOf(m.v);
      TagsRead(w);
      assert GLOB_TAG[0] == 'g' && PREFIX_TAG[0] == 'p' && EXACT_TAG[0] == 'e';
      assert Glob.STAR !in GLOB_TAG && Glob.STAR !in EXACT_TAG && Glob.STAR !in PREFIX_TAG;
      assert Glob.STAR in w <==> Glob.STAR in tag + w;
      assert |tag + w| > |w|;
    }
  }

  // ---- Facts about patterns, used to tell a mistagged matcher from its reading ----

  ghost function Total(parts: seq<string>): nat {
    if parts == [] then 0 else |parts[0]| + Total(parts[1..])
  }

  lemma {:induction false} WeaveLength(parts: seq<string>, runs: seq<string>)
    requires |parts| == |runs| + 1
    ensures |Glob.Weave(parts, runs)| >= Total(parts)
    ensures (forall i :: 0 <= i < |runs| ==> runs[i] == []) ==> |Glob.Weave(parts, runs)| == Total(parts)
    decreases |runs|
  {
    if runs == [] {
      assert parts[1..] == [];
    } else {
      WeaveLength(parts[1..], runs[1..]);
    }
  }

  /** The shortest text of a pattern drops every star; no text is shorter. */
  lemma ShortestText(pattern: string) returns (t: string)
    ensures Glob.Denotes(pattern, t) && |t| == Total(Split(pattern, Glob.STAR))
    ensures forall u: string :: Glob.Denotes(pattern, u) ==> |u| >= |t|
  {
    var parts := Split(pattern, Glob.STAR);
    var runs := seq(|parts| - 1, i => "");
    t := Glob.Weave(parts, runs);
    WeaveLength(parts, runs);
    forall u: string | Glob.Denotes(pattern, u)
      ensures |u| >= |t|
    {
      var us: seq<string> :| |us| + 1 == |parts| && u == Glob.Weave(parts, us);
      WeaveLength(parts, us);
    }
  }

  lemma {:induction false} SplitAfterTag(tag: string, w: string)
    requires Glob.STAR !in tag
    ensures Split(tag + w, Glob.STAR) == [tag + Split(w, Glob.STAR)[0]] + Split(w, Glob.STAR)[1..]
  {
    var parts := Split(w, Glob.STAR);
    var tagged := [tag + parts[0]] + parts[1..];
    assert tagged[1..] == parts[1..];
    assert Join(tagged, [Glob.STAR]) == tag + Join(parts, [Glob.STAR]);
    assert forall i :: 1 <= i < |tagged| ==> tagged[i] == parts[i];
    SplitOfJoin(tagged, Glob.STAR);
  }

  lemma {:induction false} WeaveStars(parts: seq<string>)
    requires |parts| >= 1
    ensures Glob.Weave(parts, seq(|parts| - 1, i => [Glob.STAR])) == Join(parts, [Glob.STAR])
    decreases |parts|
  {
    var runs := seq(|parts| - 1, i => [Glob.STAR]);
    if |parts| > 1 {
      assert runs[1..] == seq(|parts| - 2, i => [Glob.STAR]);
      WeaveStars(parts[1..]);
    }
  }

  /** Every pattern, read as plain text, is one of its own texts. */
  lemma PatternDenotesItself(pattern: string)
    ensures Glob.Denotes(pattern, pattern)
  {
    var parts := Split(pattern, Glob.STAR);
    WeaveStars(parts);
    assert pattern == Glob.Weave(parts, seq(|parts| - 1, i => [Glob.STAR]));
  }

  /** A tagged pattern never accepts its own untagged text when that text holds a star. */
  lemma TaggedPatternRejectsUntagged(tag: string, w: string)
    requires Glob.STAR !in tag && |tag| > 0 && Glob.STAR in w
    ensures !Glob.Denotes(tag + w, w)
  {
    SplitAfterTag(tag, w);
    Glob.DenotesIsFits(tag + w, w);
    var parts := Split(w, Glob.STAR);
    var head := parts[0];
    assert |parts| > 1;
    assert w == head + [Glob.STAR] + Join(parts[1..], [Glob.STAR]);
    assert w[|head|] == Glob.STAR && (tag + head)[|head|] in tag + head;
    assert (tag + head)[|head|] != w[|head|];
  }

  /** Dropping a leading tag lets a pattern accept a shorter text. */
  lemma ShorterWithoutTag(tag: string, w: string) returns (t: string)
    requires Glob.STAR !in tag && |tag| > 0
    ensures Glob.Denotes(w, t) && !Glob.Denotes(tag + w, t)
  {
    t := ShortestText(w);
    var longer := ShortestText(tag + w);
    SplitAfterTag(tag, w);
    assert Split(tag + w, Glob.STAR)[1..] == Split(w, Glob.STAR)[1..];
  }

  /** What a tag makes of the text behind it. */
  lemma TagsRead(w: string)
    ensures Parse(GLOB_TAG + w) == Globbed(w) && Parse(PREFIX_TAG + w) == Prefix(w) && Parse(EXACT_TAG + w) == Exact(w)
  {
    TagThenText(GLOB_TAG, w);
    TagThenText(PREFIX_TAG, w);
    TagThenText(EXACT_TAG, w);
    assert (PREFIX_TAG + w)[0] == 'p' && (EXACT_TAG + w)[0] == 'e';
  }

  lemma TagOf(s: string) returns (tag: string, w: string)
    requires Tagged(s)
    ensures tag in {GLOB_TAG, PREFIX_TAG, EXACT_TAG} && s == tag + w
  {
    tag := if GLOB_TAG <= s then GLOB_TAG else if PREFIX_TAG <= s then PREFIX_TAG else EXACT_TAG;
    w := s[|tag|..];
  }

  /** A literal that starts with a tag is read as a matcher that accepts the rest, which the literal is not. */
  lemma ExactDiffers(tag: string, w: string)
    requires tag in {GLOB_TAG, PREFIX_TAG, EXACT_TAG}
    ensures Accepts(Parse(tag + w), w) && !Accepts(Exact(tag + w), w)
  {
    TagsRead(w);
    PatternDenotesItself(w);
    assert |tag + w| > |w|;
  }

  lemma GlobReadAsPrefix(w: string)
    requires Glob.STAR in w
    ensures Accepts(Parse(PREFIX_TAG + w), w) && !Accepts(Globbed(PREFIX_TAG + w), w)
  {
    TagsRead(w);
    assert Glob.STAR !in PREFIX_TAG;
    TaggedPatternRejectsUntagged(PREFIX_TAG, w);
  }

  lemma GlobReadAsExact(w: string)
    ensures !Accepts(Parse(EXACT_TAG + w), EXACT_TAG + w) && Accepts(Globbed(EXACT_TAG + w), EXACT_TAG + w)
  {
    TagsRead(w);
    PatternDenotesItself(EXACT_TAG + w);
    assert |EXACT_TAG + w| > |w|;
  }

  lemma GlobReadAsGlob(w: string) returns (t: string)
    ensures Accepts(Parse(GLOB_TAG + w), t) && !Accepts(Globbed(GLOB_TAG + w), t)
  {
    TagsRead(w);
    assert Glob.STAR !in GLOB_TAG;
    t := ShorterWithoutTag(GLOB_TAG, w);
  }

  /** A candidate on which a mistagged matcher and its re-reading disagree. */
  lemma MistaggedDiffers(m: Matcher) returns (t: string)
    requires Mistagged(m)
    ensures Accepts(Parse(Source(m).value), t) != Accepts(m, t)
  {
    var tag, w := TagOf(m.v);
    assert Source(m).value == m.v;
    if m.Exact? {
      t := w;
      ExactDiffers(tag, w);
    } else if tag == GLOB_TAG {
      t := GlobReadAsGlob(w);
    } else if tag == PREFIX_TAG {
      t := w;
      assert Glob.STAR !in PREFIX_TAG;
      GlobReadAsPrefix(w);
    } else {
      t := m.v;
      GlobReadAsExact(w);
    }
  }

  /** Written out and read back, a matcher accepts the same candidates exactly when it is not mistagged. */
  lemma MeaningOfSource(m: Matcher)
    requires m != Any
    ensures (forall t: string :: Accepts(Parse(Source(m).value), t) <==> Accepts(m, t)) <==> !Mistagged(m)
  {
    ParseOfSource(m);
    if Mistagged(m) {
      var t := MistaggedDiffers(m);
    }
  }

  /** The glob `*`, which stands for an absent axis in a pair row, accepts everything. */
  lemma StarAcceptsAll(t: string)
    ensures Accepts(Parse([Glob.STAR]), t)
  {
    var parts := Split([Glob.STAR], Glob.STAR);
    assert Split([Glob.STAR][1..], Glob.STAR) == [[]];
    assert parts == [[], []];
    assert Glob.Weave(parts, [t]) == [] + t + Glob.Weave(parts[1..], [t][1..]);
    assert t == Glob.Weave(parts, [t]);
  }
}

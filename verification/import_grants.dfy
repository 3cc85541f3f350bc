/** Which imported rows the rule grants afterwards. Rows are compared by substring, so not all of them are. */
module ImportGrants {
  import opened Text
  import opened Matchers
  import opened Policy
  import opened Import
  import opened ImportLaws
  import Glob

  /** The debug form leaves a text as it is only if the text holds no quote. */
  ghost predicate EscapesQuotes(escape: Escape) {
    forall s: string :: escape(s) == s ==> '"' !in s
  }

  /** The row is plain and holds no star. */
  predicate Literal(c: Context, row: Row) {
    Plain(c.escape, c.scheme, row) && Glob.STAR !in CredRef(c.scheme, row) && Glob.STAR !in TargetUri(row)
  }

  /** Both texts of `row` lie inside those of `other`. */
  ghost predicate Inside(c: Context, row: Row, other: Row) {
    Occurs(CredRef(c.scheme, row), CredRef(c.scheme, other)) && Occurs(TargetUri(row), TargetUri(other))
  }

  predicate SameTexts(c: Context, row: Row, other: Row) {
    CredRef(c.scheme, row) == CredRef(c.scheme, other) && TargetUri(row) == TargetUri(other)
  }

  /** A fitting row whose texts contain those of `row`. */
  ghost predicate Around(c: Context, rows: seq<Row>, row: Row) {
    rows != [] &&
    var last := rows[|rows| - 1];
    Around(c, rows[..|rows| - 1], row) || (c.fits(last) && Inside(c, row, last))
  }

  /** The row's texts occur in a fitting row, and no fitting row before the first such one contains them. */
  ghost predicate OwnFirst(c: Context, rows: seq<Row>, row: Row) {
    rows != [] &&
    var front, last := rows[..|rows| - 1], rows[|rows| - 1];
    OwnFirst(c, front, row) || (c.fits(last) && SameTexts(c, row, last) && !Around(c, front, row))
  }

  lemma {:induction false} AroundMeans(c: Context, rows: seq<Row>, row: Row)
    ensures Around(c, rows, row) <==> exists k :: 0 <= k < |rows| && c.fits(rows[k]) && Inside(c, row, rows[k])
  {
    if rows != [] {
      var front := rows[..|rows| - 1];
      AroundMeans(c, front, row);
      assert forall k :: 0 <= k < |front| ==> front[k] == rows[k];
    }
  }

  /** The condition in terms of the inventory. */
  lemma {:induction false} OwnFirstMeans(c: Context, rows: seq<Row>, row: Row)
    ensures OwnFirst(c, rows, row) <==>
            exists j :: 0 <= j < |rows| && c.fits(rows[j]) && SameTexts(c, row, rows[j]) && !Around(c, rows[..j], row)
  {
    if rows != [] {
      var front, last := rows[..|rows| - 1], rows[|rows| - 1];
      OwnFirstMeans(c, front, row);
      assert forall j :: 0 <= j < |front| ==> front[j] == rows[j] && front[..j] == rows[..j];
      assert rows[|front|] == last && rows[..|front|] == front;
    }
  }

  // ---- What an added row mentions and accepts ----

  /** A quote-free text with a slash found between quotes is found in what they quote. */
  lemma InsideQuotes(lead: string, text: string, part: string)
    requires '"' !in part && '/' in part && '/' !in lead
    ensures Occurs(part, lead + "\"" + text + "\")") <==> Occurs(part, text)
  {
    var shown, n := lead + "\"" + text + "\")", |lead| + 1;
    assert shown[n..n + |text|] == text;
    if Occurs(part, text) { OccursInPart(part, text, shown, n); }
    if Occurs(part, shown) {
      var at :| At(part, shown, at);
      NoQuoteBetween(shown, part, at, n - 1);
      NoQuoteBetween(shown, part, at, n + |text|);
      SlashBetween(shown, part, at, lead, text);
      assert text[at - n..at - n + |part|] == shown[at..at + |part|];
      assert At(part, text, at - n);
    }
  }

  lemma NoQuoteBetween(shown: string, part: string, at: int, quote: nat)
    requires '"' !in part && At(part, shown, at) && quote < |shown| && shown[quote] == '"'
    ensures quote < at || at + |part| <= quote
  {
  }

  lemma SlashBetween(shown: string, part: string, at: int, lead: string, text: string)
    requires shown == lead + "\"" + text + "\")" && At(part, shown, at) && '/' in part && '/' !in lead
    requires (|lead| < at || at + |part| <= |lead|)
    requires (|lead| + 1 + |text| < at || at + |part| <= |lead| + 1 + |text|)
    ensures |lead| + 1 <= at && at + |part| <= |lead| + 1 + |text|
  {
    var i :| 0 <= i < |part| && part[i] == '/';
    assert shown[at + i] == shown[at..at + |part|][i] == '/';
    assert forall k :: 0 <= k < |lead| ==> shown[k] == lead[k] != '/';
    assert shown[|lead| + 2 + |text|] == ')' && |shown| == |lead| + 3 + |text|;
  }

  /** What a matcher's debug form mentions, its text does, whatever the kind of matcher; `Any` mentions nothing. */
  lemma MentionMeans(escape: Escape, m: Matcher, part: string)
    requires '"' !in part && '/' in part
    ensures Contains(DebugText(escape, m), part) <==> m != Any && Occurs(part, escape(m.v))
  {
    ContainsMeans(DebugText(escape, m), part);
    if m == Any {
      AnyMentionsNothing(part);
    } else {
      var lead := match m case Exact(_) => "Exact(" case Prefix(_) => "Prefix(" case _ => "Glob(";
      assert DebugText(escape, m) == lead + "\"" + escape(m.v) + "\")";
      InsideQuotes(lead, escape(m.v), part);
    }
  }

  lemma AnyMentionsNothing(part: string)
    requires '/' in part
    ensures !Occurs(part, "Any")
  {
    var i :| 0 <= i < |part| && part[i] == '/';
    var shown := "Any";
    forall at: int ensures !At(part, shown, at) {
      if 0 <= at && at + |part| <= |shown| { assert shown[at..at + |part|][i] == shown[at + i]; }
    }
  }

  lemma TextsHaveSlash(c: Context, row: Row)
    ensures '/' in CredRef(c.scheme, row) && '/' in TargetUri(row)
  {
    assert CredRef(c.scheme, row)[|c.scheme|] == '/';
    assert TargetUri(row)[4] == '/';
  }

  function Added(c: Context, row: Row): Pair {
    Pair(Parse(CredRef(c.scheme, row)), Parse(TargetUri(row)))
  }

  lemma {:induction false} AddedMentions(c: Context, added: Row, row: Row)
    requires EscapesQuotes(c.escape) && Literal(c, added) && Literal(c, row)
    ensures Mentions(c.escape, Added(c, added), CredRef(c.scheme, row), TargetUri(row)) <==> Inside(c, row, added)
  {
    TargetUntagged(added);
    TextsHaveSlash(c, row);
    MentionMeans(c.escape, Exact(CredRef(c.scheme, added)), CredRef(c.scheme, row));
    MentionMeans(c.escape, Exact(TargetUri(added)), TargetUri(row));
  }

  /** The pair row accepts what an agent would ask with the inventory row's credential and target. */
  ghost predicate AcceptsRow(c: Context, p: Pair, row: Row) {
    Accepts(p.credRef, CredRef(c.scheme, row)) && Accepts(p.targetUri, TargetUri(row))
  }

  lemma {:induction false} AddedAccepts(c: Context, added: Row, row: Row)
    requires Literal(c, added)
    ensures AcceptsRow(c, Added(c, added), row) <==> SameTexts(c, row, added)
  {
    TargetUntagged(added);
  }

  /** What mentions a row mentions every row inside it. */
  lemma {:induction false} ListedInside(c: Context, pairs: seq<Pair>, row: Row, other: Row)
    requires Inside(c, row, other) && Listed(c.escape, pairs, CredRef(c.scheme, other), TargetUri(other))
    ensures Listed(c.escape, pairs, CredRef(c.scheme, row), TargetUri(row))
    decreases |pairs|
  {
    var last := pairs[|pairs| - 1];
    if Mentions(c.escape, last, CredRef(c.scheme, other), TargetUri(other)) {
      ContainsInside(DebugText(c.escape, last.credRef), CredRef(c.scheme, other), CredRef(c.scheme, row));
      ContainsInside(DebugText(c.escape, last.targetUri), TargetUri(other), TargetUri(row));
    } else {
      ListedInside(c, pairs[..|pairs| - 1], row, other);
    }
  }

  lemma ContainsInside(hay: string, text: string, part: string)
    requires Contains(hay, text) && Occurs(part, text)
    ensures Contains(hay, part)
  {
    ContainsMeans(hay, text);
    var at :| At(text, hay, at);
    OccursInPart(part, text, hay, at);
    ContainsMeans(hay, part);
  }

  // ---- The run ----

  ghost predicate AllLiteral(c: Context, rows: seq<Row>) {
    forall i :: 0 <= i < |rows| ==> Literal(c, rows[i])
  }

  /** A row is known to the run exactly when the rule listed it or a fitting row before it contains it. */
  lemma {:induction false} KnownExactly(c: Context, start: map<string, string>, rows: seq<Row>, row: Row)
    requires EscapesQuotes(c.escape) && AllLiteral(c, rows) && Literal(c, row)
    ensures Known(c, AllTaken(c, Begin(start), rows).pairs, row) <==>
            Listed(c.escape, c.rows, CredRef(c.scheme, row), TargetUri(row)) || Around(c, rows, row)
  {
    if rows != [] {
      var front, last := rows[..|rows| - 1], rows[|rows| - 1];
      KnownExactly(c, start, front, row);
      KnownStep(c, AllTaken(c, Begin(start), front), last, row);
    }
  }

  lemma {:induction false} KnownStep(c: Context, p: Progress, last: Row, row: Row)
    requires EscapesQuotes(c.escape) && Literal(c, last) && Literal(c, row)
    ensures Known(c, Taken(c, p, last).pairs, row) <==> Known(c, p.pairs, row) || (c.fits(last) && Inside(c, row, last))
  {
    var q := Taken(c, p, last);
    if c.fits(last) && !Known(c, p.pairs, last) {
      assert q.pairs == p.pairs + [Added(c, last)];
      AddedMentions(c, last, row);
      AnyInMore(p.pairs, [Added(c, last)], Mentioning(c.escape, CredRef(c.scheme, row), TargetUri(row)));
    } else if c.fits(last) && Inside(c, row, last) {
      if Listed(c.escape, c.rows, CredRef(c.scheme, last), TargetUri(last)) {
        ListedInside(c, c.rows, row, last);
      } else {
        ListedInside(c, p.pairs, row, last);
      }
    }
  }

  /** Some pair row accepts it. */
  ghost predicate Granted(c: Context, pairs: seq<Pair>, row: Row) {
    exists i :: 0 <= i < |pairs| && AcceptsRow(c, pairs[i], row)
  }

  lemma {:induction false} GrantedMore(c: Context, pairs: seq<Pair>, more: seq<Pair>, row: Row)
    ensures Granted(c, pairs + more, row) <==> Granted(c, pairs, row) || Granted(c, more, row)
  {
    var all := pairs + more;
    if i :| 0 <= i < |pairs| && AcceptsRow(c, pairs[i], row) { assert all[i] == pairs[i]; }
    if i :| 0 <= i < |more| && AcceptsRow(c, more[i], row) { assert all[|pairs| + i] == more[i]; }
  }

  /** The rows added grant a row exactly when the rule did not list it and it comes first among those around it. */
  lemma {:induction false} AddedExactly(c: Context, start: map<string, string>, rows: seq<Row>, row: Row)
    requires EscapesQuotes(c.escape) && AllLiteral(c, rows) && Literal(c, row)
    ensures Granted(c, AllTaken(c, Begin(start), rows).pairs, row) <==>
            !Listed(c.escape, c.rows, CredRef(c.scheme, row), TargetUri(row)) && OwnFirst(c, rows, row)
  {
    if rows != [] {
      var front, last := rows[..|rows| - 1], rows[|rows| - 1];
      AddedExactly(c, start, front, row);
      KnownExactly(c, start, front, row);
      AddedStep(c, AllTaken(c, Begin(start), front), last, row);
    }
  }

  lemma {:induction false} AddedStep(c: Context, p: Progress, last: Row, row: Row)
    requires Literal(c, last)
    ensures Granted(c, Taken(c, p, last).pairs, row) <==>
            Granted(c, p.pairs, row) || (c.fits(last) && SameTexts(c, row, last) && !Known(c, p.pairs, row))
  {
    if c.fits(last) && !Known(c, p.pairs, last) {
      var one := [Added(c, last)];
      assert Taken(c, p, last).pairs == p.pairs + one;
      GrantedMore(c, p.pairs, one, row);
      AddedAccepts(c, last, row);
      assert Granted(c, one, row) <==> AcceptsRow(c, one[0], row);
    }
  }

  /**
   * After an import of literal rows, a row is granted if and only if the rule's own rows accept it, or they do not
   * mention it and no fitting row before its first occurrence contains it.
   */
  lemma {:induction false} GrantedExactly(c: Context, start: map<string, string>, rows: seq<Row>, row: Row)
    requires EscapesQuotes(c.escape) && AllLiteral(c, rows) && Literal(c, row)
    ensures Granted(c, c.rows + AllTaken(c, Begin(start), rows).pairs, row) <==>
            || Granted(c, c.rows, row)
            || (!Listed(c.escape, c.rows, CredRef(c.scheme, row), TargetUri(row)) && OwnFirst(c, rows, row))
  {
    AddedExactly(c, start, rows, row);
    GrantedMore(c, c.rows, AllTaken(c, Begin(start), rows).pairs, row);
  }

  /** A fitting row precedes the first occurrence of another's texts and contains them. */
  ghost predicate HidesAnother(c: Context, rows: seq<Row>, k: nat, i: nat)
    requires k < |rows| && i < |rows|
  {
    && c.fits(rows[k]) && c.fits(rows[i]) && Inside(c, rows[i], rows[k])
    && forall j :: 0 <= j <= k ==> !(c.fits(rows[j]) && SameTexts(c, rows[i], rows[j]))
  }

  /**
   * For a rule without rows, every fitting row of the inventory is granted if and only if no fitting row contains
   * the texts of another that first occurs after it.
   */
  lemma {:induction false} AllGrantedExactly(c: Context, start: map<string, string>, rows: seq<Row>)
    requires EscapesQuotes(c.escape) && AllLiteral(c, rows) && c.rows == []
    ensures (forall i :: 0 <= i < |rows| && c.fits(rows[i]) ==>
               Granted(c, AllTaken(c, Begin(start), rows).pairs, rows[i])) <==>
            (forall k, i :: 0 <= k < |rows| && 0 <= i < |rows| ==> !HidesAnother(c, rows, k, i))
  {
    forall i | 0 <= i < |rows| && c.fits(rows[i])
      ensures Granted(c, AllTaken(c, Begin(start), rows).pairs, rows[i]) <==>
              forall k :: 0 <= k < |rows| ==> !HidesAnother(c, rows, k, i)
    {
      AddedExactly(c, start, rows, rows[i]);
      FirstOccurrence(c, rows, i);
    }
  }

  lemma {:induction false} LeastSame(c: Context, rows: seq<Row>, i: nat) returns (j: nat)
    requires i < |rows| && c.fits(rows[i])
    ensures j <= i && c.fits(rows[j]) && SameTexts(c, rows[i], rows[j])
    ensures forall k :: 0 <= k < j ==> !(c.fits(rows[k]) && SameTexts(c, rows[i], rows[k]))
  {
    if k :| 0 <= k < i && c.fits(rows[k]) && SameTexts(c, rows[i], rows[k]) {
      j := LeastSame(c, rows, k);
    } else {
      j := i;
    }
  }

  lemma {:induction false} FirstOccurrence(c: Context, rows: seq<Row>, i: nat)
    requires i < |rows| && c.fits(rows[i])
    ensures OwnFirst(c, rows, rows[i]) <==> forall k :: 0 <= k < |rows| ==> !HidesAnother(c, rows, k, i)
  {
    var row := rows[i];
    var j := LeastSame(c, rows, i);
    OwnFirstMeans(c, rows, row);
    AroundMeans(c, rows[..j], row);
    assert forall k :: 0 <= k < j ==> rows[..j][k] == rows[k];
    if Around(c, rows[..j], row) {
      var k :| 0 <= k < j && c.fits(rows[k]) && Inside(c, row, rows[k]);
      assert HidesAnother(c, rows, k, i);
      forall m | 0 <= m < |rows| && c.fits(rows[m]) && SameTexts(c, row, rows[m]) ensures Around(c, rows[..m], row) {
        AroundMeans(c, rows[..m], row);
        assert rows[..m][k] == rows[k];
      }
    } else {
      forall k | 0 <= k < |rows| ensures !HidesAnother(c, rows, k, i) {
        if k < j { assert rows[..j][k] == rows[k]; }
      }
    }
  }
}

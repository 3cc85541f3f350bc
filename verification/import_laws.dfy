/** What an import never does to the vault, and why running it again changes nothing. */
module ImportLaws {
  import opened Text
  import opened Matchers
  import opened Policy
  import opened PolicyDocument
  import opened Import
  import Glob

  // ---- The vault ----

  /** What a run has done to the vault it started from. */
  ghost predicate OnlyAdds(c: Context, start: map<string, string>, p: Progress) {
    && (forall path :: path in start ==> path in p.vault && p.vault[path] == start[path])
    && (forall path :: path in p.writes ==> path !in start)
    && (forall i, j :: 0 <= i < j < |p.writes| ==> p.writes[i] != p.writes[j])
    && p.vault.Keys == start.Keys + (set path | path in p.writes)
    && p.vault.Keys <= p.paths
    && (c.dryRun ==> p.vault == start && p.writes == [])
  }

  lemma {:induction false} RowOnlyAdds(
    c: Context, start: map<string, string>, p: Progress, row: Row, fits: bool, known: bool)
    requires OnlyAdds(c, start, p)
    ensures OnlyAdds(c, start, Put(c, p, row, fits, known))
  {
    var path := EntryPath(c.scheme, row.name);
    if fits && path !in p.paths && !c.dryRun {
      var q := Stored(c, p, row);
      assert q.vault.Keys == p.vault.Keys + {path};
      assert (set x | x in q.writes) == (set x | x in p.writes) + {path};
      assert OnlyAdds(c, start, q);
    }
  }

  /** No entry is changed or removed, each new path is set once, and a dry run sets nothing. */
  lemma {:induction false} ImportOnlyAdds(c: Context, start: map<string, string>, rows: seq<Row>)
    ensures OnlyAdds(c, start, AllTaken(c, Begin(start), rows))
  {
    if rows != [] {
      var front := rows[..|rows| - 1];
      ImportOnlyAdds(c, start, front);
      var p, last := AllTaken(c, Begin(start), front), rows[|rows| - 1];
      RowOnlyAdds(c, start, p, last, c.fits(last), Known(c, p.pairs, last));
    }
  }

  /** The value of the first row that fits the rule and resolves to the path. */
  function FirstValue(c: Context, rows: seq<Row>, path: string): Option<string> {
    if rows == [] then None
    else
      var earlier, last := FirstValue(c, rows[..|rows| - 1], path), rows[|rows| - 1];
      if earlier.Some? then earlier
      else if c.fits(last) && EntryPath(c.scheme, last.name) == path then Some(NewValue(last))
      else None
  }

  lemma {:induction false} PathsSeen(c: Context, start: map<string, string>, rows: seq<Row>, path: string)
    ensures path in AllTaken(c, Begin(start), rows).paths <==> path in start || FirstValue(c, rows, path).Some?
  {
    if rows != [] { PathsSeen(c, start, rows[..|rows| - 1], path); }
  }

  /** A path new to the vault gets the value of the first row for it, and none appears without such a row. */
  lemma {:induction false} FirstRowWins(c: Context, start: map<string, string>, rows: seq<Row>, path: string)
    requires !c.dryRun && path !in start
    ensures var vault := AllTaken(c, Begin(start), rows).vault;
            && (path in vault <==> FirstValue(c, rows, path).Some?)
            && (path in vault ==> vault[path] == FirstValue(c, rows, path).value)
  {
    if rows != [] {
      var front := rows[..|rows| - 1];
      FirstRowWins(c, start, front, path);
      PathsAreKeys(c, start, front);
    }
  }

  lemma {:induction false} PathsAreKeys(c: Context, start: map<string, string>, rows: seq<Row>)
    requires !c.dryRun
    ensures AllTaken(c, Begin(start), rows).paths == AllTaken(c, Begin(start), rows).vault.Keys
  {
    if rows != [] { PathsAreKeys(c, start, rows[..|rows| - 1]); }
  }

  /** What a row's summary line must say, given the rows before it. */
  function OutcomeOf(c: Context, start: map<string, string>, earlier: seq<Row>, row: Row): Outcome {
    var path := EntryPath(c.scheme, row.name);
    if !c.fits(row) then Incompatible(CredRef(c.scheme, row), TargetUri(row))
    else if path in start || FirstValue(c, earlier, path).Some? then SkippedExists(path)
    else Imported(path)
  }

  function Summary(c: Context, start: map<string, string>, rows: seq<Row>): seq<Outcome> {
    seq(|rows|, i requires 0 <= i < |rows| => OutcomeOf(c, start, rows[..i], rows[i]))
  }

  lemma {:induction false} SummaryGrows(c: Context, start: map<string, string>, rows: seq<Row>)
    requires rows != []
    ensures var front := rows[..|rows| - 1];
            Summary(c, start, rows) == Summary(c, start, front) + [OutcomeOf(c, start, front, rows[|rows| - 1])]
  {
    var front := rows[..|rows| - 1];
    forall i | 0 <= i < |front| ensures rows[..i] == front[..i] && rows[i] == front[i] {
    }
  }

  /** One outcome for each row, in order: refused, already there from the vault or an earlier row, or new. */
  lemma {:induction false} OutcomesTell(c: Context, start: map<string, string>, rows: seq<Row>)
    ensures AllTaken(c, Begin(start), rows).outcomes == Summary(c, start, rows)
  {
    if rows != [] {
      var front := rows[..|rows| - 1];
      OutcomesTell(c, start, front);
      SummaryGrows(c, start, rows);
      LastOutcome(c, start, front, rows[|rows| - 1]);
    }
  }

  lemma {:induction false} LastOutcome(c: Context, start: map<string, string>, front: seq<Row>, row: Row)
    ensures var p := AllTaken(c, Begin(start), front);
            Taken(c, p, row).outcomes == p.outcomes + [OutcomeOf(c, start, front, row)]
  {
    PathsSeen(c, start, front, EntryPath(c.scheme, row.name));
  }

  /** Every pair row added is that of a fitting row of the inventory. */
  lemma {:induction false} PairsComeFromRows(c: Context, start: map<string, string>, rows: seq<Row>, i: nat)
    returns (k: nat)
    requires i < |AllTaken(c, Begin(start), rows).pairs|
    ensures k < |rows| && c.fits(rows[k])
    ensures AllTaken(c, Begin(start), rows).pairs[i]
            == Pair(Parse(CredRef(c.scheme, rows[k])), Parse(TargetUri(rows[k])))
  {
    var front := rows[..|rows| - 1];
    if i < |AllTaken(c, Begin(start), front).pairs| {
      k := PairsComeFromRows(c, start, front, i);
    } else {
      k := |front|;
    }
  }

  lemma {:induction false} ReadFits(doc: Document)
    requires Readable(doc)
    ensures AllFit(Read(doc))
  {
    forall i | 0 <= i < |doc| ensures LimitsFit(Read(doc)[i]) {
      assert WellFormed(doc[i]);
    }
  }

  lemma {:induction false} PairsFit(rules: seq<Rule>, at: nat, more: seq<Pair>)
    requires AllFit(rules) && at < |rules|
    ensures AllFit(WithPairs(rules, at, more))
  {
    forall i | 0 <= i < |rules| ensures LimitsFit(WithPairs(rules, at, more)[i]) {
      assert LimitsFit(rules[i]);
    }
  }

  /** Rows that fit resolve to entries the vault already has. */
  ghost predicate AllThere(c: Context, start: map<string, string>, rows: seq<Row>) {
    forall i :: 0 <= i < |rows| && c.fits(rows[i]) ==> EntryPath(c.scheme, rows[i].name) in start
  }

  /** Rows leave the vault as it was exactly when they need no new entry. */
  lemma {:induction false} UntouchedExactly(c: Context, start: map<string, string>, rows: seq<Row>)
    requires !c.dryRun
    ensures AllTaken(c, Begin(start), rows).vault == start <==> AllThere(c, start, rows)
  {
    ImportOnlyAdds(c, start, rows);
    var p := AllTaken(c, Begin(start), rows);
    forall i | 0 <= i < |rows| && c.fits(rows[i]) ensures EntryPath(c.scheme, rows[i].name) in p.vault {
      EveryFitIsStored(c, start, rows, i);
      PathsAreKeys(c, start, rows);
    }
    if AllThere(c, start, rows) {
      forall i | 0 <= i < |p.writes| ensures p.writes[i] in start {
        var k := WritesResolve(c, start, rows, i);
      }
      assert forall i :: 0 <= i < |p.writes| ==> p.writes[i] in p.writes;
      assert p.vault.Keys == start.Keys;
    }
  }

  /** A generated document always loads. */
  lemma {:induction false} GeneratedLoads(job: Job, vault: map<string, string>)
    ensures RunOf(job, vault).1.Err? ==> RunOf(job, vault).1.error != GeneratedPolicyInvalid
  {
    if Readable(job.doc) && RuleNamed(Read(job.doc), job.rule, 0).Some? && !TouchesCa(job) {
      ReadFits(job.doc);
      RowsLoad(job, vault, Read(job.doc), RuleNamed(Read(job.doc), job.rule, 0).value);
    }
  }

  lemma {:induction false} RowsLoad(job: Job, vault: map<string, string>, rules: seq<Rule>, at: nat)
    requires at < |rules| && AllFit(rules)
    ensures RunRows(job, vault, rules, at).1.Err? ==>
              RunRows(job, vault, rules, at).1.error != GeneratedPolicyInvalid
  {
    var p := TakenBy(job, vault, rules, at);
    PairsFit(rules, at, p.pairs);
    RoundTrip(WithPairs(rules, at, p.pairs));
  }

  /**
   * On an error the vault is as it was, unless the error is the vault's own refusal of a path; then it is as it was
   * if and only if the rows before that one needed no new entry.
   */
  lemma {:induction false} RefusalWritesNothing(job: Job, vault: map<string, string>)
    requires RunOf(job, vault).1.Err?
    ensures !RunOf(job, vault).1.error.VaultSet? ==> RunOf(job, vault).0 == vault
    ensures RunOf(job, vault).1.error.VaultSet? ==>
              var rules := Read(job.doc);
              var at := RuleNamed(rules, job.rule, 0).value;
              var stop := StopsAt(job, vault, rules, at).value;
              (RunOf(job, vault).0 == vault <==> AllThere(ContextOf(job, rules[at]), vault, job.rows[..stop]))
  {
    GeneratedLoads(job, vault);
    if Readable(job.doc) && RuleNamed(Read(job.doc), job.rule, 0).Some? && !TouchesCa(job) {
      RefusedRows(job, vault, Read(job.doc), RuleNamed(Read(job.doc), job.rule, 0).value);
    }
  }

  lemma {:induction false} RefusedRows(job: Job, vault: map<string, string>, rules: seq<Rule>, at: nat)
    requires at < |rules| && RunRows(job, vault, rules, at).1.Err?
    requires RunRows(job, vault, rules, at).1.error != GeneratedPolicyInvalid
    ensures var (after, r) := RunRows(job, vault, rules, at);
            if r.error.VaultSet? then
              var stop := StopsAt(job, vault, rules, at);
              stop.Some? && (after == vault <==> AllThere(ContextOf(job, rules[at]), vault, job.rows[..stop.value]))
            else after == vault
  {
    var stop := StopsAt(job, vault, rules, at);
    if stop.Some? {
      UntouchedExactly(ContextOf(job, rules[at]), vault, job.rows[..stop.value]);
    }
  }

  lemma {:induction false} PutGrows(c: Context, p: Progress, row: Row, fits: bool, known: bool)
    ensures var q := Put(c, p, row, fits, known);
            && p.pairs <= q.pairs && p.writes <= q.writes <= p.writes + [EntryPath(c.scheme, row.name)]
            && (!fits ==> q.writes == p.writes)
            && p.paths <= q.paths && (fits ==> EntryPath(c.scheme, row.name) in q.paths)
  {
  }

  lemma {:induction false} WritesResolve(c: Context, start: map<string, string>, rows: seq<Row>, i: nat)
    returns (k: nat)
    requires i < |AllTaken(c, Begin(start), rows).writes|
    ensures k < |rows| && c.fits(rows[k])
    ensures AllTaken(c, Begin(start), rows).writes[i] == EntryPath(c.scheme, rows[k].name)
  {
    var front, last := rows[..|rows| - 1], rows[|rows| - 1];
    var p := AllTaken(c, Begin(start), front);
    PutGrows(c, p, last, c.fits(last), Known(c, p.pairs, last));
    if i < |p.writes| {
      k := WritesResolve(c, start, front, i);
    } else {
      k := |front|;
    }
  }

  /** Nothing is ever written under the certificate authority's namespace. */
  lemma {:induction false} NothingUnderCa(job: Job, vault: map<string, string>, path: string)
    requires CA_NAMESPACE <= path
    ensures path in RunOf(job, vault).0 <==> path in vault
    ensures path in vault ==> RunOf(job, vault).0[path] == vault[path]
  {
    if Readable(job.doc) && RuleNamed(Read(job.doc), job.rule, 0).Some? && !TouchesCa(job) {
      RunAvoidsCa(job, vault, Read(job.doc), RuleNamed(Read(job.doc), job.rule, 0).value, path);
    }
  }

  lemma {:induction false} RunAvoidsCa(
    job: Job, vault: map<string, string>, rules: seq<Rule>, at: nat, path: string)
    requires CA_NAMESPACE <= path && !TouchesCa(job) && at < |rules|
    ensures var after := RunRows(job, vault, rules, at).0;
            (path in after <==> path in vault) && (path in vault ==> after[path] == vault[path])
  {
    var stop := StopsAt(job, vault, rules, at);
    RowsAvoidCa(job, ContextOf(job, rules[at]), vault, if stop.Some? then stop.value else |job.rows|, path);
    assert job.rows[..|job.rows|] == job.rows;
  }

  lemma {:induction false} RowsAvoidCa(job: Job, c: Context, vault: map<string, string>, n: nat, path: string)
    requires CA_NAMESPACE <= path && !TouchesCa(job) && c.scheme == job.scheme && n <= |job.rows|
    ensures var after := AllTaken(c, Begin(vault), job.rows[..n]).vault;
            (path in after <==> path in vault) && (path in vault ==> after[path] == vault[path])
  {
    var rows := job.rows[..n];
    var p := AllTaken(c, Begin(vault), rows);
    ImportOnlyAdds(c, vault, rows);
    forall i | 0 <= i < |p.writes| ensures p.writes[i] != path {
      var k := WritesResolve(c, vault, rows, i);
      assert !(CA_NAMESPACE <= EntryPath(job.scheme, job.rows[k].name));
    }
  }

  // ---- Axes ----

  lemma TargetScheme(row: Row)
    ensures SchemeOf(TargetUri(row)) == "ssh"
  {
    var uri := TargetUri(row);
    assert uri[3..6] == SCHEME_MARK;
    assert At(SCHEME_MARK, uri, 3);
    forall k: int | 0 <= k < 3 ensures !At(SCHEME_MARK, uri, k) {
      assert uri[k] == "ssh"[k];
      if k + 3 <= |uri| { assert uri[k..k + 3][0] == uri[k]; }
    }
    assert uri[..3] == "ssh";
  }

  lemma AnyLacksSsh()
    ensures !Contains("Any", "ssh") && "Any" != "*" && !("glob:*" <= "Any")
  {
    assert "Any"[0..3][0] == 'A';
    assert forall k: int :: k != 0 ==> !At("ssh", "Any", k);
  }

  /** A rule that leaves its target axis open would match every row, yet every row is refused. */
  lemma {:induction false} OpenTargetAxisRefusesAll(job: Job, rule: Rule, row: Row)
    requires rule.targetUri == Any
    ensures Accepts(rule.targetUri, TargetUri(row)) && !ContextOf(job, rule).fits(row)
  {
    TargetScheme(row);
    AnyLacksSsh();
  }

  /** On the target axis the test is whether the rule's text mentions `ssh` at all. */
  lemma TargetAxisMeans(escape: Escape, m: Matcher, row: Row)
    ensures AxisCompatible(DebugText(escape, m), TargetUri(row)) <==> Occurs("ssh", DebugText(escape, m))
  {
    TargetScheme(row);
    ContainsMeans(DebugText(escape, m), "ssh");
    var text := DebugText(escape, m);
    assert text[0] in {'A', 'E', 'P', 'G'};
  }

  /**
   * A row fits exactly when the rule's reference axis, shown in its debug form, mentions what stands before the mark
   * in the row's reference (if anything does), and its target axis mentions `ssh`. No wildcard is seen through.
   */
  lemma {:induction false} FitsExactly(job: Job, rule: Rule, row: Row)
    ensures var scheme := SchemeOf(job.scheme + "/" + row.name);
            ContextOf(job, rule).fits(row) <==>
            && (scheme == "" || Occurs(scheme, DebugText(job.escape, rule.credRef)))
            && Occurs("ssh", DebugText(job.escape, rule.targetUri))
  {
    var text := DebugText(job.escape, rule.credRef);
    TargetAxisMeans(job.escape, rule.targetUri, row);
    ContainsMeans(text, SchemeOf(CredRef(job.scheme, row)));
    assert text[0] in {'A', 'E', 'P', 'G'};
  }

  // ---- Running it again ----

  /** The row's texts survive the debug form, and its reference is not read as a tagged matcher. */
  predicate Plain(escape: Escape, scheme: string, row: Row) {
    && escape(CredRef(scheme, row)) == CredRef(scheme, row) && escape(TargetUri(row)) == TargetUri(row)
    && !Tagged(CredRef(scheme, row))
  }

  lemma ShowsItself(escape: Escape, text: string)
    requires escape(text) == text && !Tagged(text)
    ensures Contains(DebugText(escape, Parse(text)), text) && !Mistagged(Parse(text))
  {
    var shown := DebugText(escape, Parse(text));
    var lead := if Glob.STAR in text then "Glob(\"" else "Exact(\"";
    assert shown == lead + text + "\")";
    assert At(text, shown, |lead|);
    ContainsMeans(shown, text);
  }

  lemma TargetUntagged(row: Row)
    ensures !Tagged(TargetUri(row))
  {
    assert TargetUri(row)[0] == 's';
    assert GLOB_TAG[0] == 'g' && PREFIX_TAG[0] == 'p' && EXACT_TAG[0] == 'e';
  }

  lemma {:induction false} AnyInMore<T>(items: seq<T>, more: seq<T>, f: T -> bool)
    ensures AnyOf(items + more, f) <==> AnyOf(items, f) || AnyOf(more, f)
    decreases |more|
  {
    var all := items + more;
    if more == [] {
      assert all == items;
    } else {
      assert all[..|all| - 1] == items + more[..|more| - 1];
      AnyInMore(items, more[..|more| - 1], f);
    }
  }

  lemma {:induction false} ListedInLonger<T>(items: seq<T>, more: seq<T>, longer: seq<T>, f: T -> bool)
    requires AnyOf(items + more, f) && more <= longer
    ensures AnyOf(items + longer, f)
  {
    AnyInMore(items, more, f);
    AnyInMore(items, longer, f);
    assert longer == more + longer[|more|..];
    AnyInMore(more, longer[|more|..], f);
  }

  lemma {:induction false} RowGetsListed(c: Context, p: Progress, row: Row)
    requires c.fits(row) && Plain(c.escape, c.scheme, row)
    ensures Listed(c.escape, c.rows + Taken(c, p, row).pairs, CredRef(c.scheme, row), TargetUri(row))
  {
    var q, f := Taken(c, p, row).pairs, Mentioning(c.escape, CredRef(c.scheme, row), TargetUri(row));
    OwnPairMentions(c, row);
    if !Known(c, p.pairs, row) {
      var own := Pair(Parse(CredRef(c.scheme, row)), Parse(TargetUri(row)));
      assert q == p.pairs + [own] && q[|q| - 1] == own;
    }
    AnyInMore(c.rows, q, f);
  }

  lemma {:induction false} OwnPairMentions(c: Context, row: Row)
    requires Plain(c.escape, c.scheme, row)
    ensures Mentions(c.escape, Pair(Parse(CredRef(c.scheme, row)), Parse(TargetUri(row))),
                     CredRef(c.scheme, row), TargetUri(row))
  {
    TargetUntagged(row);
    ShowsItself(c.escape, CredRef(c.scheme, row));
    ShowsItself(c.escape, TargetUri(row));
  }

  /** Rows are compared by substring, so one whose texts lie inside another's gets no pair row of its own. */
  lemma {:induction false} LongerRowHidesShorter(c: Context, p: Progress, longer: Row, shorter: Row)
    requires c.fits(longer) && Plain(c.escape, c.scheme, longer) && !Known(c, p.pairs, longer)
    requires Occurs(CredRef(c.scheme, shorter), CredRef(c.scheme, longer))
    requires Occurs(TargetUri(shorter), TargetUri(longer))
    requires Glob.STAR !in CredRef(c.scheme, longer) && CredRef(c.scheme, shorter) != CredRef(c.scheme, longer)
    ensures var q := Taken(c, p, longer);
            && Known(c, q.pairs, shorter) && Taken(c, q, shorter).pairs == q.pairs == p.pairs + [q.pairs[|p.pairs|]]
            && !Accepts(q.pairs[|p.pairs|].credRef, CredRef(c.scheme, shorter))
  {
    TargetUntagged(longer);
    ShowsInside(c.escape, CredRef(c.scheme, longer), CredRef(c.scheme, shorter));
    ShowsInside(c.escape, TargetUri(longer), TargetUri(shorter));
    var added := Pair(Parse(CredRef(c.scheme, longer)), Parse(TargetUri(longer)));
    assert Mentions(c.escape, added, CredRef(c.scheme, shorter), TargetUri(shorter));
    assert Mentioning(c.escape, CredRef(c.scheme, shorter), TargetUri(shorter))(added);
  }

  lemma ShowsInside(escape: Escape, text: string, part: string)
    requires escape(text) == text && !Tagged(text) && Occurs(part, text)
    ensures Contains(DebugText(escape, Parse(text)), part)
  {
    var shown := DebugText(escape, Parse(text));
    ShowsItself(escape, text);
    ContainsMeans(shown, text);
    var at :| At(text, shown, at);
    OccursInPart(part, text, shown, at);
    ContainsMeans(shown, part);
  }

  lemma {:induction false} EveryFitIsStored(c: Context, start: map<string, string>, rows: seq<Row>, i: nat)
    requires i < |rows| && c.fits(rows[i])
    ensures EntryPath(c.scheme, rows[i].name) in AllTaken(c, Begin(start), rows).paths
  {
    var front, last := rows[..|rows| - 1], rows[|rows| - 1];
    TakenStores(c, AllTaken(c, Begin(start), front), last);
    if i < |front| { EveryFitIsStored(c, start, front, i); }
  }

  lemma {:induction false} TakenStores(c: Context, p: Progress, row: Row)
    ensures p.paths <= Taken(c, p, row).paths
    ensures c.fits(row) ==> EntryPath(c.scheme, row.name) in Taken(c, p, row).paths
  {
    PutGrows(c, p, row, c.fits(row), Known(c, p.pairs, row));
  }

  /** After a run every row that fits is listed among the rule's rows. */
  lemma {:induction false} EveryFitIsListed(c: Context, start: map<string, string>, rows: seq<Row>, i: nat)
    requires i < |rows| && c.fits(rows[i]) && Plain(c.escape, c.scheme, rows[i])
    ensures var pairs := AllTaken(c, Begin(start), rows).pairs;
            Listed(c.escape, c.rows + pairs, CredRef(c.scheme, rows[i]), TargetUri(rows[i]))
  {
    var front, last := rows[..|rows| - 1], rows[|rows| - 1];
    var p := AllTaken(c, Begin(start), front);
    if i == |front| {
      RowGetsListed(c, p, last);
    } else {
      EveryFitIsListed(c, start, front, i);
      PutGrows(c, p, last, c.fits(last), Known(c, p.pairs, last));
      ListedInLonger(
        c.rows, p.pairs, Taken(c, p, last).pairs,
        Mentioning(c.escape, CredRef(c.scheme, rows[i]), TargetUri(rows[i])));
    }
  }
}

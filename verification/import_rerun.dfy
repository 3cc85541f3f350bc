/** Running an import again on what it left: when that changes nothing, and how rows pile up when it does. */
module ImportRerun {
  import opened Text
  import opened Matchers
  import opened Policy
  import opened PolicyDocument
  import opened Import
  import opened ImportLaws
  import Glob

  // ---- Rows that change nothing ----

  /** A row that is in the vault and listed changes nothing but its outcome line. */
  ghost predicate Settled(c: Context, vault: map<string, string>, row: Row) {
    c.fits(row) ==>
      EntryPath(c.scheme, row.name) in vault && Listed(c.escape, c.rows, CredRef(c.scheme, row), TargetUri(row))
  }

  lemma {:induction false} SettledRowsChangeNothing(c: Context, vault: map<string, string>, rows: seq<Row>)
    requires forall i :: 0 <= i < |rows| ==> Settled(c, vault, rows[i])
    ensures var p := AllTaken(c, Begin(vault), rows);
            p.vault == vault && p.paths == vault.Keys && p.pairs == [] && p.writes == []
  {
    if rows != [] {
      assert Settled(c, vault, rows[|rows| - 1]);
      SettledRowsChangeNothing(c, vault, rows[..|rows| - 1]);
    }
  }

  lemma {:induction false} SettledRowsNotRefused(
    c: Context, faults: Faults, vault: map<string, string>, rows: seq<Row>, n: nat)
    requires n <= |rows| && forall i :: 0 <= i < |rows| ==> Settled(c, vault, rows[i])
    ensures FirstRefused(c, faults, vault, rows, n) == None
    decreases |rows| - n
  {
    if n < |rows| {
      SettledRowsChangeNothing(c, vault, rows[..n]);
      assert Settled(c, vault, rows[n]);
      SettledRowsNotRefused(c, faults, vault, rows, n + 1);
    }
  }

  /** And only such rows leave vault and rule as they were. */
  lemma {:induction false} NoPairsMeansListed(c: Context, start: map<string, string>, rows: seq<Row>, i: nat)
    requires AllTaken(c, Begin(start), rows).pairs == [] && i < |rows| && c.fits(rows[i])
    ensures Listed(c.escape, c.rows, CredRef(c.scheme, rows[i]), TargetUri(rows[i]))
  {
    var front, last := rows[..|rows| - 1], rows[|rows| - 1];
    NothingAdded(c, AllTaken(c, Begin(start), front), last);
    if i < |front| { NoPairsMeansListed(c, start, front, i); }
  }

  lemma {:induction false} NothingAdded(c: Context, p: Progress, row: Row)
    requires Taken(c, p, row).pairs == []
    ensures p.pairs == [] && (c.fits(row) ==> Listed(c.escape, c.rows, CredRef(c.scheme, row), TargetUri(row)))
  {
    PutGrows(c, p, row, c.fits(row), Known(c, p.pairs, row));
  }

  lemma {:induction false} UnchangedMeansSettled(c: Context, vault: map<string, string>, rows: seq<Row>, i: nat)
    requires !c.dryRun && i < |rows|
    requires AllTaken(c, Begin(vault), rows).pairs == [] && AllTaken(c, Begin(vault), rows).vault == vault
    ensures Settled(c, vault, rows[i])
  {
    if c.fits(rows[i]) {
      NoPairsMeansListed(c, vault, rows, i);
      UntouchedExactly(c, vault, rows);
    }
  }

  ghost predicate AllSettled(c: Context, vault: map<string, string>, rows: seq<Row>) {
    forall i :: 0 <= i < |rows| ==> Settled(c, vault, rows[i])
  }

  // ---- The second run ----

  /** The run succeeds, and so does a second one on its result, which changes neither the vault nor the document. */
  ghost predicate RerunIsIdle(job: Job, vault: map<string, string>) {
    var (vault1, r) := RunOf(job, vault);
    && r.Ok?
    && var again := RunOf(job.(doc := r.value.1), vault1);
    again.0 == vault1 && again.1.Ok? && again.1.value.1 == r.value.1
  }

  /** The rules a run leaves. */
  ghost predicate FirstRun(job: Job, vault: map<string, string>, rules: seq<Rule>, at: nat, p: Progress) {
    && Readable(job.doc) && rules == Read(job.doc) && RuleNamed(rules, job.rule, 0) == Some(at)
    && !TouchesCa(job) && !job.dryRun && !job.faults.unlistable && p == TakenBy(job, vault, rules, at)
  }

  lemma {:induction false} SameRuleNamed(rules: seq<Rule>, more: seq<Rule>, name: string, at: nat)
    requires RuleNamed(rules, name, 0) == Some(at) && |more| == |rules|
    requires forall i :: 0 <= i < |rules| ==> more[i].name == rules[i].name
    ensures RuleNamed(more, name, 0) == Some(at)
  {
    var r := RuleNamed(more, name, 0);
    assert more[at].name == Some(name);
  }

  /** What a saved ruleset keeps whatever its matchers: its length, its names, and how many rows each rule has. */
  lemma {:induction false} SavedShape(rules: seq<Rule>, i: nat)
    requires AllFit(rules) && i < |rules|
    ensures Readable(Written(rules)) && |Read(Written(rules))| == |rules|
    ensures Read(Written(rules))[i] == ReadRule(WriteRule(rules[i]))
    ensures Read(Written(rules))[i].name == rules[i].name && |Read(Written(rules))[i].pairs| == |rules[i].pairs|
    ensures |Written(rules)[i].pairs| == |rules[i].pairs|
  {
    RoundTrip(rules);
  }

  /** The reloaded rules name the same rule. */
  lemma {:induction false} Reloaded(rules: seq<Rule>, at: nat, more: seq<Rule>, name: string)
    requires RuleNamed(rules, name, 0) == Some(at) && AllFit(more) && |more| == |rules|
    requires forall i :: 0 <= i < |rules| ==> more[i].name == rules[i].name
    ensures Readable(Written(more)) && RuleNamed(Read(Written(more)), name, 0) == Some(at)
    ensures AllFit(Read(Written(more)))
  {
    RoundTrip(more);
    forall i | 0 <= i < |rules| ensures Read(Written(more))[i].name == rules[i].name { SavedShape(more, i); }
    SameRuleNamed(rules, Read(Written(more)), name, at);
    ReadFits(Written(more));
  }

  /** A run from the listing on, over rules just loaded, changes nothing exactly when no row needs anything. */
  lemma {:induction false} IdleRows(job: Job, vault: map<string, string>, rules: seq<Rule>, at: nat, doc: Document)
    requires at < |rules| && AllFit(rules) && !job.dryRun && !job.faults.unlistable
    requires |doc| == |rules| && |doc[at].pairs| == |rules[at].pairs|
    ensures var again := RunRows(job, vault, rules, at);
            (again.0 == vault && again.1.Ok? && again.1.value.1 == doc) <==>
            (AllSettled(ContextOf(job, rules[at]), vault, job.rows) && Written(rules) == doc)
  {
    var c := ContextOf(job, rules[at]);
    var p := TakenBy(job, vault, rules, at);
    if AllSettled(c, vault, job.rows) {
      SettledRowsChangeNothing(c, vault, job.rows);
      SettledRowsNotRefused(c, job.faults, vault, job.rows, 0);
      NoneAdded(rules, at);
      RoundTrip(rules);
    }
    var again := RunRows(job, vault, rules, at);
    if again.0 == vault && again.1.Ok? && again.1.value.1 == doc {
      assert |WithPairs(rules, at, p.pairs)[at].pairs| == |rules[at].pairs| + |p.pairs|;
      assert |Written(WithPairs(rules, at, p.pairs))[at].pairs| == |doc[at].pairs|;
      forall i | 0 <= i < |job.rows| ensures Settled(c, vault, job.rows[i]) {
        UnchangedMeansSettled(c, vault, job.rows, i);
      }
      SettledRowsChangeNothing(c, vault, job.rows);
      NoneAdded(rules, at);
    }
  }

  /**
   * After a run that succeeds, a second one is idle if and only if no matcher of the saved ruleset loses a tag, and
   * every row that fits the rule as it is read back has its entry and is mentioned by one of that rule's rows.
   */
  lemma {:induction false} RerunIdleExactly(job: Job, vault: map<string, string>)
    requires !job.dryRun && RunOf(job, vault).1.Ok?
    ensures var rules := Read(job.doc);
            var at := RuleNamed(rules, job.rule, 0).value;
            var p := TakenBy(job, vault, rules, at);
            var more := WithPairs(rules, at, p.pairs);
            && Readable(Written(more)) && at < |Read(Written(more))|
            && (RerunIsIdle(job, vault) <==>
                AllStable(more) && AllSettled(ContextOf(job, Read(Written(more))[at]), p.vault, job.rows))
  {
    var rules := Read(job.doc);
    var at := RuleNamed(rules, job.rule, 0).value;
    var p := TakenBy(job, vault, rules, at);
    var more := WithPairs(rules, at, p.pairs);
    ReadFits(job.doc);
    PairsFit(rules, at, p.pairs);
    Reloaded(rules, at, more, job.rule);
    SavedShape(more, at);
    SavingIsIdempotent(more);
    var next := job.(doc := Written(more));
    assert TouchesCa(next) <==> TouchesCa(job);
    assert RunOf(next, p.vault) == RunRows(next, p.vault, Read(Written(more)), at);
    IdleRows(next, p.vault, Read(Written(more)), at, Written(more));
  }

  // ---- A rule without rows ----

  lemma ParsedUntagged(text: string)
    requires !Tagged(text)
    ensures !Mistagged(Parse(text)) && !LosesATag(Parse(text)) && Parse(text) != Any
  {
  }

  /** The rows a run adds are written as they are read, unless a reference starts with a tag. */
  lemma {:induction false} NewPairsFaithful(c: Context, start: map<string, string>, rows: seq<Row>, i: nat)
    requires forall k :: 0 <= k < |rows| ==> !Tagged(CredRef(c.scheme, rows[k]))
    requires i < |AllTaken(c, Begin(start), rows).pairs|
    ensures KeptBySaving(AllTaken(c, Begin(start), rows).pairs[i])
  {
    var k := PairsComeFromRows(c, start, rows, i);
    ParsedUntagged(CredRef(c.scheme, rows[k]));
    TargetUntagged(rows[k]);
    ParsedUntagged(TargetUri(rows[k]));
  }

  predicate KeptBySaving(p: Pair) {
    && !Mistagged(p.credRef) && !LosesATag(p.credRef) && p.credRef != Any
    && !Mistagged(p.targetUri) && !LosesATag(p.targetUri) && p.targetUri != Any
  }

  /** A rule read back with its axes and rows as they were. */
  lemma {:induction false} RuleKept(r: Rule)
    requires LimitsFit(r) && !Mistagged(r.credRef) && !Mistagged(r.targetUri)
    requires forall i :: 0 <= i < |r.pairs| ==> KeptBySaving(r.pairs[i])
    ensures WellFormed(WriteRule(r))
    ensures var back := ReadRule(WriteRule(r));
            back.credRef == r.credRef && back.targetUri == r.targetUri && back.pairs == r.pairs
  {
    RuleLoads(r);
    AxesReadBack(r);
    RowsReadBack(r);
    assert NormalRule(r).pairs == r.pairs;
  }

  lemma {:induction false} StableWithPairs(rules: seq<Rule>, at: nat, pairs: seq<Pair>)
    requires at < |rules| && forall i :: 0 <= i < |pairs| ==> KeptBySaving(pairs[i])
    ensures AllStable(WithPairs(rules, at, pairs)) <==> AllStable(rules)
  {
    var more := WithPairs(rules, at, pairs);
    var all := rules[at].pairs + pairs;
    assert forall i :: 0 <= i < |rules[at].pairs| ==> all[i] == rules[at].pairs[i];
    assert Stable(more[at]) <==> Stable(rules[at]);
    assert forall i :: 0 <= i < |rules| && i != at ==> more[i] == rules[i];
  }

  /**
   * For a rule without rows, a second run is idle if and only if no matcher of the policy loses a tag and the two
   * texts of every fitting row stand in the debug form of a row that the first run added.
   */
  lemma {:induction false} RerunWithoutRows(
    job: Job, vault: map<string, string>, rules: seq<Rule>, at: nat, p: Progress)
    requires FirstRun(job, vault, rules, at, p) && RunOf(job, vault).1.Ok?
    requires rules[at].pairs == [] && !Mistagged(rules[at].credRef) && !Mistagged(rules[at].targetUri)
    requires forall i :: 0 <= i < |job.rows| ==> !Tagged(CredRef(job.scheme, job.rows[i]))
    ensures RerunIsIdle(job, vault) <==>
            && AllStable(rules)
            && forall i :: 0 <= i < |job.rows| && ContextOf(job, rules[at]).fits(job.rows[i]) ==>
                 Listed(job.escape, p.pairs, CredRef(job.scheme, job.rows[i]), TargetUri(job.rows[i]))
  {
    var c, more := ContextOf(job, rules[at]), WithPairs(rules, at, p.pairs);
    forall i | 0 <= i < |p.pairs| ensures KeptBySaving(p.pairs[i]) { NewPairsFaithful(c, vault, job.rows, i); }
    assert more[at].pairs == p.pairs;
    ReadFits(job.doc);
    PairsFit(rules, at, p.pairs);
    assert LimitsFit(more[at]);
    RuleKept(more[at]);
    SavedShape(more, at);
    StableWithPairs(rules, at, p.pairs);
    RerunIdleExactly(job, vault);
    var c1 := ContextOf(job, Read(Written(more))[at]);
    forall i | 0 <= i < |job.rows|
      ensures Settled(c1, p.vault, job.rows[i]) <==>
              (c.fits(job.rows[i]) ==>
                 Listed(job.escape, p.pairs, CredRef(job.scheme, job.rows[i]), TargetUri(job.rows[i])))
    {
      if c.fits(job.rows[i]) {
        EveryFitIsStored(c, vault, job.rows, i);
        PathsAreKeys(c, vault, job.rows);
      }
    }
  }

  // ---- Rows that pile up ----

  function Copies(p: Pair, n: nat): (ps: seq<Pair>)
    ensures |ps| == n && forall i :: 0 <= i < n ==> ps[i] == p
  {
    if n == 0 then [] else Copies(p, n - 1) + [p]
  }

  function OwnPair(scheme: string, row: Row): Pair {
    Pair(Parse(CredRef(scheme, row)), Parse(TargetUri(row)))
  }

  /** An import of one row that the vault takes. */
  ghost predicate OneRow(job: Job, row: Row) {
    && job.rows == [row] && !job.dryRun && !job.faults.unlistable && !TouchesCa(job)
    && !job.faults.refuses(EntryPath(job.scheme, row.name))
  }

  /** The named rule, which the row fits, has exactly `n` copies of the row's own pair. */
  ghost predicate Piled(job: Job, doc: Document, row: Row, at: nat, n: nat) {
    && Readable(doc) && RuleNamed(Read(doc), job.rule, 0) == Some(at)
    && var rule := Read(doc)[at];
    && rule.pairs == Copies(OwnPair(job.scheme, row), n) && ContextOf(job, rule).fits(row)
    && !Mistagged(rule.credRef) && !Mistagged(rule.targetUri)
  }

  /** The debug form of the row's own pair does not show the row. */
  predicate HidesItself(job: Job, row: Row) {
    !Mentions(job.escape, OwnPair(job.scheme, row), CredRef(job.scheme, row), TargetUri(row))
  }

  lemma {:induction false} CopiesMentionNothing(job: Job, row: Row, n: nat)
    requires HidesItself(job, row)
    ensures !Listed(job.escape, Copies(OwnPair(job.scheme, row), n), CredRef(job.scheme, row), TargetUri(row))
  {
    if n > 0 {
      CopiesMentionNothing(job, row, n - 1);
      assert Copies(OwnPair(job.scheme, row), n)[..n - 1] == Copies(OwnPair(job.scheme, row), n - 1);
    }
  }

  /** One row that is not mentioned is added, whatever the vault holds. */
  lemma {:induction false} OneRowTaken(c: Context, vault: map<string, string>, row: Row)
    requires c.fits(row) && !Known(c, [], row)
    ensures AllTaken(c, Begin(vault), [row]).pairs == [OwnPair(c.scheme, row)]
  {
    assert [row][..0] == [];
    assert AllTaken(c, Begin(vault), []) == Begin(vault);
  }

  lemma {:induction false} OneRowNotRefused(c: Context, faults: Faults, vault: map<string, string>, row: Row)
    requires !faults.refuses(EntryPath(c.scheme, row.name))
    ensures FirstRefused(c, faults, vault, [row], 0) == None
  {
    assert FirstRefused(c, faults, vault, [row], 1) == None;
  }

  /** Each run adds one more copy. */
  lemma {:induction false} PileGrows(job: Job, doc: Document, vault: map<string, string>, row: Row, at: nat, n: nat)
    requires OneRow(job, row) && Piled(job, doc, row, at, n) && HidesItself(job, row)
    requires !Tagged(CredRef(job.scheme, row))
    ensures var (_, r) := RunOf(job.(doc := doc), vault); r.Ok? && Piled(job, r.value.1, row, at, n + 1)
  {
    var next, rules := job.(doc := doc), Read(doc);
    var c, one := ContextOf(job, rules[at]), [OwnPair(job.scheme, row)];
    CopiesMentionNothing(job, row, n);
    OneRowTaken(c, vault, row);
    OneRowNotRefused(c, job.faults, vault, row);
    var more := WithPairs(rules, at, one);
    ReadFits(doc);
    PairsFit(rules, at, one);
    Reloaded(rules, at, more, job.rule);
    PileReloads(rules, at, row, job, n);
    assert TouchesCa(next) <==> TouchesCa(job);
    assert RunOf(next, vault) == RunRows(next, vault, rules, at);
    assert TakenBy(next, vault, rules, at).pairs == one;
    assert RunOf(next, vault).1.value.1 == Written(more);
  }

  lemma {:induction false} PileReloads(rules: seq<Rule>, at: nat, row: Row, job: Job, n: nat)
    requires at < |rules| && AllFit(rules) && !Tagged(CredRef(job.scheme, row))
    requires rules[at].pairs == Copies(OwnPair(job.scheme, row), n)
    requires !Mistagged(rules[at].credRef) && !Mistagged(rules[at].targetUri)
    ensures var more := WithPairs(rules, at, [OwnPair(job.scheme, row)]);
            && Readable(Written(more)) && at < |Read(Written(more))|
            && var back := Read(Written(more))[at];
            && back.credRef == rules[at].credRef && back.targetUri == rules[at].targetUri
            && back.pairs == Copies(OwnPair(job.scheme, row), n + 1)
  {
    var more := WithPairs(rules, at, [OwnPair(job.scheme, row)]);
    PairsFit(rules, at, [OwnPair(job.scheme, row)]);
    ParsedUntagged(CredRef(job.scheme, row));
    TargetUntagged(row);
    ParsedUntagged(TargetUri(row));
    assert more[at].pairs == Copies(OwnPair(job.scheme, row), n + 1);
    assert LimitsFit(more[at]);
    RuleKept(more[at]);
    SavedShape(more, at);
  }

  /** Vault and document as a run leaves them. */
  datatype Left = Left(vault: map<string, string>, doc: Document)

  /** A successful run, on what the last one left. */
  ghost predicate RunsOn(job: Job, was: Left, now: Left) {
    var (vault, r) := RunOf(job.(doc := was.doc), was.vault);
    now.vault == vault && r.Ok? && now.doc == r.value.1
  }

  /** A series of runs of one import, from what there was to what is left. */
  ghost predicate Series(job: Job, first: Left, later: seq<Left>) {
    if later == [] then true
    else
      var front := later[..|later| - 1];
      Series(job, first, front) && RunsOn(job, Last(first, front), later[|later| - 1])
  }

  function Last(first: Left, later: seq<Left>): Left {
    if later == [] then first else later[|later| - 1]
  }

  lemma {:induction false} RunPiles(job: Job, was: Left, now: Left, row: Row, at: nat, n: nat)
    requires OneRow(job, row) && Piled(job, was.doc, row, at, n) && HidesItself(job, row)
    requires !Tagged(CredRef(job.scheme, row)) && RunsOn(job, was, now)
    ensures Piled(job, now.doc, row, at, n + 1)
  {
    PileGrows(job, was.doc, was.vault, row, at, n);
  }

  /** A row that its own pair does not show is added again by every run: `n` runs leave `n` more copies of it. */
  lemma {:induction false} RowsPileUp(job: Job, first: Left, later: seq<Left>, row: Row, at: nat, had: nat)
    requires OneRow(job, row) && HidesItself(job, row) && !Tagged(CredRef(job.scheme, row))
    requires Series(job, first, later) && Piled(job, first.doc, row, at, had)
    ensures Piled(job, Last(first, later).doc, row, at, had + |later|)
    decreases |later|
  {
    if later != [] {
      var front := later[..|later| - 1];
      RowsPileUp(job, first, front, row, at, had);
      RunPiles(job, Last(first, front), later[|later| - 1], row, at, had + |front|);
    }
  }

  /** Such runs always succeed, so there is a series of every length. */
  lemma {:induction false} PilesForEver(job: Job, first: Left, row: Row, at: nat, had: nat, n: nat)
    returns (later: seq<Left>)
    requires OneRow(job, row) && HidesItself(job, row) && !Tagged(CredRef(job.scheme, row))
    requires Piled(job, first.doc, row, at, had)
    ensures |later| == n && Series(job, first, later) && Piled(job, Last(first, later).doc, row, at, had + n)
    decreases n
  {
    if n == 0 {
      later := [];
    } else {
      var front := PilesForEver(job, first, row, at, had, n - 1);
      var next := NextLeft(job, Last(first, front), row, at, had + n - 1);
      later := front + [next];
      assert later[..|later| - 1] == front;
    }
  }

  lemma {:induction false} NextLeft(job: Job, was: Left, row: Row, at: nat, had: nat) returns (now: Left)
    requires OneRow(job, row) && HidesItself(job, row) && !Tagged(CredRef(job.scheme, row))
    requires Piled(job, was.doc, row, at, had)
    ensures RunsOn(job, was, now) && Piled(job, now.doc, row, at, had + 1)
  {
    PileGrows(job, was.doc, was.vault, row, at, had);
    var (vault, r) := RunOf(job.(doc := was.doc), was.vault);
    now := Left(vault, r.value.1);
  }

  /** A name with a backslash inside does that, since the debug form doubles the backslash. */
  lemma {:induction false} BackslashHidesItself(job: Job, row: Row, before: string, after: string)
    requires CredRef(job.scheme, row) == before + "\\" + after && before != "" && after != ""
    requires '\\' !in before && '\\' !in after && !Tagged(CredRef(job.scheme, row))
    requires job.escape(before + "\\" + after) == before + "\\\\" + after
    ensures HidesItself(job, row)
  {
    var text := before + "\\" + after;
    var lead := if Glob.STAR in text then "Glob(\"" else "Exact(\"";
    var shown := DebugText(job.escape, Parse(text));
    assert shown == lead + (before + "\\\\" + after) + "\")";
    ContainsMeans(shown, text);
    forall k: int ensures !At(text, shown, k) { NotShown(before, after, lead, shown, k); }
  }

  lemma {:induction false} NotShown(before: string, after: string, lead: string, shown: string, k: int)
    requires before != "" && after != "" && '\\' !in before && '\\' !in after && '\\' !in lead
    requires shown == lead + (before + "\\\\" + after) + "\")"
    ensures !At(before + "\\" + after, shown, k)
  {
    var text, first, at := before + "\\" + after, |lead| + |before|, k + |before|;
    assert shown[first] == shown[first + 1] == '\\';
    if 0 <= k && k + |text| <= |shown| {
      if at == first {
        Differ(text, shown, k, |before| + 1);
      } else if at == first + 1 {
        Differ(text, shown, k, |before| - 1);
      } else {
        assert shown[at] != '\\';
        Differ(text, shown, k, |before|);
      }
    }
  }

  lemma Differ(part: string, whole: string, k: nat, i: nat)
    requires k + |part| <= |whole| && i < |part| && whole[k + i] != part[i]
    ensures !At(part, whole, k)
  {
    assert whole[k..k + |part|][i] == whole[k + i];
  }

  // ---- Plain rows ----

  lemma OpenRowMentionsNothing(scheme: string, row: Row)
    ensures !Contains("Any", CredRef(scheme, row)) && !Contains("Any", TargetUri(row))
  {
    var credRef := CredRef(scheme, row);
    assert |TargetUri(row)| > 3 && credRef[|scheme|] == '/';
    forall k: int ensures !At(credRef, "Any", k) && !At(TargetUri(row), "Any", k) {
      if 0 <= k && k + |credRef| <= 3 {
        assert "Any"[k..k + |credRef|][|scheme|] == "Any"[k + |scheme|] != '/';
      }
    }
  }

  /** Saving and loading keeps what the rows mention. */
  lemma {:induction false} ListedAfterSaving(escape: Escape, r: Rule, scheme: string, row: Row)
    requires Listed(escape, r.pairs, CredRef(scheme, row), TargetUri(row))
    ensures Listed(escape, NormalRule(r).pairs, CredRef(scheme, row), TargetUri(row))
    decreases |r.pairs|
  {
    var front := r.(pairs := r.pairs[..|r.pairs| - 1]);
    assert NormalRule(r).pairs[..|r.pairs| - 1] == NormalRule(front).pairs;
    if Mentions(escape, r.pairs[|r.pairs| - 1], CredRef(scheme, row), TargetUri(row)) {
      OpenRowMentionsNothing(scheme, row);
      assert NormalRule(r).pairs[|r.pairs| - 1] == r.pairs[|r.pairs| - 1];
    } else {
      ListedAfterSaving(escape, front, scheme, row);
    }
  }

  lemma {:induction false} PairsFaithful(job: Job, vault: map<string, string>, rules: seq<Rule>, at: nat, p: Progress)
    requires FirstRun(job, vault, rules, at, p) && AllFaithful(rules)
    requires forall i :: 0 <= i < |job.rows| ==> !Tagged(CredRef(job.scheme, job.rows[i]))
    ensures AllFaithful(WithPairs(rules, at, p.pairs))
  {
    var more := WithPairs(rules, at, p.pairs);
    forall i | 0 <= i < |rules| ensures Faithful(more[i]) {
      assert Faithful(rules[i]);
      if i == at {
        var all := rules[at].pairs + p.pairs;
        forall k | 0 <= k < |all| ensures !Mistagged(all[k].credRef) && !Mistagged(all[k].targetUri) {
          if k >= |rules[at].pairs| {
            NewPairsFaithful(ContextOf(job, rules[at]), vault, job.rows, k - |rules[at].pairs|);
          }
        }
      }
    }
  }

  /** Every row is settled by what the first run left behind. */
  lemma {:induction false} RowsSettled(
    job: Job, vault: map<string, string>, rules: seq<Rule>, at: nat, p: Progress, i: nat)
    requires FirstRun(job, vault, rules, at, p) && i < |job.rows| && Plain(job.escape, job.scheme, job.rows[i])
    ensures var rule := NormalRule(WithPairs(rules, at, p.pairs)[at]);
            Settled(ContextOf(job, rule), p.vault, job.rows[i])
  {
    var c := ContextOf(job, rules[at]);
    var rule := WithPairs(rules, at, p.pairs)[at];
    if c.fits(job.rows[i]) {
      EveryFitIsListed(c, vault, job.rows, i);
      EveryFitIsStored(c, vault, job.rows, i);
      PathsAreKeys(c, vault, job.rows);
      ListedAfterSaving(job.escape, rule, job.scheme, job.rows[i]);
    }
  }

  /** With plain rows and no mistagged matcher the second run is idle. */
  lemma {:induction false} RerunChangesNothing(job: Job, vault: map<string, string>)
    requires !job.dryRun && RunOf(job, vault).1.Ok?
    requires Readable(job.doc) ==> AllFaithful(Read(job.doc))
    requires forall i :: 0 <= i < |job.rows| ==> Plain(job.escape, job.scheme, job.rows[i])
    ensures RerunIsIdle(job, vault)
  {
    var rules, at := Read(job.doc), RuleNamed(Read(job.doc), job.rule, 0).value;
    var p := TakenBy(job, vault, rules, at);
    var more := WithPairs(rules, at, p.pairs);
    PairsFaithful(job, vault, rules, at, p);
    ReadFits(job.doc);
    PairsFit(rules, at, p.pairs);
    RoundTrip(more);
    FaithfulStays(more);
    forall i | 0 <= i < |job.rows| ensures Settled(ContextOf(job, Normal(more)[at]), p.vault, job.rows[i]) {
      RowsSettled(job, vault, rules, at, p, i);
    }
    RerunIdleExactly(job, vault);
  }
}

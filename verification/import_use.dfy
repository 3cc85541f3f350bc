/** An imported row put to use: where its reference leads, what is stored there, and what the saved rules say of it. */
module ImportUse {
  import opened Text
  import opened Matchers
  import opened Policy
  import opened PolicyDocument
  import opened Import
  import opened ImportLaws
  import opened ImportGrants
  import Codec

  // ---- Where a reference leads ----

  /** How a reference is routed: by what stands before the first mark to what stands after it, neither empty. */
  function Routed(reference: string): Option<(string, string)> {
    var at := FindFrom(reference, "://", 0);
    if at.None? || at.value == 0 || at.value + 3 == |reference| then None
    else Some((reference[..at.value], reference[at.value + 3..]))
  }

  lemma {:induction false} FirstMarkStays(scheme: string, more: string, k: nat)
    requires FindFrom(scheme, "://", 0) == Some(k)
    ensures FindFrom(scheme + more, "://", 0) == Some(k)
  {
    var text := scheme + more;
    assert text[k..k + 3] == scheme[k..k + 3];
    assert At("://", text, k);
    forall j: int | 0 <= j < k ensures !At("://", text, j) {
      assert text[j..j + 3] == scheme[j..j + 3];
      assert !At("://", scheme, j);
    }
  }

  /** A row's reference leads to the row's own entry exactly when its scheme has a mark, and not at its start. */
  lemma {:induction false} ReferenceFindsItsEntry(scheme: string, name: string)
    ensures (Routed(scheme + "/" + name).Some? && Routed(scheme + "/" + name).value.1 == EntryPath(scheme, name))
            <==> Occurs("://", scheme) && !("://" <= scheme)
  {
    var at := FindFrom(scheme, "://", 0);
    var reference := scheme + "/" + name;
    assert reference == scheme + ("/" + name);
    if at.Some? {
      FirstMarkStays(scheme, "/" + name, at.value);
      assert reference[at.value + 3..] == scheme[at.value + 3..] + "/" + name;
      assert at.value == 0 <==> "://" <= scheme by {
        if "://" <= scheme { assert At("://", scheme, 0); }
      }
    } else {
      assert EntryPath(scheme, name) == reference;
    }
  }

  // ---- What is stored there ----

  /** Row `i` is the first fitting row for its entry. */
  ghost predicate FirstForItsEntry(c: Context, rows: seq<Row>, i: nat) {
    && i < |rows| && c.fits(rows[i])
    && forall j :: 0 <= j < i && c.fits(rows[j]) ==>
         EntryPath(c.scheme, rows[j].name) != EntryPath(c.scheme, rows[i].name)
  }

  lemma {:induction false} FirstValueIsItsSecret(c: Context, rows: seq<Row>, i: nat)
    requires FirstForItsEntry(c, rows, i)
    ensures FirstValue(c, rows, EntryPath(c.scheme, rows[i].name))
            == Some(if rows[i].secret.Some? then rows[i].secret.value else "<chaperone:unset>")
    decreases |rows|
  {
    var front, path := rows[..|rows| - 1], EntryPath(c.scheme, rows[i].name);
    if i < |front| {
      assert FirstForItsEntry(c, front, i) by { assert forall j :: 0 <= j < i ==> front[j] == rows[j]; }
      FirstValueIsItsSecret(c, front, i);
    } else {
      NoValueYet(c, front, path);
    }
  }

  lemma {:induction false} NoValueYet(c: Context, rows: seq<Row>, path: string)
    requires forall j :: 0 <= j < |rows| && c.fits(rows[j]) ==> EntryPath(c.scheme, rows[j].name) != path
    ensures FirstValue(c, rows, path) == None
    decreases |rows|
  {
    if rows != [] {
      var front := rows[..|rows| - 1];
      assert forall j :: 0 <= j < |front| ==> front[j] == rows[j];
      NoValueYet(c, front, path);
    }
  }

  /** The first fitting row for a new entry has its own secret stored there, or the placeholder if it brings none. */
  lemma {:induction false} SecretIsStored(c: Context, start: map<string, string>, rows: seq<Row>, i: nat)
    requires !c.dryRun && FirstForItsEntry(c, rows, i) && EntryPath(c.scheme, rows[i].name) !in start
    ensures var vault, path := AllTaken(c, Begin(start), rows).vault, EntryPath(c.scheme, rows[i].name);
            && path in vault
            && vault[path] == if rows[i].secret.Some? then rows[i].secret.value else "<chaperone:unset>"
  {
    FirstRowWins(c, start, rows, EntryPath(c.scheme, rows[i].name));
    FirstValueIsItsSecret(c, rows, i);
  }

  /** The rule the job names, in the rules of its document. */
  ghost predicate Names(job: Job, rules: seq<Rule>, at: nat) {
    Readable(job.doc) && rules == Read(job.doc) && RuleNamed(rules, job.rule, 0) == Some(at)
  }

  lemma {:induction false} RunLeaves(job: Job, vault: map<string, string>, rules: seq<Rule>, at: nat)
    requires Names(job, rules, at) && !job.dryRun && RunOf(job, vault).1.Ok?
    ensures RunOf(job, vault).0 == TakenBy(job, vault, rules, at).vault
    ensures RunOf(job, vault).1.value.1 == Written(WithPairs(rules, at, TakenBy(job, vault, rules, at).pairs))
  {
  }

  /** After an import, the reference of such a row leads to that row's own secret. */
  lemma {:induction false} ReferenceFindsItsSecret(
    job: Job, vault: map<string, string>, rules: seq<Rule>, at: nat, i: nat)
    requires Names(job, rules, at) && !job.dryRun && RunOf(job, vault).1.Ok?
    requires Occurs("://", job.scheme) && !("://" <= job.scheme)
    requires FirstForItsEntry(ContextOf(job, rules[at]), job.rows, i)
    requires EntryPath(job.scheme, job.rows[i].name) !in vault
    ensures var after, entry := RunOf(job, vault).0, Routed(job.scheme + "/" + job.rows[i].name);
            && entry.Some? && entry.value.1 in after
            && after[entry.value.1]
               == if job.rows[i].secret.Some? then job.rows[i].secret.value else "<chaperone:unset>"
  {
    ReferenceFindsItsEntry(job.scheme, job.rows[i].name);
    RunLeaves(job, vault, rules, at);
    SecretIsStored(ContextOf(job, rules[at]), vault, job.rows, i);
  }

  // ---- What the saved rules say ----

  /** What an agent asks when it uses the row. */
  function UseOf(scheme: string, row: Row, agent: string, mechanism: string, declared: Option<Limits>): Request {
    Request(agent, scheme + "/" + row.name, "ssh://" + row.host + ":" + Codec.Decimal(row.port), mechanism, declared)
  }

  /** No matcher of the rule is mistagged, and no earlier rule covers the request. */
  ghost predicate ReachedUnchanged(rules: seq<Rule>, at: nat, more: seq<Pair>, req: Request) {
    && at < |rules| && AllFit(rules) && AllFaithful(WithPairs(rules, at, more))
    && forall i :: 0 <= i < at ==> !Covers(rules[i], req)
  }

  lemma {:induction false} DecidedAt(rules: seq<Rule>, at: nat, req: Request, d: Decision)
    requires at < |rules| && Decides(rules, req, d) && forall i :: 0 <= i < at ==> !Covers(rules[i], req)
    ensures d.source.ByRule? && d.source.index == at <==> Covers(rules[at], req)
    ensures d.source.ByRule? && d.source.index == at ==> d.effect == rules[at].effect
  {
  }

  lemma {:induction false} CoversByRows(c: Context, rule: Rule, more: seq<Pair>, row: Row, req: Request)
    requires req == UseOf(c.scheme, row, req.agentId, req.mechanism, req.declared) && rule.pairs + more != []
    ensures Covers(rule.(pairs := rule.pairs + more), req) <==>
            AxesMatch(rule, req) && Granted(c, rule.pairs + more, row)
  {
    GrantedMeans(c, rule.pairs + more, row, req);
  }

  /** Saved and loaded again, the rules decide the request by rule `at` exactly when it covers it. */
  lemma {:induction false} SavedRulesDecide(rules: seq<Rule>, at: nat, more: seq<Pair>, req: Request, d: Decision)
    requires ReachedUnchanged(rules, at, more, req) && Readable(Written(WithPairs(rules, at, more)))
    requires Decides(Read(Written(WithPairs(rules, at, more))), req, d)
    ensures d.source.ByRule? && d.source.index == at <==>
            Covers(rules[at].(pairs := rules[at].pairs + more), req)
    ensures d.source.ByRule? && d.source.index == at ==> d.effect == rules[at].effect
  {
    var all := WithPairs(rules, at, more);
    PairsFit(rules, at, more);
    SavingKeepsDecisions(all, req, d);
    assert forall i :: 0 <= i < at ==> all[i] == rules[i];
    DecidedAt(all, at, req, d);
  }

  /**
   * After an import, the document it leaves decides the use of a row by the rule it was imported into, with that
   * rule's effect, exactly when the rule's own axes take it and one of its rows, old or added, does.
   */
  lemma {:induction false} ImportedRowIsDecided(
    job: Job, vault: map<string, string>, rules: seq<Rule>, at: nat, row: Row, req: Request, d: Decision)
    requires Names(job, rules, at) && !job.dryRun && RunOf(job, vault).1.Ok?
    requires ReachedUnchanged(rules, at, TakenBy(job, vault, rules, at).pairs, req)
    requires rules[at].pairs + TakenBy(job, vault, rules, at).pairs != []
    requires req == UseOf(job.scheme, row, req.agentId, req.mechanism, req.declared)
    requires Readable(RunOf(job, vault).1.value.1) && Decides(Read(RunOf(job, vault).1.value.1), req, d)
    ensures d.source.ByRule? && d.source.index == at <==>
            && AxesMatch(rules[at], req)
            && Granted(ContextOf(job, rules[at]), rules[at].pairs + TakenBy(job, vault, rules, at).pairs, row)
    ensures d.source.ByRule? && d.source.index == at ==> d.effect == rules[at].effect
  {
    var more := TakenBy(job, vault, rules, at).pairs;
    RunLeaves(job, vault, rules, at);
    SavedRulesDecide(rules, at, more, req, d);
    CoversByRows(ContextOf(job, rules[at]), rules[at], more, row, req);
  }

  lemma {:induction false} GrantedMeans(c: Context, pairs: seq<Pair>, row: Row, req: Request)
    requires req == UseOf(c.scheme, row, req.agentId, req.mechanism, req.declared)
    ensures Granted(c, pairs, row) <==> exists i :: 0 <= i < |pairs| && PairMatches(pairs[i], req)
  {
    forall i | 0 <= i < |pairs| ensures AcceptsRow(c, pairs[i], row) <==> PairMatches(pairs[i], req) {
    }
    if i :| 0 <= i < |pairs| && PairMatches(pairs[i], req) { assert AcceptsRow(c, pairs[i], row); }
  }
}

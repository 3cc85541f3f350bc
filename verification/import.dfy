/** Bulk import: inventory rows become vault entries and pair rows of one named rule. */
module Import {
  import opened Text
  import opened Matchers
  import opened Policy
  import opened PolicyDocument
  import Codec

  datatype Row = Row(name: string, host: string, port: nat, secret: Option<string>)

  datatype Outcome =
    | Imported(path: string)
    | SkippedExists(path: string)
    | Incompatible(credRef: string, targetUri: string)

  datatype ImportError =
    | BadPolicy
    | NoSuchRule
    | CaNamespace
    | VaultList
    | VaultSet(path: string)
    | GeneratedPolicyInvalid

  const CA_NAMESPACE: string := "chaperone/ca/"
  const PLACEHOLDER: string := "<chaperone:unset>"
  const SCHEME_MARK: string := "://"

  /** How the debug form of a string escapes its characters. */
  type Escape = string -> string

  // ---- Helpers of the source ----

  predicate Contains(hay: string, needle: string) {
    FindFrom(hay, needle, 0).Some?
  }

  lemma ContainsMeans(hay: string, needle: string)
    ensures Contains(hay, needle) <==> Occurs(needle, hay)
  {
  }

  /** The vault path is what follows the scheme mark, or all of it when there is none. */
  function EntryPath(scheme: string, name: string): string {
    var at := FindFrom(scheme, SCHEME_MARK, 0);
    (if at.Some? then scheme[at.value + |SCHEME_MARK|..] else scheme) + "/" + name
  }

  function CredRef(scheme: string, row: Row): string {
    scheme + "/" + row.name
  }

  function TargetUri(row: Row): string {
    "ssh://" + row.host + ":" + Codec.Decimal(row.port)
  }

  function DebugText(escape: Escape, m: Matcher): string {
    match m
    case Any => "Any"
    case Exact(v) => "Exact(\"" + escape(v) + "\")"
    case Prefix(v) => "Prefix(\"" + escape(v) + "\")"
    case Globbed(v) => "Glob(\"" + escape(v) + "\")"
  }

  function SchemeOf(value: string): string {
    var at := FindFrom(value, SCHEME_MARK, 0);
    if at.Some? then value[..at.value] else value
  }

  predicate AxisCompatible(ruleText: string, value: string) {
    var scheme := SchemeOf(value);
    scheme == "" || Contains(ruleText, scheme) || ruleText == "*" || "glob:*" <= ruleText
  }

  function NewValue(row: Row): string {
    if row.secret.Some? then row.secret.value else PLACEHOLDER
  }

  // ---- One row ----

  /** What stays fixed through a run: the rule's axis test and rows, the scheme, and whether anything is written. */
  datatype Context = Context(
    fits: Row -> bool, escape: Escape, rows: seq<Pair>, scheme: string, dryRun: bool)

  /** `writes` lists the paths set, in order. */
  datatype Progress = Progress(
    vault: map<string, string>, paths: set<string>, outcomes: seq<Outcome>, pairs: seq<Pair>, writes: seq<string>)

  /** Both texts of a row agree with the rule's own axes. */
  function AxisTest(escape: Escape, credAxis: Matcher, targetAxis: Matcher, scheme: string): Row -> bool {
    row =>
      && AxisCompatible(DebugText(escape, credAxis), CredRef(scheme, row))
      && AxisCompatible(DebugText(escape, targetAxis), TargetUri(row))
  }

  predicate Mentions(escape: Escape, p: Pair, credRef: string, targetUri: string) {
    Contains(DebugText(escape, p.credRef), credRef) && Contains(DebugText(escape, p.targetUri), targetUri)
  }

  predicate AnyOf<T>(items: seq<T>, f: T -> bool) {
    items != [] && (f(items[|items| - 1]) || AnyOf(items[..|items| - 1], f))
  }

  function Mentioning(escape: Escape, credRef: string, targetUri: string): Pair -> bool {
    p => Mentions(escape, p, credRef, targetUri)
  }

  /** Some row mentions both texts. */
  predicate Listed(escape: Escape, pairs: seq<Pair>, credRef: string, targetUri: string) {
    AnyOf(pairs, Mentioning(escape, credRef, targetUri))
  }

  /** The row is mentioned by the rule's own rows or by one added earlier in the run. */
  predicate Known(c: Context, pairs: seq<Pair>, row: Row) {
    || Listed(c.escape, c.rows, CredRef(c.scheme, row), TargetUri(row))
    || Listed(c.escape, pairs, CredRef(c.scheme, row), TargetUri(row))
  }

  function Stored(c: Context, p: Progress, row: Row): Progress {
    var path := EntryPath(c.scheme, row.name);
    if path in p.paths then p.(outcomes := p.outcomes + [SkippedExists(path)])
    else p.(vault := if c.dryRun then p.vault else p.vault[path := NewValue(row)],
            writes := if c.dryRun then p.writes else p.writes + [path],
            paths := p.paths + {path}, outcomes := p.outcomes + [Imported(path)])
  }

  function Put(c: Context, p: Progress, row: Row, fits: bool, known: bool): Progress {
    var credRef, targetUri := CredRef(c.scheme, row), TargetUri(row);
    if !fits then p.(outcomes := p.outcomes + [Incompatible(credRef, targetUri)])
    else if known then Stored(c, p, row)
    else Stored(c, p, row).(pairs := p.pairs + [Pair(Parse(credRef), Parse(targetUri))])
  }

  function Taken(c: Context, p: Progress, row: Row): Progress {
    Put(c, p, row, c.fits(row), Known(c, p.pairs, row))
  }

  function AllTaken(c: Context, p: Progress, rows: seq<Row>): Progress {
    if rows == [] then p else Taken(c, AllTaken(c, p, rows[..|rows| - 1]), rows[|rows| - 1])
  }

  function Begin(vault: map<string, string>): Progress {
    Progress(vault, vault.Keys, [], [], [])
  }

  /** How the vault may fail: it cannot be listed, or it refuses to set a path. */
  datatype Faults = Faults(unlistable: bool, refuses: string -> bool)

  /** The row needs a new entry that the vault refuses. */
  predicate Refused(c: Context, faults: Faults, p: Progress, row: Row) {
    var path := EntryPath(c.scheme, row.name);
    c.fits(row) && !c.dryRun && path !in p.paths && faults.refuses(path)
  }

  /** The first row from `n` on at which the vault refuses; the run ends there. */
  function FirstRefused(
    c: Context, faults: Faults, vault: map<string, string>, rows: seq<Row>, n: nat): (r: Option<nat>)
    requires n <= |rows|
    ensures r.Some? ==> n <= r.value < |rows|
                        && Refused(c, faults, AllTaken(c, Begin(vault), rows[..r.value]), rows[r.value])
    decreases |rows| - n
  {
    if n == |rows| then None
    else if Refused(c, faults, AllTaken(c, Begin(vault), rows[..n]), rows[n]) then Some(n)
    else FirstRefused(c, faults, vault, rows, n + 1)
  }

  // ---- The run ----

  /** The first rule with the name. */
  function RuleNamed(rules: seq<Rule>, name: string, from: nat): (r: Option<nat>)
    requires from <= |rules|
    ensures r.Some? ==> from <= r.value < |rules| && rules[r.value].name == Some(name)
    ensures forall k :: from <= k < (if r.Some? then r.value else |rules|) ==> rules[k].name != Some(name)
    decreases |rules| - from
  {
    if from == |rules| then None
    else if rules[from].name == Some(name) then Some(from)
    else RuleNamed(rules, name, from + 1)
  }

  datatype Job = Job(
    escape: Escape, doc: Document, rule: string, scheme: string, dryRun: bool, rows: seq<Row>, faults: Faults)

  function ContextOf(job: Job, rule: Rule): Context {
    Context(AxisTest(job.escape, rule.credRef, rule.targetUri, job.scheme),
            job.escape, rule.pairs, job.scheme, job.dryRun)
  }

  predicate TouchesCa(job: Job) {
    exists i :: 0 <= i < |job.rows| && CA_NAMESPACE <= EntryPath(job.scheme, job.rows[i].name)
  }

  function WithPairs(rules: seq<Rule>, at: nat, more: seq<Pair>): seq<Rule>
    requires at < |rules|
  {
    rules[at := rules[at].(pairs := rules[at].pairs + more)]
  }

  type Report = Result<(seq<Outcome>, Document), ImportError>

  /** The rows taken by the named rule, once the checks before any write have passed. */
  ghost function TakenBy(job: Job, vault: map<string, string>, rules: seq<Rule>, at: nat): Progress
    requires at < |rules|
  {
    AllTaken(ContextOf(job, rules[at]), Begin(vault), job.rows)
  }

  /** The row at which the vault refuses, if it does. */
  ghost function StopsAt(job: Job, vault: map<string, string>, rules: seq<Rule>, at: nat): (stop: Option<nat>)
    requires at < |rules|
    ensures stop.Some? ==> stop.value < |job.rows|
  {
    FirstRefused(ContextOf(job, rules[at]), job.faults, vault, job.rows, 0)
  }

  /** From the vault's listing on, with the rule found. */
  ghost function RunRows(job: Job, vault: map<string, string>, rules: seq<Rule>, at: nat)
    : (map<string, string>, Report)
    requires at < |rules|
  {
    if job.faults.unlistable then (vault, Err(VaultList))
    else
      var stop := StopsAt(job, vault, rules, at);
      if stop.Some? then
        (AllTaken(ContextOf(job, rules[at]), Begin(vault), job.rows[..stop.value]).vault,
         Err(VaultSet(EntryPath(job.scheme, job.rows[stop.value].name))))
      else
        var p := TakenBy(job, vault, rules, at);
        if job.dryRun then (p.vault, Ok((p.outcomes, job.doc)))
        else
          var doc := Written(WithPairs(rules, at, p.pairs));
          (p.vault, if Readable(doc) then Ok((p.outcomes, doc)) else Err(GeneratedPolicyInvalid))
  }

  ghost function RunOf(job: Job, vault: map<string, string>): (map<string, string>, Report) {
    if !Readable(job.doc) then (vault, Err(BadPolicy))
    else
      var rules := Read(job.doc);
      var at := RuleNamed(rules, job.rule, 0);
      if at.None? then (vault, Err(NoSuchRule))
      else if TouchesCa(job) then (vault, Err(CaNamespace))
      else RunRows(job, vault, rules, at.value)
  }

  class Vault {
    var entries: map<string, string>

    constructor ()
      ensures entries == map[]
    {
      entries := map[];
    }

    /** Stores or overwrites. */
    method Set(path: string, value: string)
      modifies this
      ensures entries == old(entries)[path := value]
    {
      entries := entries[path := value];
    }
  }

  method AnyListed(escape: Escape, pairs: seq<Pair>, credRef: string, targetUri: string) returns (found: bool)
    ensures found == Listed(escape, pairs, credRef, targetUri)
  {
    found := false;
    for i := 0 to |pairs|
      invariant found == Listed(escape, pairs[..i], credRef, targetUri)
    {
      assert pairs[..i + 1][..i] == pairs[..i];
      found := found || Mentions(escape, pairs[i], credRef, targetUri);
    }
    assert pairs[..|pairs|] == pairs;
  }

  method AnyInCa(job: Job) returns (found: bool)
    ensures found == TouchesCa(job)
  {
    for i := 0 to |job.rows|
      invariant forall k :: 0 <= k < i ==> !(CA_NAMESPACE <= EntryPath(job.scheme, job.rows[k].name))
    {
      if CA_NAMESPACE <= EntryPath(job.scheme, job.rows[i].name) { return true; }
    }
    return false;
  }

  /** Vault entries first, then the pair row; both checked against what earlier rows did. */
  method TakeRows(c: Context, faults: Faults, rows: seq<Row>, vault: Vault)
    returns (outcomes: seq<Outcome>, pairs: seq<Pair>, refused: Option<string>, ghost done: Progress)
    modifies vault
    ensures var stop := FirstRefused(c, faults, old(vault.entries), rows, 0);
            if stop.Some? then
              && refused == Some(EntryPath(c.scheme, rows[stop.value].name))
              && done == AllTaken(c, Begin(old(vault.entries)), rows[..stop.value])
            else
              refused == None && done == AllTaken(c, Begin(old(vault.entries)), rows)
    ensures vault.entries == done.vault && outcomes == done.outcomes && pairs == done.pairs
  {
    refused := None;
    ghost var was := vault.entries;
    var paths := vault.entries.Keys;
    outcomes, pairs := [], [];
    done := Begin(vault.entries);
    for i := 0 to |rows|
      invariant done == AllTaken(c, Begin(was), rows[..i])
      invariant FirstRefused(c, faults, was, rows, i) == FirstRefused(c, faults, was, rows, 0)
      invariant vault.entries == done.vault && paths == done.paths
      invariant outcomes == done.outcomes && pairs == done.pairs
    {
      var row := rows[i];
      assert rows[..i + 1][..i] == rows[..i];
      var credRef, targetUri := CredRef(c.scheme, row), TargetUri(row);
      var fits := c.fits(row);
      if !fits {
        outcomes := outcomes + [Incompatible(credRef, targetUri)];
      } else {
        var path := EntryPath(c.scheme, row.name);
        if path in paths {
          outcomes := outcomes + [SkippedExists(path)];
        } else {
          if !c.dryRun {
            if faults.refuses(path) {
              refused := Some(path);
              return;
            }
            vault.Set(path, NewValue(row));
          }
          paths := paths + {path};
          outcomes := outcomes + [Imported(path)];
        }
        var old_ := AnyListed(c.escape, c.rows, credRef, targetUri);
        var new_ := AnyListed(c.escape, pairs, credRef, targetUri);
        if !old_ && !new_ {
          pairs := pairs + [Pair(Parse(credRef), Parse(targetUri))];
        }
      }
      done := Taken(c, done, row);
    }
    assert rows[..|rows|] == rows;
  }

  /** The canonical rewrite, validated as it will be read. */
  method Publish(rules: seq<Rule>, at: nat, pairs: seq<Pair>) returns (r: Result<Document, ImportError>)
    requires at < |rules|
    ensures var doc := Written(WithPairs(rules, at, pairs));
            r == if Readable(doc) then Ok(doc) else Err(GeneratedPolicyInvalid)
  {
    var updated := rules;
    if pairs != [] {
      updated := WithPairs(rules, at, pairs);
    } else {
      NoneAdded(rules, at);
    }
    var doc := ToToml(updated);
    var checked := FromToml(doc);
    if checked.Err? { return Err(GeneratedPolicyInvalid); }
    return Ok(doc);
  }

  lemma NoneAdded(rules: seq<Rule>, at: nat)
    requires at < |rules|
    ensures WithPairs(rules, at, []) == rules
  {
    assert rules[at].pairs + [] == rules[at].pairs;
  }

  method RunImport(job: Job, vault: Vault) returns (r: Report)
    modifies vault
    ensures (vault.entries, r) == RunOf(job, old(vault.entries))
  {
    var parsed := FromToml(job.doc);
    if parsed.Err? { return Err(BadPolicy); }
    var rules := parsed.value;
    var at := RuleNamed(rules, job.rule, 0);
    if at.None? { return Err(NoSuchRule); }
    var ca := AnyInCa(job);
    if ca { return Err(CaNamespace); }
    if job.faults.unlistable { return Err(VaultList); }
    var outcomes, pairs, refused, _ := TakeRows(ContextOf(job, rules[at.value]), job.faults, job.rows, vault);
    if refused.Some? { return Err(VaultSet(refused.value)); }
    if job.dryRun { return Ok((outcomes, job.doc)); }
    var doc := Publish(rules, at.value, pairs);
    if doc.Err? { return Err(doc.error); }
    return Ok((outcomes, doc.value));
  }
}

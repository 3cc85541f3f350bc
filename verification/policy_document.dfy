/**
 * The policy document and its two translations. Lexing and quoting are the TOML library's;
 * the document here is the tree it yields.
 */
module PolicyDocument {
  import opened Text
  import opened Matchers
  import opened Policy
  import Glob

  datatype PairDef = PairDef(credRef: string, targetUri: string)

  datatype LimitsDef = LimitsDef(maxResponseBytes: Option<int>, sessionTtl: Option<int>)

  datatype NotifyDef = NotifyDef(onUse: Option<bool>)

  datatype RuleDef = RuleDef(
    effect: string,
    name: Option<string>,
    agentId: Option<string>,
    credRef: Option<string>,
    targetUri: Option<string>,
    mechanism: Option<string>,
    pairs: seq<PairDef>,
    limits: Option<LimitsDef>,
    notify: Option<NotifyDef>)

  type Document = seq<RuleDef>

  datatype PolicyError = Schema

  /** TOML integers are signed 64-bit. */
  const MAX_TOML_INT: int := 0x7FFF_FFFF_FFFF_FFFF

  // ---- Effects ----

  function EffectText(e: Effect): string {
    match e
    case Allow => "allow"
    case NeedsConfirmation => "needs_confirmation"
    case Deny => "deny"
  }

  function ParseEffect(raw: string): Option<Effect> {
    if raw == "allow" then Some(Allow)
    else if raw == "deny" then Some(Deny)
    else if raw == "needs_confirmation" then Some(NeedsConfirmation)
    else None
  }

  lemma EffectRoundTrip(e: Effect)
    ensures ParseEffect(EffectText(e)) == Some(e)
  {
    assert "deny"[0] != "allow"[0] && "needs_confirmation"[0] != "allow"[0] && "needs_confirmation"[0] != "deny"[0];
  }

  // ---- Writing ----

  function PairText(m: Matcher): string {
    var s := Source(m);
    if s.None? then [Glob.STAR] else s.value
  }

  function WritePair(p: Pair): PairDef {
    PairDef(PairText(p.credRef), PairText(p.targetUri))
  }

  function WriteLimits(l: Limits): Option<LimitsDef> {
    if l.maxResponseBytes.None? && l.sessionTtl.None? then None
    else Some(LimitsDef(l.maxResponseBytes, l.sessionTtl))
  }

  function WriteRule(r: Rule): RuleDef {
    RuleDef(
      EffectText(r.effect), r.name,
      Source(r.agentId), Source(r.credRef), Source(r.targetUri), Source(r.mechanism),
      seq(|r.pairs|, i requires 0 <= i < |r.pairs| => WritePair(r.pairs[i])),
      WriteLimits(r.limits), Some(NotifyDef(Some(r.notifyOnUse))))
  }

  ghost function Written(rules: seq<Rule>): Document {
    seq(|rules|, i requires 0 <= i < |rules| => WriteRule(rules[i]))
  }

  /** The canonical writer. */
  method ToToml(rules: seq<Rule>) returns (doc: Document)
    ensures doc == Written(rules)
  {
    doc := [];
    for index := 0 to |rules|
      invariant doc == Written(rules)[..index]
    {
      var rule := rules[index];
      var rows := [];
      for p := 0 to |rule.pairs|
        invariant rows == WriteRule(rule).pairs[..p]
      {
        rows := rows + [WritePair(rule.pairs[p])];
      }
      var def := RuleDef(
        EffectText(rule.effect), rule.name,
        Source(rule.agentId), Source(rule.credRef), Source(rule.targetUri), Source(rule.mechanism),
        rows, WriteLimits(rule.limits), Some(NotifyDef(Some(rule.notifyOnUse))));
      assert rows == WriteRule(rule).pairs;
      assert Written(rules)[..index + 1] == Written(rules)[..index] + [WriteRule(rule)];
      doc := doc + [def];
    }
  }

  // ---- Reading ----

  predicate FitsToml(v: Option<int>) {
    v.Some? ==> 0 <= v.value <= MAX_TOML_INT
  }

  predicate WellFormed(def: RuleDef) {
    && ParseEffect(def.effect).Some?
    && (def.limits.Some? ==> FitsToml(def.limits.value.maxResponseBytes) && FitsToml(def.limits.value.sessionTtl))
  }

  function ReadAxis(raw: Option<string>): Matcher {
    if raw.None? then Any else Parse(raw.value)
  }

  function ReadPair(p: PairDef): Pair {
    Pair(Parse(p.credRef), Parse(p.targetUri))
  }

  function ReadNotify(n: Option<NotifyDef>): bool {
    if n.None? || n.value.onUse.None? then true else n.value.onUse.value
  }

  function ReadCeiling(v: Option<int>): Option<nat>
    requires FitsToml(v)
  {
    if v.None? then None else Some(v.value)
  }

  function ReadRule(def: RuleDef): Rule
    requires WellFormed(def)
  {
    Rule(
      def.name, ReadNotify(def.notify), ParseEffect(def.effect).value,
      ReadAxis(def.agentId), ReadAxis(def.credRef), ReadAxis(def.targetUri), ReadAxis(def.mechanism),
      seq(|def.pairs|, i requires 0 <= i < |def.pairs| => ReadPair(def.pairs[i])),
      if def.limits.None? then NO_LIMITS
      else Limits(ReadCeiling(def.limits.value.maxResponseBytes), ReadCeiling(def.limits.value.sessionTtl)))
  }

  ghost predicate Readable(doc: Document) {
    forall i :: 0 <= i < |doc| ==> WellFormed(doc[i])
  }

  ghost function Read(doc: Document): seq<Rule>
    requires Readable(doc)
  {
    seq(|doc|, i requires 0 <= i < |doc| => ReadRule(doc[i]))
  }

  /** The parser: the whole document or nothing. */
  method FromToml(doc: Document) returns (r: Result<seq<Rule>, PolicyError>)
    ensures r.Ok? <==> Readable(doc)
    ensures r.Ok? ==> r.value == Read(doc)
  {
    var rules: seq<Rule> := [];
    for i := 0 to |doc|
      invariant forall k :: 0 <= k < i ==> WellFormed(doc[k])
      invariant |rules| == i && forall k :: 0 <= k < i ==> rules[k] == ReadRule(doc[k])
    {
      var def := doc[i];
      if !WellFormed(def) {
        return Err(Schema);
      }
      var limits := NO_LIMITS;
      if def.limits.Some? {
        limits := Limits(ReadCeiling(def.limits.value.maxResponseBytes), ReadCeiling(def.limits.value.sessionTtl));
      }
      var rows := [];
      for p := 0 to |def.pairs|
        invariant rows == ReadRule(def).pairs[..p]
      {
        rows := rows + [ReadPair(def.pairs[p])];
      }
      var rule := Rule(
        def.name, ReadNotify(def.notify), ParseEffect(def.effect).value,
        ReadAxis(def.agentId), ReadAxis(def.credRef), ReadAxis(def.targetUri), ReadAxis(def.mechanism),
        rows, limits);
      assert rows == ReadRule(def).pairs;
      rules := rules + [rule];
    }
    assert rules == Read(doc);
    return Ok(rules);
  }

  // ---- The round trip ----

  predicate LimitsFit(r: Rule) {
    FitsToml(r.limits.maxResponseBytes) && FitsToml(r.limits.sessionTtl)
  }

  predicate Faithful(r: Rule) {
    && !Mistagged(r.agentId) && !Mistagged(r.credRef) && !Mistagged(r.targetUri) && !Mistagged(r.mechanism)
    && forall i :: 0 <= i < |r.pairs| ==> !Mistagged(r.pairs[i].credRef) && !Mistagged(r.pairs[i].targetUri)
  }

  /** A row axis that names nothing is written as the glob `*`. */
  function StarForAny(m: Matcher): Matcher {
    if m == Any then Globbed([Glob.STAR]) else m
  }

  function NormalRule(r: Rule): Rule {
    r.(pairs := seq(|r.pairs|, i requires 0 <= i < |r.pairs| =>
                      Pair(StarForAny(r.pairs[i].credRef), StarForAny(r.pairs[i].targetUri))))
  }

  lemma RowTextReadsBack(m: Matcher)
    ensures Parse(PairText(m)) == StarForAny(m) <==> !Mistagged(m)
  {
    if m != Any { ParseOfSource(m); }
  }

  lemma AxisTextReadsBack(m: Matcher)
    ensures ReadAxis(Source(m)) == m <==> !Mistagged(m)
  {
    if m != Any { ParseOfSource(m); }
  }

  lemma RowsReadBack(r: Rule)
    requires WellFormed(WriteRule(r))
    ensures ReadRule(WriteRule(r)).pairs == NormalRule(r).pairs <==>
            forall i :: 0 <= i < |r.pairs| ==> !Mistagged(r.pairs[i].credRef) && !Mistagged(r.pairs[i].targetUri)
  {
    var back, normal := ReadRule(WriteRule(r)).pairs, NormalRule(r).pairs;
    forall i | 0 <= i < |r.pairs|
      ensures back[i] == normal[i] <==> !Mistagged(r.pairs[i].credRef) && !Mistagged(r.pairs[i].targetUri)
    {
      RowTextReadsBack(r.pairs[i].credRef);
      RowTextReadsBack(r.pairs[i].targetUri);
    }
    assert back == normal <==> forall i :: 0 <= i < |r.pairs| ==> back[i] == normal[i];
  }

  /** The writer leaves out what says nothing: an axis that takes everything, and a table of no ceilings. */
  lemma LeftOutExactly(r: Rule)
    ensures var def := WriteRule(r);
            && (def.limits.None? <==> r.limits == NO_LIMITS)
            && (def.agentId.None? <==> r.agentId == Any) && (def.credRef.None? <==> r.credRef == Any)
            && (def.targetUri.None? <==> r.targetUri == Any) && (def.mechanism.None? <==> r.mechanism == Any)
            && |def.pairs| == |r.pairs| && def.name == r.name
  {
  }

  lemma RuleLoads(r: Rule)
    ensures WellFormed(WriteRule(r)) <==> LimitsFit(r)
  {
    EffectRoundTrip(r.effect);
  }

  /** Everything of a rule but its rows and its axes is read back as it was. */
  lemma RestReadsBack(r: Rule)
    requires LimitsFit(r) && WellFormed(WriteRule(r))
    ensures var back := ReadRule(WriteRule(r));
            back.(pairs := r.pairs, agentId := r.agentId, credRef := r.credRef, targetUri := r.targetUri,
                  mechanism := r.mechanism) == r
  {
    EffectRoundTrip(r.effect);
  }

  lemma AxesReadBack(r: Rule)
    requires LimitsFit(r) && WellFormed(WriteRule(r))
    ensures var back := ReadRule(WriteRule(r));
            && (back.agentId == r.agentId <==> !Mistagged(r.agentId))
            && (back.credRef == r.credRef <==> !Mistagged(r.credRef))
            && (back.targetUri == r.targetUri <==> !Mistagged(r.targetUri))
            && (back.mechanism == r.mechanism <==> !Mistagged(r.mechanism))
  {
    AxisTextReadsBack(r.agentId);
    AxisTextReadsBack(r.credRef);
    AxisTextReadsBack(r.targetUri);
    AxisTextReadsBack(r.mechanism);
  }

  lemma RuleReadsBack(r: Rule)
    ensures WellFormed(WriteRule(r)) <==> LimitsFit(r)
    ensures LimitsFit(r) ==> (ReadRule(WriteRule(r)) == NormalRule(r) <==> Faithful(r))
  {
    RuleLoads(r);
    if LimitsFit(r) {
      RestReadsBack(r);
      AxesReadBack(r);
      RowsReadBack(r);
    }
  }

  ghost predicate AllFit(rules: seq<Rule>) {
    forall i :: 0 <= i < |rules| ==> LimitsFit(rules[i])
  }

  ghost predicate AllFaithful(rules: seq<Rule>) {
    forall i :: 0 <= i < |rules| ==> Faithful(rules[i])
  }

  ghost function Normal(rules: seq<Rule>): seq<Rule> {
    seq(|rules|, i requires 0 <= i < |rules| => NormalRule(rules[i]))
  }

  /**
   * Written and read back: the document loads exactly when every ceiling fits a TOML integer, and
   * yields the same rules, rows of `Any` aside, exactly when no matcher is mistagged.
   */
  lemma RoundTrip(rules: seq<Rule>)
    ensures Readable(Written(rules)) <==> AllFit(rules)
    ensures AllFit(rules) ==> (Read(Written(rules)) == Normal(rules) <==> AllFaithful(rules))
  {
    forall i | 0 <= i < |rules|
      ensures WellFormed(Written(rules)[i]) <==> LimitsFit(rules[i])
      ensures LimitsFit(rules[i]) ==> (ReadRule(Written(rules)[i]) == Normal(rules)[i] <==> Faithful(rules[i]))
    {
      RuleReadsBack(rules[i]);
    }
    if AllFit(rules) {
      var back := Read(Written(rules));
      assert forall i :: 0 <= i < |rules| ==> back[i] == ReadRule(Written(rules)[i]);
      assert back == Normal(rules) <==> forall i :: 0 <= i < |rules| ==> back[i] == Normal(rules)[i];
    }
  }

  lemma NormalRuleCoversTheSame(r: Rule, req: Request, pair: Option<nat>)
    ensures Covers(NormalRule(r), req) <==> Covers(r, req)
    ensures BoundBy(NormalRule(r), req, pair) <==> BoundBy(r, req, pair)
  {
    var n := NormalRule(r);
    forall i | 0 <= i < |r.pairs|
      ensures PairMatches(n.pairs[i], req) <==> PairMatches(r.pairs[i], req)
    {
      StarAcceptsAll(req.credRef);
      StarAcceptsAll(req.targetUri);
    }
    assert |n.pairs| == |r.pairs|;
  }

  lemma NormalDecidesTheSame(rules: seq<Rule>, req: Request, d: Decision)
    ensures Decides(Normal(rules), req, d) <==> Decides(rules, req, d)
  {
    forall i | 0 <= i < |rules|
      ensures Covers(Normal(rules)[i], req) <==> Covers(rules[i], req)
    {
      NormalRuleCoversTheSame(rules[i], req, None);
    }
    if d.source.ByRule? && d.source.index < |rules| {
      NormalRuleCoversTheSame(rules[d.source.index], req, d.source.pair);
      assert Verdict(Normal(rules)[d.source.index], d.source.index, d.source.pair, req)
          == Verdict(rules[d.source.index], d.source.index, d.source.pair, req);
    }
  }

  /** Saving a ruleset never changes a decision: effect, rule, row, name, notification or ceilings. */
  lemma SavingKeepsDecisions(rules: seq<Rule>, req: Request, d: Decision)
    requires AllFit(rules) && AllFaithful(rules)
    ensures Readable(Written(rules))
    ensures Decides(Read(Written(rules)), req, d) <==> Decides(rules, req, d)
  {
    RoundTrip(rules);
    NormalDecidesTheSame(rules, req, d);
  }

  /** Any mistagged matcher can turn a saved allow into a deny or a deny into an allow. */
  lemma MistaggedAxisChangesDecisions(m: Matcher) returns (rules: seq<Rule>, req: Request, d: Decision)
    requires Mistagged(m)
    ensures AllFit(rules) && Readable(Written(rules))
    ensures Decides(rules, req, d) && !Decides(Read(Written(rules)), req, d)
  {
    var rule := Rule(None, true, Allow, m, Any, Any, Any, [], NO_LIMITS);
    rules := [rule];
    RoundTrip(rules);
    var t := MistaggedDiffers(m);
    req := Request(t, "", "", "", None);
    d := EveryRequestIsDecided(rules, req);
    var back := Read(Written(rules));
    assert back[0].agentId == Parse(Source(m).value);
    assert back[0].pairs == [];
    assert Covers(back[0], req) != Covers(rules[0], req);
  }

  /** No matcher of the rule loses a tag when it is saved. */
  predicate Stable(r: Rule) {
    && !LosesATag(r.agentId) && !LosesATag(r.credRef) && !LosesATag(r.targetUri) && !LosesATag(r.mechanism)
    && forall i :: 0 <= i < |r.pairs| ==> !LosesATag(r.pairs[i].credRef) && !LosesATag(r.pairs[i].targetUri)
  }

  ghost predicate AllStable(rules: seq<Rule>) {
    forall i :: 0 <= i < |rules| ==> Stable(rules[i])
  }

  lemma AxisWrittenTwice(m: Matcher)
    ensures Source(ReadAxis(Source(m))) == Source(m) <==> !LosesATag(m)
  {
    if m != Any { SourceTwice(m); }
  }

  lemma RowWrittenTwice(m: Matcher)
    ensures PairText(Parse(PairText(m))) == PairText(m) <==> !LosesATag(m)
  {
    if m == Any {
      assert !Tagged([Glob.STAR]);
    } else {
      SourceTwice(m);
    }
  }

  lemma RowsWrittenTwice(r: Rule)
    requires WellFormed(WriteRule(r))
    ensures WriteRule(ReadRule(WriteRule(r))).pairs == WriteRule(r).pairs <==>
            forall i :: 0 <= i < |r.pairs| ==> !LosesATag(r.pairs[i].credRef) && !LosesATag(r.pairs[i].targetUri)
  {
    var once, twice := WriteRule(r).pairs, WriteRule(ReadRule(WriteRule(r))).pairs;
    forall i | 0 <= i < |r.pairs|
      ensures twice[i] == once[i] <==> !LosesATag(r.pairs[i].credRef) && !LosesATag(r.pairs[i].targetUri)
    {
      RowWrittenTwice(r.pairs[i].credRef);
      RowWrittenTwice(r.pairs[i].targetUri);
    }
    assert twice == once <==> forall i :: 0 <= i < |r.pairs| ==> twice[i] == once[i];
  }

  lemma RuleWrittenTwice(r: Rule)
    requires LimitsFit(r)
    ensures WellFormed(WriteRule(r)) && (WriteRule(ReadRule(WriteRule(r))) == WriteRule(r) <==> Stable(r))
  {
    RuleLoads(r);
    EffectRoundTrip(r.effect);
    RowsWrittenTwice(r);
    AxisWrittenTwice(r.agentId);
    AxisWrittenTwice(r.credRef);
    AxisWrittenTwice(r.targetUri);
    AxisWrittenTwice(r.mechanism);
  }

  /** Saving twice writes the document that saving once wrote if and only if no matcher loses a tag. */
  lemma SavingIsIdempotent(rules: seq<Rule>)
    ensures AllFit(rules) ==>
              Readable(Written(rules)) && (Written(Read(Written(rules))) == Written(rules) <==> AllStable(rules))
  {
    if AllFit(rules) {
      RoundTrip(rules);
      var once, twice := Written(rules), Written(Read(Written(rules)));
      forall i | 0 <= i < |rules| ensures twice[i] == once[i] <==> Stable(rules[i]) {
        RuleWrittenTwice(rules[i]);
      }
      assert twice == once <==> forall i :: 0 <= i < |rules| ==> twice[i] == once[i];
    }
  }

  /** A ruleset without mistagged matchers is stable, and stays so. */
  lemma FaithfulStays(rules: seq<Rule>)
    requires AllFit(rules) && AllFaithful(rules)
    ensures AllStable(rules) && Readable(Written(rules))
    ensures AllFit(Read(Written(rules))) && AllFaithful(Read(Written(rules)))
  {
    RoundTrip(rules);
    assert !Tagged([Glob.STAR]);
    forall i | 0 <= i < |rules| ensures Stable(rules[i]) && Faithful(NormalRule(rules[i])) {
      assert Faithful(rules[i]);
    }
  }
}

/** What a policy document means, said of its own texts: which rule decides a request, and what it then says. */
module PolicyMeaning {
  import opened Text
  import opened Matchers
  import opened Policy
  import opened PolicyDocument
  import Glob

  /** The text of an axis or a row: by its tag, else as a pattern if it has a star, else as it stands. */
  ghost predicate TextTakes(raw: string, text: string) {
    if "glob:" <= raw then Glob.Denotes(raw[5..], text)
    else if "prefix:" <= raw then raw[7..] <= text
    else if "exact:" <= raw then raw[6..] == text
    else if '*' in raw then Glob.Denotes(raw, text)
    else raw == text
  }

  /** An axis that is left out takes everything. */
  ghost predicate AxisTakes(raw: Option<string>, text: string) {
    raw.Some? ==> TextTakes(raw.value, text)
  }

  ghost predicate RowTakes(row: PairDef, req: Request) {
    TextTakes(row.credRef, req.credRef) && TextTakes(row.targetUri, req.targetUri)
  }

  ghost predicate DefTakes(def: RuleDef, req: Request) {
    && AxisTakes(def.agentId, req.agentId) && AxisTakes(def.credRef, req.credRef)
    && AxisTakes(def.targetUri, req.targetUri) && AxisTakes(def.mechanism, req.mechanism)
    && (def.pairs == [] || exists p :: 0 <= p < |def.pairs| && RowTakes(def.pairs[p], req))
  }

  /** Entry `i` is the first that takes the request, by row `p`, its first that does, if it has rows. */
  ghost predicate FirstToTake(doc: Document, i: nat, p: Option<nat>, req: Request) {
    && i < |doc| && DefTakes(doc[i], req)
    && (forall j :: 0 <= j < i ==> !DefTakes(doc[j], req))
    && (p.None? <==> doc[i].pairs == [])
    && (p.Some? ==>
          && p.value < |doc[i].pairs| && RowTakes(doc[i].pairs[p.value], req)
          && forall q :: 0 <= q < p.value ==> !RowTakes(doc[i].pairs[q], req))
  }

  /** `n` is within what the entry writes and what the request declares. */
  ghost predicate WithinBoth(n: nat, written: Option<int>, declared: Option<nat>) {
    (written.Some? ==> n <= written.value) && (declared.Some? ==> n <= declared.value)
  }

  lemma TextTakesMeans(raw: string, text: string)
    ensures Accepts(Parse(raw), text) <==> TextTakes(raw, text)
  {
  }

  lemma RowTakesMeans(row: PairDef, req: Request)
    ensures PairMatches(ReadPair(row), req) <==> RowTakes(row, req)
  {
    TextTakesMeans(row.credRef, req.credRef);
    TextTakesMeans(row.targetUri, req.targetUri);
  }

  lemma AxesTakeMeans(def: RuleDef, req: Request)
    requires WellFormed(def)
    ensures AxesMatch(ReadRule(def), req) <==>
            && AxisTakes(def.agentId, req.agentId) && AxisTakes(def.credRef, req.credRef)
            && AxisTakes(def.targetUri, req.targetUri) && AxisTakes(def.mechanism, req.mechanism)
  {
    if def.agentId.Some? { TextTakesMeans(def.agentId.value, req.agentId); }
    if def.credRef.Some? { TextTakesMeans(def.credRef.value, req.credRef); }
    if def.targetUri.Some? { TextTakesMeans(def.targetUri.value, req.targetUri); }
    if def.mechanism.Some? { TextTakesMeans(def.mechanism.value, req.mechanism); }
  }

  lemma DefTakesMeans(def: RuleDef, req: Request)
    requires WellFormed(def)
    ensures Covers(ReadRule(def), req) <==> DefTakes(def, req)
    ensures forall p :: 0 <= p < |def.pairs| ==>
              (PairMatches(ReadRule(def).pairs[p], req) <==> RowTakes(def.pairs[p], req))
  {
    AxesTakeMeans(def, req);
    var rule := ReadRule(def);
    forall p | 0 <= p < |def.pairs|
      ensures PairMatches(rule.pairs[p], req) <==> RowTakes(def.pairs[p], req)
    {
      RowTakesMeans(def.pairs[p], req);
    }
    assert |rule.pairs| == |def.pairs|;
  }

  /** A document loads exactly when every effect is one of the three words and every ceiling fits. */
  lemma LoadsExactly(doc: Document)
    ensures Readable(doc) <==>
            forall i :: 0 <= i < |doc| ==>
              && doc[i].effect in {"allow", "deny", "needs_confirmation"}
              && (doc[i].limits.Some? ==>
                    && (doc[i].limits.value.maxResponseBytes.Some? ==>
                          0 <= doc[i].limits.value.maxResponseBytes.value < 0x8000_0000_0000_0000)
                    && (doc[i].limits.value.sessionTtl.Some? ==>
                          0 <= doc[i].limits.value.sessionTtl.value < 0x8000_0000_0000_0000))
  {
    if !Readable(doc) {
      var i :| 0 <= i < |doc| && !WellFormed(doc[i]);
      assert doc[i] == doc[i];
    }
  }

  /** The entry that decides is the first to take the request; without one the request is denied. */
  lemma {:induction false} DocumentDecides(doc: Document, req: Request, d: Decision)
    requires Readable(doc) && Decides(Read(doc), req, d)
    ensures d.source.DefaultDeny? <==> forall i :: 0 <= i < |doc| ==> !DefTakes(doc[i], req)
    ensures d.source.ByRule? ==> FirstToTake(doc, d.source.index, d.source.pair, req)
    ensures d.source.DefaultDeny? ==> d.effect == Deny && !d.notifyOnUse
  {
    forall i | 0 <= i < |doc|
      ensures Covers(Read(doc)[i], req) <==> DefTakes(doc[i], req)
      ensures forall p :: 0 <= p < |doc[i].pairs| ==>
                (PairMatches(Read(doc)[i].pairs[p], req) <==> RowTakes(doc[i].pairs[p], req))
    {
      DefTakesMeans(doc[i], req);
    }
    if d.source.ByRule? {
      assert |Read(doc)[d.source.index].pairs| == |doc[d.source.index].pairs|;
    }
  }

  /**
   * And the decision is what that entry writes: its effect word, its name, its ceilings together with the declared
   * ones; and it notifies unless the entry says `on_use = false`.
   */
  lemma {:induction false} DocumentSays(doc: Document, req: Request, d: Decision, n: nat)
    requires Readable(doc) && Decides(Read(doc), req, d) && d.source.ByRule?
    ensures d.source.index < |doc|
    ensures var def := doc[d.source.index];
            && (d.effect == Allow <==> def.effect == "allow") && (d.effect == Deny <==> def.effect == "deny")
            && (d.effect == NeedsConfirmation <==> def.effect == "needs_confirmation")
            && d.source.name == def.name
            && (d.notifyOnUse <==> !(def.notify.Some? && def.notify.value.onUse == Some(false)))
    ensures var limits, own := doc[d.source.index].limits, req.declared;
            && (Within(n, d.limits.maxResponseBytes) <==>
                  WithinBoth(n, if limits.Some? then limits.value.maxResponseBytes else None,
                             if own.Some? then own.value.maxResponseBytes else None))
            && (Within(n, d.limits.sessionTtl) <==>
                  WithinBoth(n, if limits.Some? then limits.value.sessionTtl else None,
                             if own.Some? then own.value.sessionTtl else None))
  {
    DecisionCarriesItsRule(Read(doc), req, d, n);
    assert WellFormed(doc[d.source.index]);
    assert "deny"[0] != "allow"[0] && "needs_confirmation"[0] != "allow"[0] && "needs_confirmation"[0] != "deny"[0];
  }
}

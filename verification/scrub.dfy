/** Scrubbing reflected credentials out of a response. Bytes are modelled as characters. */
module Scrub {
  import opened Text

  const MARKER: string := "[REDACTED-CREDENTIAL]"

  // ---- One pass ----

  /** Every leftmost occurrence of `form` replaced by `marker`. */
  function Pass(marker: string, form: string, data: string): string
    requires form != ""
  {
    if data == "" then ""
    else if form <= data then marker + Pass(marker, form, data[|form|..])
    else [data[0]] + Pass(marker, form, data[1..])
  }

  method PassOver(marker: string, form: string, data: string) returns (out: string)
    requires form != ""
    ensures out == Pass(marker, form, data)
  {
    out := "";
    var i := 0;
    assert data[0..] == data && "" + Pass(marker, form, data) == Pass(marker, form, data);
    while i < |data|
      invariant 0 <= i <= |data|
      invariant out + Pass(marker, form, data[i..]) == Pass(marker, form, data)
      decreases |data| - i
    {
      var rest := data[i..];
      if |data| - i >= |form| && data[i..i + |form|] == form {
        assert form <= rest && rest[|form|..] == data[i + |form|..];
        assert out + (marker + Pass(marker, form, rest[|form|..])) == out + marker + Pass(marker, form, rest[|form|..]);
        out := out + marker;
        i := i + |form|;
      } else {
        assert !(form <= rest);
        assert rest[1..] == data[i + 1..];
        assert out + ([data[i]] + Pass(marker, form, rest[1..])) == out + [data[i]] + Pass(marker, form, rest[1..]);
        out := out + [data[i]];
        i := i + 1;
      }
    }
    assert data[i..] == "" && out + "" == out;
  }

  /** What stands between the replaced occurrences. */
  function Pieces(form: string, data: string): (ps: seq<string>)
    requires form != ""
    ensures |ps| >= 1
  {
    if data == "" then [""]
    else if form <= data then [""] + Pieces(form, data[|form|..])
    else
      var rest := Pieces(form, data[1..]);
      [[data[0]] + rest[0]] + rest[1..]
  }

  lemma {:induction false} JoinHead(c: char, ps: seq<string>, sep: string)
    requires |ps| >= 1
    ensures Join([[c] + ps[0]] + ps[1..], sep) == [c] + Join(ps, sep)
  {
    var longer := [[c] + ps[0]] + ps[1..];
    assert longer[1..] == ps[1..];
    if |ps| > 1 {
      var rest := Join(ps[1..], sep);
      assert [c] + ps[0] + sep + rest == [c] + (ps[0] + sep + rest);
    }
  }

  lemma {:induction false} JoinEmptyHead(ps: seq<string>, sep: string)
    requires |ps| >= 1
    ensures Join([""] + ps, sep) == sep + Join(ps, sep)
  {
    assert ([""] + ps)[1..] == ps;
    assert "" + sep == sep;
  }

  lemma {:induction false} JoinPieces(sep: string, form: string, data: string)
    requires form != ""
    ensures Join(Pieces(form, data), sep) == Pass(sep, form, data)
    decreases |data|
  {
    if data == "" {
    } else if form <= data {
      var rest := Pieces(form, data[|form|..]);
      JoinPieces(sep, form, data[|form|..]);
      JoinEmptyHead(rest, sep);
    } else {
      JoinPieces(sep, form, data[1..]);
      JoinHead(data[0], Pieces(form, data[1..]), sep);
    }
  }

  lemma {:induction false} PassBySelf(form: string, data: string)
    requires form != ""
    ensures Pass(form, form, data) == data
    decreases |data|
  {
    if data == "" {
    } else if form <= data {
      PassBySelf(form, data[|form|..]);
      assert form + data[|form|..] == data;
    } else {
      PassBySelf(form, data[1..]);
      assert [data[0]] + data[1..] == data;
    }
  }

  /** A pass swaps the form for the marker and touches nothing else. */
  lemma PassKeepsTheRest(marker: string, form: string, data: string)
    requires form != ""
    ensures Join(Pieces(form, data), form) == data
    ensures Join(Pieces(form, data), marker) == Pass(marker, form, data)
  {
    JoinPieces(form, form, data);
    PassBySelf(form, data);
    JoinPieces(marker, form, data);
  }

  // ---- When a form and the marker cannot overlap ----

  /** `form` laid at offset `d` of `marker` agrees with it wherever both have a character. */
  ghost predicate Agree(form: string, marker: string, d: int) {
    forall i :: 0 <= i < |form| && 0 <= d + i < |marker| ==> form[i] == marker[d + i]
  }

  /** No placement of `form` touching `marker` agrees with it. */
  ghost predicate Apart(form: string, marker: string) {
    forall d: int :: -|form| < d < |marker| ==> !Agree(form, marker, d)
  }

  predicate BracketFree(form: string) {
    '[' !in form && ']' !in form
  }

  predicate Bracketed(marker: string) {
    |marker| >= 2 && marker[0] == '[' && marker[|marker| - 1] == ']'
  }

  /** Bracket-free forms that the marker does not contain are apart from it. */
  lemma BracketFreeIsApart(form: string, marker: string)
    requires form != "" && BracketFree(form) && Bracketed(marker)
    ensures Apart(form, marker) <==> !Occurs(form, marker)
  {
    forall d: int | -|form| < d < |marker| && Agree(form, marker, d)
      ensures At(form, marker, d)
    {
      var i := if d < 0 then -d else 0;
      var j := if d + |form| > |marker| then |marker| - 1 - d else 0;
      assert form[i] in form && form[j] in form;
      assert 0 <= d && d + |form| <= |marker|;
      assert forall i :: 0 <= i < |form| ==> form[i] == marker[d + i];
    }
    if Occurs(form, marker) {
      var d :| At(form, marker, d);
      assert forall i :: 0 <= i < |form| ==> form[i] == marker[d..d + |form|][i];
      assert Agree(form, marker, d);
    }
  }

  // ---- A pass brings nothing back ----

  lemma AtAfter(lead: string, rest: string, g: string, p: int)
    requires At(g, lead + rest, p) && p >= |lead|
    ensures At(g, rest, p - |lead|)
  {
    assert rest[p - |lead|..p - |lead| + |g|] == (lead + rest)[p..p + |g|];
  }

  lemma EndAgrees(g: string, k: nat, marker: string, rest: string)
    requires k <= |g| && g[k..] <= marker + rest
    ensures Agree(g, marker, 0 - k)
  {
    forall i | 0 <= i < |g| && 0 <= i - k < |marker| ensures g[i] == marker[i - k] {
      assert g[k..][i - k] == (marker + rest)[i - k];
    }
  }

  lemma StartAgrees(g: string, p: int, marker: string, rest: string)
    requires At(g, marker + rest, p)
    ensures Agree(g, marker, p)
  {
    forall i | 0 <= i < |g| && 0 <= p + i < |marker| ensures g[i] == marker[p + i] {
      assert (marker + rest)[p..p + |g|][i] == (marker + rest)[p + i];
    }
  }

  /** The end of a form at the start of a pass's output was already at the start of its input. */
  lemma {:induction false} CopiedPrefix(marker: string, form: string, g: string, k: nat, data: string)
    requires form != "" && Apart(g, marker) && 1 <= k <= |g| && marker != ""
    requires g[k..] <= Pass(marker, form, data)
    ensures g[k..] <= data
    decreases |data|
  {
    if k < |g| && data != "" {
      var out := Pass(marker, form, data);
      if form <= data {
        EndAgrees(g, k, marker, Pass(marker, form, data[|form|..]));
      } else {
        assert g[k] == g[k..][0] == data[0];
        assert g[k..][1..] == g[k + 1..] && out[1..] == Pass(marker, form, data[1..]);
        CopiedPrefix(marker, form, g, k + 1, data[1..]);
        assert g[k..] == [data[0]] + g[k + 1..];
      }
    }
  }

  /** A pass for `form` leaves no `form`, and no other form that was not there before. */
  lemma {:induction false} NothingComesBack(marker: string, form: string, g: string, data: string)
    requires form != "" && g != "" && marker != "" && Apart(g, marker)
    requires Occurs(g, Pass(marker, form, data))
    ensures Occurs(g, data) && g != form
    decreases |data|
  {
    var out := Pass(marker, form, data);
    var p :| At(g, out, p);
    if data != "" {
      if form <= data {
        var rest := Pass(marker, form, data[|form|..]);
        if p < |marker| {
          StartAgrees(g, p, marker, rest);
        } else {
          AtAfter(marker, rest, g, p);
          NothingComesBack(marker, form, g, data[|form|..]);
          OccursInPart(g, data[|form|..], data, |form|);
        }
      } else {
        var rest := Pass(marker, form, data[1..]);
        if p == 0 {
          assert g[0] == out[0] == data[0];
          assert g[1..] <= rest by { assert out[..|g|] == g; assert out[1..] == rest; }
          CopiedPrefix(marker, form, g, 1, data[1..]);
          assert g == [data[0]] + g[1..] && data == [data[0]] + data[1..];
          assert g <= data && At(g, data, 0);
        } else {
          AtAfter([data[0]], rest, g, p);
          NothingComesBack(marker, form, g, data[1..]);
          OccursInPart(g, data[1..], data, 1);
        }
      }
    }
  }

  /** A pass for a form that is not there changes nothing. */
  lemma {:induction false} PassWithoutForm(marker: string, form: string, data: string)
    requires form != "" && !Occurs(form, data)
    ensures Pass(marker, form, data) == data
    decreases |data|
  {
    if data != "" {
      assert !(form <= data) by { if form <= data { assert At(form, data, 0); } }
      if Occurs(form, data[1..]) { OccursInPart(form, data[1..], data, 1); }
      PassWithoutForm(marker, form, data[1..]);
    }
  }

  /** A pass for a form that is there leaves a marker. */
  lemma {:induction false} PassWithForm(marker: string, form: string, data: string)
    requires form != "" && Occurs(form, data)
    ensures Occurs(marker, Pass(marker, form, data))
    decreases |data|
  {
    var p :| At(form, data, p);
    var out := Pass(marker, form, data);
    if form <= data {
      assert At(marker, out, 0);
    } else {
      assert p > 0;
      assert data == [data[0]] + data[1..];
      AtAfter([data[0]], data[1..], form, p);
      PassWithForm(marker, form, data[1..]);
      OccursInPart(marker, Pass(marker, form, data[1..]), out, 1);
    }
  }

  // ---- All passes ----

  ghost predicate NonEmpty(forms: seq<string>) {
    forall i :: 0 <= i < |forms| ==> forms[i] != ""
  }

  /** The passes, one form after another. */
  function Passes(marker: string, forms: seq<string>, data: string): string
    requires NonEmpty(forms)
  {
    if forms == [] then data else Passes(marker, forms[1..], Pass(marker, forms[0], data))
  }

  function Insert(f: string, sorted: seq<string>): seq<string> {
    if sorted == [] || |sorted[0]| <= |f| then [f] + sorted else [sorted[0]] + Insert(f, sorted[1..])
  }

  /** Empty forms dropped, the rest longest first, equal lengths in their old order. */
  function LongestFirst(forms: seq<string>): seq<string> {
    if forms == [] then []
    else if forms[0] == "" then LongestFirst(forms[1..])
    else Insert(forms[0], LongestFirst(forms[1..]))
  }

  function Scrubbed(marker: string, forms: seq<string>, data: string): string
  {
    LongestFirstForms(forms);
    Passes(marker, LongestFirst(forms), data)
  }

  ghost predicate Descending(forms: seq<string>) {
    forall i, j :: 0 <= i < j < |forms| ==> |forms[i]| >= |forms[j]|
  }

  lemma {:induction false} InsertForms(f: string, sorted: seq<string>)
    requires Descending(sorted)
    ensures Descending(Insert(f, sorted))
    ensures forall g :: g in Insert(f, sorted) <==> g == f || g in sorted
    decreases |sorted|
  {
    if sorted != [] && |sorted[0]| > |f| {
      InsertForms(f, sorted[1..]);
      var rest := Insert(f, sorted[1..]);
      assert forall g :: g in sorted <==> g == sorted[0] || g in sorted[1..];
      forall k | 0 <= k < |rest| ensures |rest[k]| <= |sorted[0]| {
        assert rest[k] in rest;
        if rest[k] != f {
          var m :| 0 <= m < |sorted[1..]| && sorted[1..][m] == rest[k];
          assert sorted[m + 1] == rest[k];
        }
      }
    }
  }

  /** The sort keeps exactly the non-empty forms, longest first. */
  lemma {:induction false} LongestFirstForms(forms: seq<string>)
    ensures Descending(LongestFirst(forms)) && NonEmpty(LongestFirst(forms))
    ensures forall f :: f in LongestFirst(forms) <==> f in forms && f != ""
    decreases |forms|
  {
    if forms != [] {
      LongestFirstForms(forms[1..]);
      assert forall f :: f in forms <==> f == forms[0] || f in forms[1..];
      if forms[0] != "" {
        InsertForms(forms[0], LongestFirst(forms[1..]));
      }
      var all := LongestFirst(forms);
      assert forall i :: 0 <= i < |all| ==> all[i] in all;
    }
  }

  method RunPasses(marker: string, forms: seq<string>, data: string) returns (out: string)
    requires NonEmpty(forms)
    ensures out == Passes(marker, forms, data)
  {
    out := data;
    for i := 0 to |forms|
      invariant Passes(marker, forms[i..], out) == Passes(marker, forms, data)
    {
      assert forms[i..][0] == forms[i] && forms[i..][1..] == forms[i + 1..];
      out := PassOver(marker, forms[i], out);
    }
  }

  /** Replaces every occurrence of any form in `data`. */
  method ScrubBytes(forms: seq<string>, data: string) returns (out: string)
    ensures out == Scrubbed(MARKER, forms, data)
    ensures forall f :: f in forms && f != "" && Apart(f, MARKER) ==> !Occurs(f, out)
    ensures (forall f :: f in forms && f != "" ==> !Occurs(f, data)) ==> out == data
  {
    LongestFirstForms(forms);
    ScrubGuarantees(MARKER, forms, data);
    out := RunPasses(MARKER, LongestFirst(forms), data);
  }

  /** Header names stay; every value is scrubbed. */
  method ScrubHeaderPairs(forms: seq<string>, pairs: seq<(string, string)>) returns (out: seq<(string, string)>)
    ensures |out| == |pairs|
    ensures forall i :: 0 <= i < |pairs| ==> out[i] == (pairs[i].0, Scrubbed(MARKER, forms, pairs[i].1))
  {
    out := [];
    for i := 0 to |pairs|
      invariant |out| == i
      invariant forall k :: 0 <= k < i ==> out[k] == (pairs[k].0, Scrubbed(MARKER, forms, pairs[k].1))
    {
      var value := ScrubBytes(forms, pairs[i].1);
      out := out + [(pairs[i].0, value)];
    }
  }

  // ---- The guarantees ----

  /** A form absent before the passes, or treated by one of them, is absent after them. */
  lemma {:induction false} PassesRemove(marker: string, forms: seq<string>, g: string, data: string)
    requires NonEmpty(forms)
    requires g != "" && marker != "" && Apart(g, marker)
    requires g in forms || !Occurs(g, data)
    ensures !Occurs(g, Passes(marker, forms, data))
    decreases |forms|
  {
    if forms != [] {
      var next := Pass(marker, forms[0], data);
      if Occurs(g, next) {
        NothingComesBack(marker, forms[0], g, data);
        assert g in forms[1..];
      }
      PassesRemove(marker, forms[1..], g, next);
    }
  }

  /** After scrubbing, no form that cannot overlap the marker occurs anywhere. */
  lemma NoFormSurvives(marker: string, forms: seq<string>, data: string, f: string)
    requires marker != "" && f in forms && f != "" && Apart(f, marker)
    ensures !Occurs(f, Scrubbed(marker, forms, data))
  {
    LongestFirstForms(forms);
    PassesRemove(marker, LongestFirst(forms), f, data);
  }

  lemma {:induction false} MarkerRemains(marker: string, forms: seq<string>, data: string)
    requires NonEmpty(forms)
    requires Occurs(marker, data) || exists f :: f in forms && Occurs(f, data)
    ensures Occurs(marker, Passes(marker, forms, data))
    decreases |forms|
  {
    if forms != [] {
      var next := Pass(marker, forms[0], data);
      if Occurs(forms[0], data) {
        PassWithForm(marker, forms[0], data);
      } else {
        PassWithoutForm(marker, forms[0], data);
        if f :| f in forms && Occurs(f, data) {
          assert f in forms[1..];
        }
      }
      MarkerRemains(marker, forms[1..], next);
    }
  }

  /**
   * For bracket-free forms the scrubber removes every form from every response exactly when the marker
   * contains none of them.
   */
  lemma ScrubIsCleanExactly(marker: string, forms: seq<string>)
    requires Bracketed(marker) && forall f :: f in forms ==> BracketFree(f)
    ensures (forall data: string, f: string :: f in forms && f != "" ==> !Occurs(f, Scrubbed(marker, forms, data)))
       <==> (forall f :: f in forms && f != "" ==> !Occurs(f, marker))
  {
    forall f | f in forms && f != ""
      ensures !Occurs(f, marker) ==> forall data: string :: !Occurs(f, Scrubbed(marker, forms, data))
      ensures Occurs(f, marker) ==> Occurs(f, Scrubbed(marker, forms, f))
    {
      BracketFreeIsApart(f, marker);
      if !Occurs(f, marker) {
        forall data: string ensures !Occurs(f, Scrubbed(marker, forms, data)) {
          NoFormSurvives(marker, forms, data, f);
        }
      } else {
        LongestFirstForms(forms);
        assert At(f, f, 0);
        MarkerRemains(marker, LongestFirst(forms), f);
        var out := Scrubbed(marker, forms, f);
        var p :| At(marker, out, p);
        OccursInPart(f, marker, out, p);
      }
    }
  }

  lemma {:induction false} PassesWithoutForms(marker: string, forms: seq<string>, data: string)
    requires NonEmpty(forms) && forall f :: f in forms ==> !Occurs(f, data)
    ensures Passes(marker, forms, data) == data
    decreases |forms|
  {
    if forms != [] {
      PassWithoutForm(marker, forms[0], data);
      PassesWithoutForms(marker, forms[1..], data);
    }
  }

  /** A response that reflects nothing is relayed untouched. */
  lemma CleanDataUnchanged(marker: string, forms: seq<string>, data: string)
    requires forall f :: f in forms && f != "" ==> !Occurs(f, data)
    ensures Scrubbed(marker, forms, data) == data
  {
    LongestFirstForms(forms);
    PassesWithoutForms(marker, LongestFirst(forms), data);
  }

  lemma ScrubGuarantees(marker: string, forms: seq<string>, data: string)
    requires marker != ""
    ensures forall f :: f in forms && f != "" && Apart(f, marker) ==> !Occurs(f, Scrubbed(marker, forms, data))
    ensures (forall f :: f in forms && f != "" ==> !Occurs(f, data)) ==> Scrubbed(marker, forms, data) == data
  {
    forall f | f in forms && f != "" && Apart(f, marker) ensures !Occurs(f, Scrubbed(marker, forms, data)) {
      NoFormSurvives(marker, forms, data, f);
    }
    if forall f :: f in forms && f != "" ==> !Occurs(f, data) {
      CleanDataUnchanged(marker, forms, data);
    }
  }

  lemma LongerOccursOnlyAsItself(g: string, f: string)
    requires |g| >= |f| && Occurs(g, f)
    ensures g == f
  {
    var p :| At(g, f, p);
    assert f[p..p + |g|] == f;
  }

  lemma {:induction false} WholeFormVanishes(marker: string, forms: seq<string>, f: string)
    requires NonEmpty(forms) && forall g :: g in forms ==> !Occurs(g, marker)
    requires Descending(forms) && f in forms
    ensures Passes(marker, forms, f) == marker
    decreases |forms|
  {
    var g := forms[0];
    if g == f {
      assert Pass(marker, f, f) == marker + Pass(marker, f, f[|f|..]);
      assert f[|f|..] == "" && marker + "" == marker;
      PassesWithoutForms(marker, forms[1..], marker);
    } else {
      assert f in forms[1..];
      var k :| 0 <= k < |forms[1..]| && forms[1..][k] == f;
      assert forms[k + 1] == f && |g| >= |f|;
      if Occurs(g, f) { LongerOccursOnlyAsItself(g, f); }
      PassWithoutForm(marker, g, f);
      WholeFormVanishes(marker, forms[1..], f);
    }
  }

  /** Longest first: a reflected form becomes one marker whole, with no fragment of it left beside. */
  lemma ReflectedFormIsOneMarker(marker: string, forms: seq<string>, f: string)
    requires forall g :: g in forms && g != "" ==> !Occurs(g, marker)
    requires f in forms && f != ""
    ensures Scrubbed(marker, forms, f) == marker
  {
    LongestFirstForms(forms);
    WholeFormVanishes(marker, LongestFirst(forms), f);
  }

  // ---- The body ceiling ----

  datatype BodyError = TransportFailed | ResponseTooLarge(limit: nat)

  /** A response body arriving in chunks; `None` is a failed read. */
  function Received(chunks: seq<Option<string>>): string
    requires forall i :: 0 <= i < |chunks| ==> chunks[i].Some?
  {
    if chunks == [] then "" else Received(chunks[..|chunks| - 1]) + chunks[|chunks| - 1].value
  }

  ghost predicate AllRead(chunks: seq<Option<string>>) {
    forall i :: 0 <= i < |chunks| ==> chunks[i].Some?
  }

  lemma {:induction false} ReceivedGrows(chunks: seq<Option<string>>, k: nat)
    requires AllRead(chunks) && k <= |chunks|
    ensures |Received(chunks[..k])| <= |Received(chunks)|
    decreases |chunks|
  {
    if k < |chunks| {
      ReceivedGrows(chunks[..|chunks| - 1], k);
      assert chunks[..|chunks| - 1][..k] == chunks[..k];
    } else {
      assert chunks[..k] == chunks;
    }
  }

  /** The whole body within the cap, or an error: never a silent truncation. */
  method ReadBodyCapped(chunks: seq<Option<string>>, cap: nat) returns (r: Result<string, BodyError>)
    ensures r.Ok? <==> AllRead(chunks) && |Received(chunks)| <= cap
    ensures r.Ok? ==> r.value == Received(chunks)
    ensures AllRead(chunks) && |Received(chunks)| > cap ==> r == Err(ResponseTooLarge(cap))
  {
    var body := "";
    for i := 0 to |chunks|
      invariant AllRead(chunks[..i])
      invariant body == Received(chunks[..i]) && |body| <= cap
    {
      if chunks[i].None? {
        return Err(TransportFailed);
      }
      assert chunks[..i + 1][..i] == chunks[..i];
      if |body| + |chunks[i].value| > cap {
        if AllRead(chunks) { ReceivedGrows(chunks, i + 1); }
        return Err(ResponseTooLarge(cap));
      }
      body := body + chunks[i].value;
    }
    assert chunks[..|chunks|] == chunks;
    return Ok(body);
  }
}

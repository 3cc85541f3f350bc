/** How long a scrubbed body is: the ceiling on a response is applied before scrubbing, and a marker takes room too. */
module ScrubLength {
  import opened Text
  import opened Scrub

  /** How many occurrences one pass replaces. */
  function Hits(form: string, data: string): nat
    requires form != ""
  {
    if data == "" then 0
    else if form <= data then 1 + Hits(form, data[|form|..])
    else Hits(form, data[1..])
  }

  /** `h` times `d`, by addition. */
  function Times(h: nat, d: int): int {
    if h == 0 then 0 else Times(h - 1, d) + d
  }

  lemma {:induction false} TimesMeans(h: nat, d: int)
    ensures Times(h, d) == h * d
    ensures (d >= 0 ==> Times(h, d) >= 0) && (d <= 0 ==> Times(h, d) <= 0) && (h > 0 && d > 0 ==> Times(h, d) > 0)
  {
    if h > 0 {
      TimesMeans(h - 1, d);
      assert h * d == (h - 1) * d + d;
    }
  }

  /** Each replacement changes the length by the difference of marker and form. */
  lemma {:induction false} PassLength(marker: string, form: string, data: string)
    requires form != ""
    ensures |Pass(marker, form, data)| == |data| + Times(Hits(form, data), |marker| - |form|)
    ensures Hits(form, data) > 0 <==> Occurs(form, data)
    decreases |data|
  {
    if data == "" {
    } else if form <= data {
      PassLength(marker, form, data[|form|..]);
      assert At(form, data, 0);
    } else {
      PassLength(marker, form, data[1..]);
      OccursLater(form, data);
    }
  }

  lemma OccursLater(form: string, data: string)
    requires data != "" && !(form <= data)
    ensures Occurs(form, data) <==> Occurs(form, data[1..])
  {
    if p :| At(form, data, p) {
      assert p > 0;
      AtAfter([data[0]], data[1..], form, p);
      assert data == [data[0]] + data[1..];
      assert At(form, data[1..], p - 1);
    }
    if Occurs(form, data[1..]) { OccursInPart(form, data[1..], data, 1); }
  }

  /** A pass for a form no longer than the marker never shortens; for one that occurs and is shorter it lengthens. */
  lemma {:induction false} ShortFormGrows(marker: string, form: string, data: string)
    requires form != "" && |form| < |marker|
    ensures |Pass(marker, form, data)| >= |data| && (Occurs(form, data) ==> |Pass(marker, form, data)| > |data|)
  {
    PassLength(marker, form, data);
    TimesMeans(Hits(form, data), |marker| - |form|);
  }

  lemma {:induction false} LongFormShrinks(marker: string, form: string, data: string)
    requires form != "" && |form| >= |marker|
    ensures |Pass(marker, form, data)| <= |data|
  {
    PassLength(marker, form, data);
    TimesMeans(Hits(form, data), |marker| - |form|);
  }

  // ---- When the cap survives ----

  /** A form is harmless if it is at least as long as the marker, or longer than any response may be. */
  predicate Harmless(marker: string, f: string, cap: nat) {
    f == "" || |f| >= |marker| || |f| > cap
  }

  lemma {:induction false} PassesKeepCap(marker: string, forms: seq<string>, data: string, cap: nat)
    requires NonEmpty(forms) && |data| <= cap && forall f :: f in forms ==> Harmless(marker, f, cap)
    ensures |Passes(marker, forms, data)| <= cap
    decreases |forms|
  {
    if forms != [] {
      var f := forms[0];
      assert Harmless(marker, f, cap);
      if |f| >= |marker| {
        LongFormShrinks(marker, f, data);
      } else {
        PassWithoutForm(marker, f, data);
      }
      PassesKeepCap(marker, forms[1..], Pass(marker, f, data), cap);
    }
  }

  lemma {:induction false} ShortFormsNeverShrink(marker: string, forms: seq<string>, data: string)
    requires NonEmpty(forms) && forall f :: f in forms ==> |f| < |marker|
    ensures |Passes(marker, forms, data)| >= |data|
    decreases |forms|
  {
    if forms != [] {
      ShortFormGrows(marker, forms[0], data);
      ShortFormsNeverShrink(marker, forms[1..], Pass(marker, forms[0], data));
    }
  }

  /** A response with a short form and no long one comes out longer. */
  lemma {:induction false} PassesGrow(marker: string, forms: seq<string>, data: string, f: string)
    requires NonEmpty(forms) && Descending(forms) && f in forms && |f| < |marker| && Occurs(f, data)
    requires forall g :: g in forms && |g| >= |marker| ==> !Occurs(g, data)
    ensures |Passes(marker, forms, data)| > |data|
    decreases |forms|
  {
    var g, rest := forms[0], forms[1..];
    assert forms == [g] + rest;
    assert g in forms;
    if Occurs(g, data) {
      ShortFormGrows(marker, g, data);
      forall x | x in rest ensures |x| < |marker| {
        var i :| 0 <= i < |rest| && rest[i] == x;
        assert forms[i + 1] == x && |forms[0]| >= |forms[i + 1]|;
      }
      ShortFormsNeverShrink(marker, rest, Pass(marker, g, data));
    } else {
      PassWithoutForm(marker, g, data);
      PassesGrow(marker, rest, data, f);
    }
  }

  function Filler(c: char, n: nat): (s: string)
    ensures |s| == n && forall i :: 0 <= i < n ==> s[i] == c
  {
    if n == 0 then "" else Filler(c, n - 1) + [c]
  }

  /** A longer text without the filler's character does not occur in a form that is filled up. */
  lemma NoLongForm(f: string, c: char, n: nat, g: string)
    requires |g| > |f| && c !in g
    ensures !Occurs(g, f + Filler(c, n))
  {
    var data := f + Filler(c, n);
    forall p: int ensures !At(g, data, p) {
      if 0 <= p && p + |g| <= |data| {
        var i := if p < |f| then |f| - p else 0;
        assert data[p..p + |g|][i] == data[p + i] == c;
      }
    }
  }

  /**
   * Provided some character occurs in no form: every response within the cap is within it after scrubbing if and only
   * if every form is at least as long as the marker or longer than the cap.
   */
  lemma {:induction false} CapSurvivesExactly(marker: string, forms: seq<string>, cap: nat, c: char)
    requires forall f :: f in forms ==> c !in f
    ensures (forall data: string :: |data| <= cap ==> |Scrubbed(marker, forms, data)| <= cap) <==>
            forall f :: f in forms ==> Harmless(marker, f, cap)
  {
    LongestFirstForms(forms);
    if forall f :: f in forms ==> Harmless(marker, f, cap) {
      forall data: string | |data| <= cap ensures |Scrubbed(marker, forms, data)| <= cap {
        PassesKeepCap(marker, LongestFirst(forms), data, cap);
      }
    } else {
      var f :| f in forms && !Harmless(marker, f, cap);
      var data := f + Filler(c, cap - |f|);
      assert At(f, data, 0);
      forall g | g in LongestFirst(forms) && |g| >= |marker| ensures !Occurs(g, data) {
        NoLongForm(f, c, cap - |f|, g);
      }
      PassesGrow(marker, LongestFirst(forms), data, f);
      assert |data| <= cap && |Scrubbed(marker, forms, data)| > cap;
    }
  }
}

/** How a length line is spelled: the header's name in any case, padded or not, and a decimal number, padded or not. */
module LengthLine {
  import opened Text
  import opened JournalText
  import opened Codec

  // ---- Padding ----

  /** The text between two runs of whitespace, itself neither starting nor ending with any. */
  predicate Padded(s: string, before: string, text: string, after: string) {
    && s == before + text + after && Blank(before) && Blank(after)
    && (text != "" ==> !Whitespace(text[0]) && !Whitespace(text[|text| - 1]))
  }

  lemma {:induction false} TrimStartCuts(s: string) returns (before: string)
    ensures s == before + TrimStart(s) && Blank(before)
    ensures TrimStart(s) != "" ==> !Whitespace(TrimStart(s)[0])
    decreases |s|
  {
    if s != "" && Whitespace(s[0]) {
      var rest := TrimStartCuts(s[1..]);
      before := [s[0]] + rest;
      assert s == [s[0]] + s[1..];
    } else {
      before := "";
      assert "" + s == s;
    }
  }

  lemma {:induction false} TrimEndCuts(s: string) returns (after: string)
    ensures s == TrimEnd(s) + after && Blank(after)
    ensures TrimEnd(s) != "" ==> !Whitespace(TrimEnd(s)[|TrimEnd(s)| - 1])
    decreases |s|
  {
    if s != "" && Whitespace(s[|s| - 1]) {
      var rest := TrimEndCuts(s[..|s| - 1]);
      after := rest + [s[|s| - 1]];
      assert s == s[..|s| - 1] + [s[|s| - 1]];
    } else {
      after := "";
      assert s + "" == s;
    }
  }

  lemma {:induction false} TrimCuts(s: string) returns (before: string, after: string)
    ensures Padded(s, before, Trim(s), after)
  {
    before := TrimStartCuts(s);
    after := TrimEndCuts(TrimStart(s));
    var middle, text := TrimStart(s), Trim(s);
    assert middle == text + after;
    assert text != "" ==> text[0] == middle[0];
    assert before + (text + after) == before + text + after;
  }

  lemma {:induction false} TrimStartOf(before: string, s: string)
    requires Blank(before) && (s != "" ==> !Whitespace(s[0]))
    ensures TrimStart(before + s) == s
    decreases |before|
  {
    if before != "" {
      assert (before + s)[1..] == before[1..] + s;
      TrimStartOf(before[1..], s);
    } else {
      assert before + s == s;
    }
  }

  lemma {:induction false} TrimEndOf(s: string, after: string)
    requires Blank(after) && (s != "" ==> !Whitespace(s[|s| - 1]))
    ensures TrimEnd(s + after) == s
    decreases |after|
  {
    if after != "" {
      assert (s + after)[..|s + after| - 1] == s + after[..|after| - 1];
      TrimEndOf(s, after[..|after| - 1]);
    } else {
      assert s + after == s;
    }
  }

  /** Everything is whitespace: nothing is left. */
  lemma {:induction false} TrimBlank(s: string)
    requires Blank(s)
    ensures Trim(s) == ""
  {
    assert s + "" == s;
    TrimStartOf(s, "");
  }

  /** Trimming gives exactly the text between the padding. */
  lemma {:induction false} TrimOf(s: string, before: string, text: string, after: string)
    requires Padded(s, before, text, after)
    ensures Trim(s) == text
  {
    if text == "" {
      TrimBlank(s);
    } else {
      assert s == before + (text + after);
      TrimStartOf(before, text + after);
      TrimEndOf(text, after);
    }
  }

  // ---- Names ----

  /** The same character, or the same letter in the other ASCII case. */
  predicate SameLetter(a: char, b: char) {
    || a == b
    || ('A' <= a <= 'Z' && b as int == a as int + 32)
    || ('A' <= b <= 'Z' && a as int == b as int + 32)
  }

  predicate SameLetters(s: string, t: string) {
    |s| == |t| && forall i :: 0 <= i < |s| ==> SameLetter(s[i], t[i])
  }

  lemma IgnoresCase(s: string, t: string)
    ensures EqIgnoreAsciiCase(s, t) <==> SameLetters(s, t)
  {
    if |s| == |t| {
      forall i | 0 <= i < |s| ensures LowerAscii(s[i]) == LowerAscii(t[i]) <==> SameLetter(s[i], t[i]) {
      }
    }
  }

  ghost predicate IsLengthName(name: string) {
    exists before: string, core: string, after: string ::
      Padded(name, before, core, after) && SameLetters(core, "content-length")
  }

  // ---- Numbers ----

  /** At least one digit, perhaps after a plus sign, worth `n`, which fits 64 bits. */
  predicate Spells(s: string, digits: string, n: nat) {
    && (s == digits || s == "+" + digits) && digits != "" && AllDigits(digits)
    && DecimalValue(digits) == n < 0x1_0000_0000_0000_0000
  }

  lemma {:induction false} ParsesExactly(s: string, n: nat)
    ensures ParseU64(s) == Some(n) <==> exists digits: string :: Spells(s, digits, n)
  {
    var own := if s != "" && s[0] == '+' then s[1..] else s;
    assert s != "" && s[0] == '+' ==> s == "+" + own;
    if ParseU64(s) == Some(n) { assert Spells(s, own, n); }
    if digits: string :| Spells(s, digits, n) {
      assert IsDigit(digits[0]);
      assert s == "+" + digits ==> s[1..] == digits;
    }
  }

  ghost predicate SaysNumber(value: string, n: nat) {
    exists before: string, core: string, after: string, digits: string ::
      Padded(value, before, core, after) && Spells(core, digits, n)
  }

  // ---- The line ----

  /** The name and the value of a line stand around its first colon. */
  lemma {:induction false} FirstColon(name: string, value: string)
    requires ':' !in name
    ensures var line := name + ":" + value; ':' in line && NameOf(line) == name && ValueOf(line) == value
  {
    var line := name + ":" + value;
    var rest := Split(value, ':');
    var parts := [name] + rest;
    assert parts[1..] == rest;
    assert Join(parts, [':']) == line;
    SplitOfJoin(parts, ':');
    assert line[|name|] == ':';
    assert line[|name| + 1..] == value;
  }

  lemma {:induction false} ColonSplits(line: string)
    requires ':' in line
    ensures line == NameOf(line) + ":" + ValueOf(line) && ':' !in NameOf(line)
  {
    var parts := Split(line, ':');
    assert Join(parts, [':']) == line;
    assert |parts| > 1;
    assert line == parts[0] + [':'] + Join(parts[1..], [':']);
  }

  lemma {:induction false} NameExactly(name: string)
    ensures EqIgnoreAsciiCase(Trim(name), "content-length") <==> IsLengthName(name)
  {
    IgnoresCase(Trim(name), "content-length");
    var before, after := TrimCuts(name);
    if IsLengthName(name) {
      var b: string, core: string, a: string :| Padded(name, b, core, a) && SameLetters(core, "content-length");
      TrimOf(name, b, core, a);
    }
  }

  lemma {:induction false} ValueExactly(value: string, n: nat)
    ensures ParseU64(Trim(value)) == Some(n) <==> SaysNumber(value, n)
  {
    ParsesExactly(Trim(value), n);
    var before, after := TrimCuts(value);
    if ParseU64(Trim(value)) == Some(n) {
      var digits: string :| Spells(Trim(value), digits, n);
      assert Padded(value, before, Trim(value), after);
    }
    if SaysNumber(value, n) {
      var b: string, core: string, a: string, digits: string :| Padded(value, b, core, a) && Spells(core, digits, n);
      TrimOf(value, b, core, a);
      assert Spells(Trim(value), digits, n);
    }
  }

  /**
   * A line declares the length `n` exactly when it is a name, a colon and a value, the name without a colon and,
   * between whitespace, `content-length` in any case, the value a 64-bit decimal between whitespace.
   */
  lemma {:induction false} LengthLineExactly(line: string, n: nat)
    ensures (IsLength(line) && ParseU64(Trim(ValueOf(line))) == Some(n)) <==>
            exists name: string, value: string {:trigger name + ":" + value} ::
              line == name + ":" + value && ':' !in name && IsLengthName(name) && SaysNumber(value, n)
  {
    if ':' in line {
      ColonSplits(line);
      NameExactly(NameOf(line));
      ValueExactly(ValueOf(line), n);
      var name, value := NameOf(line), ValueOf(line);
      assert line == name + ":" + value;
    }
    forall name: string, value: string
      | line == name + ":" + value && ':' !in name && IsLengthName(name) && SaysNumber(value, n)
      ensures IsLength(line) && ParseU64(Trim(ValueOf(line))) == Some(n)
    {
      FirstColon(name, value);
      NameExactly(name);
      ValueExactly(value, n);
    }
  }
}

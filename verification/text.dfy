/** Sequence searching and splitting, as the standard string functions the gateway calls. */
module Text {

  datatype Option<+T> = None | Some(value: T)

  datatype Result<+T, +E> = Ok(value: T) | Err(error: E)

  /** `needle` stands in `hay` starting at index `at`. */
  predicate At<T(==)>(needle: seq<T>, hay: seq<T>, at: int) {
    0 <= at && at + |needle| <= |hay| && hay[at..at + |needle|] == needle
  }

  /** `needle` is a contiguous subsequence of `hay`. */
  ghost predicate Occurs<T(!new)>(needle: seq<T>, hay: seq<T>) {
    exists at: int :: At(needle, hay, at)
  }

  predicate EndsWith<T(==)>(hay: seq<T>, needle: seq<T>) {
    |needle| <= |hay| && hay[|hay| - |needle|..] == needle
  }

  /** Leftmost index of `needle` in `hay` at or after `from` (the `find` of a string slice). */
  function FindFrom<T(==)>(hay: seq<T>, needle: seq<T>, from: nat): (r: Option<nat>)
    requires from <= |hay|
    ensures r.Some? ==> from <= r.value && At(needle, hay, r.value)
    ensures r.Some? ==> forall k: int {:trigger At(needle, hay, k)} :: from <= k < r.value ==> !At(needle, hay, k)
    ensures r.None? ==> forall k: int {:trigger At(needle, hay, k)} :: from <= k ==> !At(needle, hay, k)
    decreases |hay| - from
  {
    if At(needle, hay, from) then Some(from)
    else if from == |hay| then None
    else FindFrom(hay, needle, from + 1)
  }

  /** The pieces between separators; always at least one piece. */
  function Split<T(==)>(s: seq<T>, sep: T): (parts: seq<seq<T>>)
    ensures |parts| >= 1
    ensures forall i :: 0 <= i < |parts| ==> sep !in parts[i]
    ensures Join(parts, [sep]) == s
    ensures sep !in s ==> parts == [s]
  {
    if s == [] then [[]]
    else
      var rest := Split(s[1..], sep);
      if s[0] == sep then
        [[]] + rest
      else
        [[s[0]] + rest[0]] + rest[1..]
  }

  /** Pieces laid end to end with `sep` between neighbours. */
  function Join<T>(parts: seq<seq<T>>, sep: seq<T>): seq<T>
    requires |parts| >= 1
  {
    if |parts| == 1 then parts[0] else parts[0] + sep + Join(parts[1..], sep)
  }

  /** Splitting undoes joining when no piece holds the separator. */
  lemma {:induction false} SplitOfJoin<T>(parts: seq<seq<T>>, sep: T)
    requires |parts| >= 1
    requires forall i :: 0 <= i < |parts| ==> sep !in parts[i]
    ensures Split(Join(parts, [sep]), sep) == parts
    decreases |parts|, |parts[0]|
  {
    var s := Join(parts, [sep]);
    if parts[0] == [] {
      if |parts| > 1 {
        assert s[1..] == Join(parts[1..], [sep]);
        SplitOfJoin(parts[1..], sep);
        assert parts == [[]] + parts[1..];
      } else {
        assert s == [];
      }
    } else {
      var less := [parts[0][1..]] + parts[1..];
      assert forall i :: 1 <= i < |less| ==> less[i] == parts[i];
      assert less[1..] == parts[1..];
      assert s[0] == parts[0][0] && s[1..] == Join(less, [sep]);
      SplitOfJoin(less, sep);
      assert [s[0]] + less[0] == parts[0];
      assert parts == [[s[0]] + less[0]] + less[1..];
    }
  }

  /** Text after a join lengthens its last piece. */
  lemma {:induction false} JoinLengthensLast<T>(front: seq<seq<T>>, last: seq<T>, more: seq<T>, sep: seq<T>)
    ensures Join(front + [last], sep) + more == Join(front + [last + more], sep)
    decreases |front|
  {
    if front != [] {
      assert (front + [last])[1..] == front[1..] + [last];
      assert (front + [last + more])[1..] == front[1..] + [last + more];
      JoinLengthensLast(front[1..], last, more, sep);
      var rest := Join(front[1..] + [last], sep);
      assert front[0] + sep + rest + more == front[0] + sep + (rest + more);
    }
  }

  /** A separator and text after a join is one more piece. */
  lemma {:induction false} JoinAddsPiece<T>(parts: seq<seq<T>>, more: seq<T>, sep: seq<T>)
    requires |parts| >= 1
    ensures Join(parts, sep) + sep + more == Join(parts + [more], sep)
    decreases |parts|
  {
    assert (parts + [more])[1..] == parts[1..] + [more];
    if |parts| > 1 {
      JoinAddsPiece(parts[1..], more, sep);
      var rest := Join(parts[1..], sep);
      assert parts[0] + sep + rest + sep + more == parts[0] + sep + (rest + sep + more);
    } else {
      assert parts[1..] + [more] == [more];
    }
  }

  /** An occurrence inside a part is an occurrence in the whole. */
  lemma {:induction false} OccursInPart<T(!new)>(needle: seq<T>, part: seq<T>, whole: seq<T>, lo: nat)
    requires lo + |part| <= |whole| && whole[lo..lo + |part|] == part
    requires Occurs(needle, part)
    ensures Occurs(needle, whole)
  {
    var at :| At(needle, part, at);
    assert forall k :: 0 <= k < |part| ==> part[k] == whole[lo + k];
    assert whole[lo + at..lo + at + |needle|] == part[at..at + |needle|];
    assert At(needle, whole, lo + at);
  }
}

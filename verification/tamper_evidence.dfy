/**
 * Tamper evidence, as a reduction: an accepted journal is a prefix of a chain the key holder wrote,
 * or the journal itself exhibits a digest collision or a signature forgery.
 */
module TamperEvidence {
  import opened Text
  import opened JournalText
  import opened AuditChain
  import opened AuditWriter
  import Hex

  /** What the digest is taken over for record `k` of a chain. */
  function Preimage(c: Crypto, bodies: seq<Body>, k: nat): seq<int>
    requires k < |bodies|
  {
    ChainHash(c, bodies[..k]) + Codes(c.canon(Obj(Hashed(bodies[k]))))
  }

  /** Two records, one of each chain, with different preimages and the same digest. */
  ghost predicate Collides(c: Crypto, a: seq<Body>, b: seq<Body>) {
    exists i: nat, j: nat ::
      i < |a| && j < |b| && Preimage(c, a, i) != Preimage(c, b, j)
      && c.digest(Preimage(c, a, i)) == c.digest(Preimage(c, b, j))
  }

  /** The hash was signed: it ends some prefix of some chain the key holder wrote. */
  ghost predicate Signed(c: Crypto, chains: set<seq<Body>>, h: seq<Byte>) {
    exists ch: seq<Body>, k: nat :: ch in chains && 1 <= k <= |ch| && h == ChainHash(c, ch[..k])
  }

  /** The last record's own signature verifies over the chain's hash, which the key holder never signed. */
  ghost predicate Forges(c: Crypto, chains: set<seq<Body>>, bodies: seq<Body>, sigs: seq<string>) {
    && bodies != [] && |sigs| == |bodies|
    && c.verify(ChainHash(c, bodies), sigs[|sigs| - 1])
    && !Signed(c, chains, ChainHash(c, bodies))
  }

  // ---- Equal hashes mean equal chains ----

  lemma CodesInjective(s: string, t: string)
    requires Codes(s) == Codes(t)
    ensures s == t
  {
    assert |s| == |Codes(s)| == |Codes(t)| == |t|;
    forall i | 0 <= i < |s| ensures s[i] == t[i] {
      assert Codes(s)[i] == Codes(t)[i];
    }
  }

  lemma CanonInjective(c: Crypto, a: Body, b: Body)
    requires Laws(c) && c.canon(Obj(a)) == c.canon(Obj(b))
    ensures a == b
  {
    ReadsBack(c, "", a);
    ReadsBack(c, "", b);
  }

  lemma ReadsBack(c: Crypto, p: string, b: Body)
    requires Laws(c) && JsonBlank(p)
    ensures c.parse(p + c.canon(Obj(b))) == Some(Obj(b))
  {
  }

  lemma ChainHashWidth(c: Crypto, bodies: seq<Body>)
    requires Laws(c)
    ensures |ChainHash(c, bodies)| == c.width
  {
  }

  /** The same preimage splits at the same place: same predecessor, same body. */
  lemma SamePreimage(c: Crypto, a: seq<Body>, i: nat, b: seq<Body>, j: nat)
    requires Laws(c) && i < |a| && j < |b| && Preimage(c, a, i) == Preimage(c, b, j)
    ensures ChainHash(c, a[..i]) == ChainHash(c, b[..j]) && Hashed(a[i]) == Hashed(b[j])
  {
    ChainHashWidth(c, a[..i]);
    ChainHashWidth(c, b[..j]);
    var p, q := Preimage(c, a, i), Preimage(c, b, j);
    var s, t := c.canon(Obj(Hashed(a[i]))), c.canon(Obj(Hashed(b[j])));
    assert p[..c.width] == ChainHash(c, a[..i]) && q[..c.width] == ChainHash(c, b[..j]);
    assert p[c.width..] == Codes(s) && q[c.width..] == Codes(t);
    CodesInjective(s, t);
    CanonInjective(c, Hashed(a[i]), Hashed(b[j]));
  }

  lemma {:induction false} CollidesInPrefix(c: Crypto, a: seq<Body>, b: seq<Body>, m: nat, n: nat)
    requires m <= |a| && n <= |b| && Collides(c, a[..m], b[..n])
    ensures Collides(c, a, b)
  {
    var i: nat, j: nat :| i < m && j < n && Preimage(c, a[..m], i) != Preimage(c, b[..n], j)
      && c.digest(Preimage(c, a[..m], i)) == c.digest(Preimage(c, b[..n], j));
    assert a[..m][..i] == a[..i] && b[..n][..j] == b[..j];
    assert Preimage(c, a, i) == Preimage(c, a[..m], i) && Preimage(c, b, j) == Preimage(c, b[..n], j);
  }

  /** Two numbered chains that end in the same hash are the same chain, unless they collide. */
  lemma {:induction false} SameHashSameChain(c: Crypto, a: seq<Body>, b: seq<Body>)
    requires Laws(c) && Numbered(a) && Numbered(b) && a != [] && b != []
    requires ChainHash(c, a) == ChainHash(c, b)
    ensures a == b || Collides(c, a, b)
    decreases |a|
  {
    var i, j := |a| - 1, |b| - 1;
    assert c.digest(Preimage(c, a, i)) == ChainHash(c, a) && c.digest(Preimage(c, b, j)) == ChainHash(c, b);
    if Preimage(c, a, i) == Preimage(c, b, j) {
      SamePreimage(c, a, i, b, j);
      assert a[i] == b[j] && i == j;
      if i > 0 {
        SameHashSameChain(c, a[..i], b[..j]);
        if a[..i] != b[..j] {
          CollidesInPrefix(c, a, b, i, j);
        }
      }
      if a[..i] == b[..j] {
        assert a == a[..i] + [a[i]] && b == b[..j] + [b[j]];
      }
    }
  }

  lemma {:induction false} SameHashPrefix(c: Crypto, bodies: seq<Body>, chain: seq<Body>, k: nat)
    requires Laws(c) && Numbered(bodies) && Numbered(chain) && bodies != [] && 1 <= k <= |chain|
    requires ChainHash(c, bodies) == ChainHash(c, chain[..k])
    ensures bodies <= chain || Collides(c, bodies, chain)
  {
    SameHashSameChain(c, bodies, chain[..k]);
    if bodies != chain[..k] {
      assert bodies[..|bodies|] == bodies;
      CollidesInPrefix(c, bodies, chain, |bodies|, k);
    }
  }

  // ---- The theorems ----

  /**
   * Whatever was done to the file, if the verifier accepts it then, body for body, it is a prefix of a
   * chain the key holder wrote. So an edit, an insertion, a deletion or a reorder is noticed; only
   * cutting records off the end is not.
   */
  lemma AcceptedIsAuthentic(c: Crypto, lines: seq<string>, chains: set<seq<Body>>)
    requires Laws(c) && Accepted(c, lines) && Walk(c, lines).recordsOk >= 1
    requires forall ch :: ch in chains ==> Numbered(ch)
    ensures var bodies := Bodies(c, lines);
            || (exists ch :: ch in chains && bodies <= ch)
            || (exists ch :: ch in chains && Collides(c, bodies, ch))
            || Forges(c, chains, bodies, Sigs(c, lines))
  {
    AcceptedIsChain(c, lines);
    var bodies := Bodies(c, lines);
    assert bodies[..|bodies|] == bodies;
    var h := ChainHash(c, bodies);
    if Signed(c, chains, h) {
      var ch: seq<Body>, k: nat :| ch in chains && 1 <= k <= |ch| && h == ChainHash(c, ch[..k]);
      SameHashPrefix(c, bodies, ch, k);
    }
  }

  /** The walk's last record has this hash. */
  predicate EndsIn(r: Report, head: seq<Byte>) {
    r.tail.Some? && Hex.Decode(r.tail.value.hashHex) == Some(head)
  }

  /** Truncation is noticed too once the head is known from outside: then the journal is the whole chain. */
  lemma KnownHeadIsWholeChain(c: Crypto, lines: seq<string>, chain: seq<Body>, head: seq<Byte>)
    requires Laws(c) && Numbered(chain) && chain != [] && head == ChainHash(c, chain)
    ensures Accepted(c, lines) && EndsIn(Walk(c, lines), head) ==>
              Bodies(c, lines) == chain || Collides(c, Bodies(c, lines), chain)
  {
    if Accepted(c, lines) && EndsIn(Walk(c, lines), head) {
      AcceptedIsChain(c, lines);
      SameHashSameChain(c, Bodies(c, lines), chain);
    }
  }

  /** The chain a writer's own file holds is numbered and ends in the writer's head hash. */
  lemma WriterChain(c: Crypto, w: Writer)
    requires Laws(c) && Synced(c, w)
    ensures var bodies := Bodies(c, Lines(w.file));
            Numbered(bodies) && |bodies| == w.number + 1 && ChainHash(c, bodies) == w.prev
  {
    AcceptedIsChain(c, Lines(w.file));
    Hex.DecodeOfEncode(w.prev);
  }

  /** Each append adds exactly one body to the chain: the event it was given, numbered and linked. */
  lemma AppendAddsItsEvent(c: Crypto, w: Writer, event: Body)
    requires Laws(c) && Synced(c, w) && w.number < MAX_U64
    ensures Bodies(c, Lines(Append(c, w, event).file))
         == Bodies(c, Lines(w.file)) + [Hashed(Stamped(w.number + 1, w.prev, event))]
  {
    var b := Stamped(Next(w.number), w.prev, event);
    var hash := ContentHash(c, w.prev, b);
    var full := SealedBody(c, b, hash);
    var line := c.canon(Obj(full));
    assert OneLine(line);
    AppendedLine(w.file, line);
    ReadsBack(c, "", full);
    assert "" + line == line;
    assert !Whitespace('{') && !Blank(line);
    SealedBodyHashes(c, b, hash);
    var before := StripAll(Ended(w.file));
    assert before + [] == before == Lines(w.file);
    assert (before + [line])[..|before|] == before;
  }

  /**
   * A journal edited after the fact, against the writer that produced it: if it is still accepted, it is
   * a truncation of what the writer wrote, or it holds a collision or a forgery.
   */
  lemma EditedJournal(c: Crypto, w: Writer, edited: string)
    requires Laws(c) && Synced(c, w)
    requires Accepted(c, Lines(edited)) && Walk(c, Lines(edited)).recordsOk >= 1
    ensures var ours, theirs := Bodies(c, Lines(w.file)), Bodies(c, Lines(edited));
            theirs <= ours || Collides(c, theirs, ours) || Forges(c, {ours}, theirs, Sigs(c, Lines(edited)))
  {
    WriterChain(c, w);
    var ours := Bodies(c, Lines(w.file));
    AcceptedIsAuthentic(c, Lines(edited), {ours});
  }
}

/** Counters as 64-bit words. A model counter is unbounded, and the word is what the program holds of it. */
module Words {

  const WORD: nat := 0x1_0000_0000_0000_0000

  function Word(n: int): (w: nat)
    ensures w < WORD
  {
    n % WORD
  }

  /** A wrapping addition on words is an addition on counters; adding -1 is the wrapping decrement. */
  lemma WordAdds(n: int, more: int)
    ensures Word(n + more) == (Word(n) + Word(more)) % WORD
  {
    var q := n / WORD + more / WORD;
    assert n + more == q * WORD + Word(n) + Word(more);
    if Word(n) + Word(more) < WORD {
      Quotient(n + more, q, Word(n) + Word(more));
    } else {
      Quotient(n + more, q + 1, Word(n) + Word(more) - WORD);
    }
  }

  lemma Quotient(n: int, q: int, r: nat)
    requires n == q * WORD + r && r < WORD
    ensures n % WORD == r
  {
  }
}

/** The machine word. */
module Machine {

  const WORD := 0x1_0000_0000

  /** A word read as a C int. */
  function Signed(w: nat): (i: int)
    ensures i % WORD == w % WORD && -0x8000_0000 <= i < 0x8000_0000
  {
    var x := w % WORD;
    if x < 0x8000_0000 then x else x - WORD
  }

  /** Unsigned arithmetic may be reduced at every step or at the end. */
  lemma Reduced(x: int, d: int)
    ensures (x % WORD + d) % WORD == (x + d) % WORD
  {
    var q := x / WORD;
    var y := x % WORD + d;
    assert x + d == y + q * WORD;
    Periodic(y, q);
  }

  /** What is less than a word is subtracted without loss exactly if a whole number of words is subtracted. */
  lemma Difference(x: nat, d: nat)
    requires x < WORD
    ensures (x - d) % WORD == x <==> d % WORD == 0
  {
    var q := d / WORD;
    Periodic(x - d % WORD, -q);
    assert x - d == x - d % WORD + -q * WORD;
  }

  lemma Congruent(x: nat, d: nat)
    requires x < WORD
    ensures (x - d) % WORD == 0 <==> x == d % WORD
  {
    var q := d / WORD;
    Periodic(x - d % WORD, -q);
    assert x - d == x - d % WORD + -q * WORD;
  }

  lemma Periodic(y: int, q: int)
    ensures (y + q * WORD) % WORD == y % WORD
  {
  }
}

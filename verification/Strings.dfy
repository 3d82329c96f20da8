/** The conversions of string.c over NUL-terminated buffers. */
module Strings {

  const NUL := '\0'

  function Digit(r: nat): char
    requires r < 32
  {
    if r >= 10 then (65 + (r - 10)) as char else (48 + r) as char
  }

  /** The digits of `n`, the most significant first. */
  function Digits(n: nat, base: nat): (s: string)
    requires 2 <= base <= 32
    ensures |s| > 0
  {
    if n < base then [Digit(n)] else Digits(n / base, base) + [Digit(n % base)]
  }

  /** The digits of `n`, the least significant first; none for 0. */
  function LowFirst(n: nat, base: nat): (s: string)
    requires 2 <= base <= 32
  {
    if n == 0 then [] else [Digit(n % base)] + LowFirst(n / base, base)
  }

  function Abs(value: int): nat {
    if value < 0 then -value else value
  }

  /** What itoa writes: a minus sign only in base 10. */
  function Numeral(value: int, base: nat): (s: string)
    requires 2 <= base <= 32
    ensures |s| > 0
  {
    (if value < 0 && base == 10 then ['-'] else []) + Digits(Abs(value), base)
  }

  function Backwards(s: string): (r: string)
    ensures |r| == |s|
  {
    seq(|s|, i requires 0 <= i < |s| => s[|s| - 1 - i])
  }

  lemma BackwardsAppend(s: string, t: string)
    ensures Backwards(s + t) == Backwards(t) + Backwards(s)
  {
  }

  lemma {:induction false} LowFirstBackwards(n: nat, base: nat)
    requires 2 <= base <= 32 && n > 0
    ensures Backwards(LowFirst(n, base)) == Digits(n, base)
  {
    if n < base {
      assert n / base == 0 && n % base == n by {
        SmallQuotient(n, base);
      }
      assert LowFirst(n / base, base) == [];
    } else {
      Shrinks(n, base);
      LowFirstBackwards(n / base, base);
      BackwardsAppend([Digit(n % base)], LowFirst(n / base, base));
    }
  }

  lemma SmallQuotient(n: nat, base: nat)
    requires n < base
    ensures n / base == 0 && n % base == n
  {
  }

  lemma Shrinks(n: nat, base: nat)
    requires 2 <= base <= n
    ensures 0 < n / base < n
  {
  }

  /** The value of a digit, or 32 for what is no digit. */
  function Value(c: char): (v: nat)
    ensures v <= 32
  {
    if '0' <= c <= '9' then (c as int) - 48
    else if 'A' <= c <= 'V' then (c as int) - 55
    else 32
  }

  lemma ValueOfDigit(r: nat)
    requires r < 32
    ensures Value(Digit(r)) == r && Digit(r) != NUL && Digit(r) != '-'
  {
  }

  predicate AllDigits(s: string, base: nat) {
    forall i :: 0 <= i < |s| ==> Value(s[i]) < base
  }

  /** Reading digits, the most significant first. */
  function Parse(s: string, base: nat): nat {
    if s == [] then 0 else Parse(s[..|s| - 1], base) * base + Value(s[|s| - 1])
  }

  /** Reading a numeral in base 10. */
  function ParseSigned(s: string): int {
    if s != [] && s[0] == '-' then -(Parse(s[1..], 10) as int) else Parse(s, 10)
  }

  /** The digits are digits, do not begin with 0 unless they are "0", and read as the number. */
  lemma {:induction false} DigitsRead(n: nat, base: nat)
    requires 2 <= base <= 32
    ensures var s := Digits(n, base);
            AllDigits(s, base) && Parse(s, base) == n && (s[0] == '0' ==> n == 0) && (n == 0 ==> s == "0")
            && s[0] != '-'
  {
    if n < base {
      ValueOfDigit(n);
      assert Parse([Digit(n)], base) == Parse([], base) * base + Value(Digit(n));
    } else {
      Shrinks(n, base);
      DigitsRead(n / base, base);
      ValueOfDigit(n % base);
      var s := Digits(n / base, base);
      assert (s + [Digit(n % base)])[..|s|] == s;
      Recomposed(n, base);
    }
  }

  lemma Recomposed(n: nat, base: nat)
    requires base > 0
    ensures (n / base) * base + n % base == n
  {
  }

  /** What itoa writes reads as the value in base 10, and as its absolute value in any other base. */
  lemma NumeralReads(value: int, base: nat)
    requires 2 <= base <= 32
    ensures base == 10 ==> ParseSigned(Numeral(value, 10)) == value
    ensures base != 10 ==> Parse(Numeral(value, base), base) == Abs(value)
  {
    DigitsRead(Abs(value), base);
    var d := Digits(Abs(value), base);
    if value < 0 && base == 10 {
      assert Numeral(value, 10)[1..] == d;
    } else {
      assert Numeral(value, base) == d;
    }
  }

  /** A numeral has digits only, after its sign, and does not begin with 0 unless it is "0". */
  lemma NumeralForm(value: int, base: nat)
    requires 2 <= base <= 32
    ensures var s := Numeral(value, base);
            var d := if value < 0 && base == 10 then s[1..] else s;
            AllDigits(d, base) && d != [] && (d[0] == '0' ==> value == 0 && s == "0")
    ensures forall i :: 0 <= i < |Numeral(value, base)| ==> Numeral(value, base)[i] != NUL
  {
    DigitsRead(Abs(value), base);
    var s, d := Numeral(value, base), Digits(Abs(value), base);
    hide Digits, Parse, Value, AllDigits;
    assert (if value < 0 && base == 10 then s[1..] else s) == d;
    DigitsNotNul(d, base);
  }

  lemma DigitsNotNul(s: string, base: nat)
    requires base <= 32 && AllDigits(s, base)
    ensures forall i :: 0 <= i < |s| ==> s[i] != NUL
  {
    assert Value(NUL) == 32;
  }

  /** Two values have the same numeral in base 10 only if they are the same. */
  lemma NumeralInjective(v: int, w: int)
    ensures Numeral(v, 10) == Numeral(w, 10) <==> v == w
  {
    NumeralReads(v, 10);
    NumeralReads(w, 10);
  }

  /** reverse: the cells from `i` to `j`, in place. */
  method Reverse(buffer: array<char>, i: nat, j: int)
    requires i <= j ==> j < buffer.Length
    modifies buffer
    ensures i > j ==> buffer[..] == old(buffer[..])
    ensures i <= j ==> buffer[..] ==
                       old(buffer[..])[..i] + Backwards(old(buffer[..])[i..j + 1]) + old(buffer[..])[j + 1..]
  {
    var a, b := i, j;
    while a < b
      invariant i <= j ==> i <= a <= b + 2 && a - i == j - b
      invariant i > j ==> a == i && b == j
      invariant forall k :: i <= k < a || b < k <= j ==> buffer[k] == old(buffer[i + j - k])
      invariant forall k :: 0 <= k < buffer.Length && (k < i || a <= k <= b || k > j) ==> buffer[k] == old(buffer[k])
    {
      buffer[a], buffer[b] := buffer[b], buffer[a];
      a, b := a + 1, b - 1;
    }
  }

  /** A buffer with `s` written from its start. */
  function Overlay(s: string, was: string): (r: string)
    requires |s| <= |was|
    ensures |r| == |was| && forall k :: 0 <= k < |r| ==> r[k] == if k < |s| then s[k] else was[k]
  {
    s + was[|s|..]
  }

  lemma OverlayNext(s: string, was: string, c: char)
    requires |s| < |was|
    ensures Overlay(s, was)[|s| := c] == Overlay(s + [c], was)
  {
  }

  lemma OverlayNone(was: string)
    ensures Overlay([], was) == was
  {
  }

  /** Copying a buffer onto itself. */
  lemma OverlaySelf(s: string, i: nat)
    requires i <= |s|
    ensures Overlay(s[..i], s) == s
  {
  }

  /** Reversing what stands before the NUL. */
  lemma OverlayReversed(s: string, was: string)
    requires |s| < |was|
    ensures var b := Overlay(Backwards(s) + [NUL], was);
            b[..0] + Backwards(b[0..|s|]) + b[|s|..] == Overlay(s + [NUL], was)
  {
    var b := Overlay(Backwards(s) + [NUL], was);
    assert b[0..|s|] == Backwards(s);
    assert Backwards(Backwards(s)) == s;
    assert b[|s|..] == [NUL] + was[|s| + 1..];
  }

  /** One store into a buffer that `s` has been written to. */
  method Store(buffer: array<char>, i: nat, c: char, ghost s: string, ghost was: string)
    requires i == |s| < |was| == buffer.Length && buffer[..] == Overlay(s, was)
    modifies buffer
    ensures buffer[..] == Overlay(s + [c], was)
  {
    OverlayNext(s, was, c);
    buffer[i] := c;
  }

  /** The digit loop of itoa: the digits from the start of the buffer, the least significant first. */
  method DigitLoop(value: nat, buffer: array<char>, base: nat) returns (i: nat)
    requires 2 <= base <= 32 && |LowFirst(value, base)| <= buffer.Length
    modifies buffer
    ensures i == |LowFirst(value, base)| && buffer[..] == Overlay(LowFirst(value, base), old(buffer[..]))
  {
    hide LowFirst, Overlay;
    var n: nat := value;
    i := 0;
    ghost var done: string := [];
    ghost var was := buffer[..];
    OverlayNone(was);
    while n != 0
      invariant i == |done| <= |was| == buffer.Length && done + LowFirst(n, base) == LowFirst(value, base)
      invariant buffer[..] == Overlay(done, was)
      decreases n
    {
      var r, q := DivMod(n, base);
      NextDigit(done, n, base, r, q);
      if r >= 10 {
        Store(buffer, i, (65 + (r - 10)) as char, done, was);
      } else {
        Store(buffer, i, (48 + r) as char, done, was);
      }
      i := i + 1;
      done := done + [Digit(r)];
      n := q;
    }
    LowFirstOf(0, base);
    assert done + [] == done;
  }

  method DivMod(n: nat, base: nat) returns (r: nat, q: nat)
    requires 2 <= base <= 32
    ensures r == n % base < base && q == n / base
  {
    r, q := n % base, n / base;
  }

  /** The digits of the value; '0' when the loop wrote none. */
  method WriteDigits(value: nat, buffer: array<char>, base: nat) returns (i: nat)
    requires 2 <= base <= 32 && |Digits(value, base)| < buffer.Length
    modifies buffer
    ensures i == |Digits(value, base)| && buffer[..] == Overlay(Backwards(Digits(value, base)), old(buffer[..]))
  {
    hide LowFirst, Digits, Backwards, Overlay;
    LowFirstOf(value, base);
    ghost var was := buffer[..];
    i := DigitLoop(value, buffer, base);
    if i == 0 {
      Store(buffer, i, '0', [], was);
      i := i + 1;
    }
  }

  /** itoa.  The least value of the machine has no absolute value there. */
  method Itoa(value: int, buffer: array<char>, base: int)
    requires -0x8000_0000 < value < 0x8000_0000
    requires 2 <= base <= 32 ==> |Numeral(value, base)| < buffer.Length
    modifies buffer
    ensures !(2 <= base <= 32) ==> buffer[..] == old(buffer[..])
    ensures 2 <= base <= 32 ==> buffer[..] == Overlay(Numeral(value, base) + [NUL], old(buffer[..]))
  {
    hide Digits, Backwards, Overlay;
    if base < 2 || base > 32 {
      return;
    }
    ghost var s, d, was := Numeral(value, base), Digits(Abs(value), base), buffer[..];
    SignLast(d);
    var i := WriteDigits(Abs(value), buffer, base);
    if value < 0 && base == 10 {
      Store(buffer, i, '-', Backwards(d), was);
      i := i + 1;
    }
    Store(buffer, i, NUL, Backwards(s), was);
    OverlayReversed(s, was);
    Reverse(buffer, 0, i - 1);
  }

  lemma SignLast(d: string)
    ensures Backwards(d) + ['-'] == Backwards(['-'] + d) && [] + d == d
  {
  }

  lemma LowFirstOf(n: nat, base: nat)
    requires 2 <= base <= 32
    ensures LowFirst(0, base) == []
    ensures n > 0 ==> LowFirst(n, base) == Backwards(Digits(n, base))
    ensures n == 0 ==> |Digits(n, base)| == 1 && Backwards(Digits(n, base)) == [] + ['0']
  {
    if n > 0 {
      LowFirstBackwards(n, base);
      assert Backwards(Backwards(LowFirst(n, base))) == LowFirst(n, base);
    }
  }

  lemma NextDigit(done: string, n: nat, base: nat, r: nat, q: nat)
    requires 2 <= base <= 32 && n > 0 && r == n % base && q == n / base
    ensures r < 32 && q < n && LowFirst(n, base) != []
    ensures done + LowFirst(n, base) == (done + [Digit(r)]) + LowFirst(q, base)
  {
    if n >= base {
      Shrinks(n, base);
    } else {
      SmallQuotient(n, base);
    }
  }

  predicate Terminated(s: seq<char>, n: nat) {
    n < |s| && s[n] == NUL && forall i :: 0 <= i < n ==> s[i] != NUL
  }

  /** strlen */
  method StrLen(str: array<char>, ghost n: nat) returns (len: nat)
    requires Terminated(str[..], n)
    ensures len == n
  {
    len := 0;
    while str[len] != NUL
      invariant len <= n
      decreases n - len
    {
      len := len + 1;
    }
  }

  /** strcpy, also of a buffer onto itself. */
  method StrCpy(dest: array<char>, src: array<char>, ghost n: nat)
    requires Terminated(src[..], n) && n < dest.Length
    modifies dest
    ensures dest[..] == Overlay(old(src[..])[..n + 1], old(dest[..]))
  {
    hide Overlay;
    ghost var was, s := dest[..], src[..];
    OverlayNone(was);
    assert s[..0] == [];
    var i := 0;
    while src[i] != NUL
      invariant 0 <= i <= n && src[..] == s
      invariant dest[..] == Overlay(s[..i], was)
      decreases n - i
    {
      assert s[..i] + [s[i]] == s[..i + 1];
      OverlaySelf(s, i + 1);
      Store(dest, i, src[i], s[..i], was);
      i := i + 1;
    }
    assert s[..i] + [s[i]] == s[..i + 1];
    Store(dest, i, NUL, s[..i], was);
  }

  /** strlen of what itoa writes is the length of the numeral. */
  lemma NumeralTerminated(value: int, base: nat, was: string)
    requires 2 <= base <= 32 && |Numeral(value, base)| < |was|
    ensures Terminated(Overlay(Numeral(value, base) + [NUL], was), |Numeral(value, base)|)
  {
    NumeralForm(value, base);
  }
}

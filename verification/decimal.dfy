/** Decimal digit strings: the conversions strconv and the time formatter perform between
    natural numbers and their base-10 text. */
module Decimal {

  predicate IsDigit(c: char) {
    '0' <= c <= '9'
  }

  predicate AllDigits(s: string) {
    forall i :: 0 <= i < |s| ==> IsDigit(s[i])
  }

  function DigitChar(d: nat): (c: char)
    requires d < 10
    ensures IsDigit(c)
  {
    ('0' as int + d) as char
  }

  function DigitValue(c: char): (d: nat)
    requires IsDigit(c)
    ensures d < 10 && DigitChar(d) == c
  {
    c as int - '0' as int
  }

  function Pow10(w: nat): (p: nat)
    ensures p >= 1
  {
    if w == 0 then 1 else 10 * Pow10(w - 1)
  }

  /** The number a digit string denotes, leading zeros allowed. */
  function Value(s: string): nat
    requires AllDigits(s)
  {
    if s == [] then 0 else Value(s[..|s| - 1]) * 10 + DigitValue(s[|s| - 1])
  }

  /** The shortest decimal text of `n`. */
  function Digits(n: nat): (s: string)
    ensures |s| > 0 && AllDigits(s)
  {
    if n < 10 then [DigitChar(n)] else Digits(n / 10) + [DigitChar(n % 10)]
  }

  /** The last `w` decimal digits of `n`, with leading zeros. */
  function FixedDigits(n: nat, w: nat): (s: string)
    ensures |s| == w && AllDigits(s)
  {
    if w == 0 then [] else FixedDigits(n / 10, w - 1) + [DigitChar(n % 10)]
  }

  /** The decimal text of `n` padded with zeros to at least `w` characters. */
  function Pad(n: nat, w: nat): (s: string)
    ensures AllDigits(s)
  {
    if n < Pow10(w) then FixedDigits(n, w) else Digits(n)
  }

  /** Reading back the shortest text gives the number. */
  lemma {:induction false} ValueDigits(n: nat)
    ensures Value(Digits(n)) == n
  {
    var s := Digits(n);
    if n < 10 {
      assert s[..0] == [];
    } else {
      assert s[..|s| - 1] == Digits(n / 10);
      ValueDigits(n / 10);
    }
  }

  /** Reading back a fixed-width text gives the number when it fits in the width. */
  lemma {:induction false} ValueFixedDigits(n: nat, w: nat)
    requires n < Pow10(w)
    ensures Value(FixedDigits(n, w)) == n
  {
    if w > 0 {
      var s := FixedDigits(n, w);
      assert s[..|s| - 1] == FixedDigits(n / 10, w - 1);
      assert DigitValue(s[|s| - 1]) == n % 10;
      assert n / 10 < Pow10(w - 1) by {
        assert Pow10(w) == 10 * Pow10(w - 1);
      }
      ValueFixedDigits(n / 10, w - 1);
      assert Value(s) == (n / 10) * 10 + n % 10;
    }
  }

  /** A digit string is the fixed-width text of its own value. */
  lemma {:induction false} FixedDigitsValue(s: string)
    requires AllDigits(s)
    ensures Value(s) < Pow10(|s|)
    ensures FixedDigits(Value(s), |s|) == s
  {
    if s != [] {
      var init := s[..|s| - 1];
      FixedDigitsValue(init);
      var v := Value(s);
      assert v / 10 == Value(init) && v % 10 == DigitValue(s[|s| - 1]);
      assert s == init + [s[|s| - 1]];
    }
  }

  /** The padded text of a number that fits the width has exactly that width and reads
      back as the number. */
  lemma PadFits(n: nat, w: nat)
    requires n < Pow10(w)
    ensures |Pad(n, w)| == w && Value(Pad(n, w)) == n
  {
    ValueFixedDigits(n, w);
  }
}

/**
 * The two numeral systems of an A1 address: the column letters, read as a
 * bijective base-26 numeral (A = 1 .. Z = 26, no digit for zero), and the row
 * digits, read as an ordinary decimal numeral.
 */
module Numerals {

  /** One of the 26 capital letters the letter run may hold. */
  predicate IsUpper(c: char) {
    'A' <= c <= 'Z'
  }

  /** One of the ten ASCII decimal digits. */
  predicate IsDigit(c: char) {
    '0' <= c <= '9'
  }

  predicate AllUpper(s: string) {
    forall i :: 0 <= i < |s| ==> IsUpper(s[i])
  }

  predicate AllDigits(s: string) {
    forall i :: 0 <= i < |s| ==> IsDigit(s[i])
  }

  function Pow26(k: nat): (p: nat)
    ensures p >= 1
  {
    if k == 0 then 1 else 26 * Pow26(k - 1)
  }

  // ---------------------------------------------------------------------------
  // Column letters

  /** The weight of a capital letter: its code minus 64, so A is 1 and Z is 26. */
  function LetterValue(c: char): (v: nat)
    requires IsUpper(c)
    ensures 1 <= v <= 26
  {
    c as int - 64
  }

  /** The letter whose weight is d + 1, that is the letter with code d + 65. */
  function Letter(d: nat): (c: char)
    requires d < 26
    ensures IsUpper(c) && LetterValue(c) == d + 1
  {
    (d + 65) as char
  }

  /**
   * The 1-based column number of a letter run as the decoder sums it: the
   * letter at index i contributes its weight times 26 to the power
   * |s| - 1 - i.  The first letter is the most significant one.
   */
  function DecodeLetters(s: string): (n: nat)
    requires AllUpper(s)
    ensures s != [] ==> n >= 1
  {
    if s == [] then 0 else LetterValue(s[0]) * Pow26(|s| - 1) + DecodeLetters(s[1..])
  }

  /**
   * Reference reading of the same numeral, least significant letter last:
   * the value of a run is 26 times the value of the run without its last
   * letter, plus the weight of that letter.
   */
  function BijectiveValue(s: string): nat
    requires AllUpper(s)
  {
    if s == [] then 0 else 26 * BijectiveValue(s[..|s| - 1]) + LetterValue(s[|s| - 1])
  }

  /** Appending a letter to a run multiplies its value by 26 and adds the letter's weight. */
  lemma {:induction false} DecodeLettersSnoc(s: string, c: char)
    requires AllUpper(s) && IsUpper(c)
    ensures AllUpper(s + [c])
    ensures DecodeLetters(s + [c]) == 26 * DecodeLetters(s) + LetterValue(c)
    decreases |s|
  {
    var t := s + [c];
    assert forall i :: 0 <= i < |t| ==> IsUpper(t[i]);
    if s != [] {
      assert t[1..] == s[1..] + [c];
      DecodeLettersSnoc(s[1..], c);
      var a, p := LetterValue(s[0]), Pow26(|s| - 1);
      assert DecodeLetters(t) == a * (26 * p) + (26 * DecodeLetters(s[1..]) + LetterValue(c));
      ShiftWeight(a, p);
    }
  }

  lemma ShiftWeight(a: nat, p: nat)
    ensures a * (26 * p) == 26 * (a * p)
  {
  }

  /** The positional sum the decoder computes is the bijective base-26 value. */
  lemma {:induction false} DecodeLettersIsBijectiveValue(s: string)
    requires AllUpper(s)
    ensures DecodeLetters(s) == BijectiveValue(s)
    decreases |s|
  {
    if s != [] {
      var init := s[..|s| - 1];
      assert s == init + [s[|s| - 1]];
      DecodeLettersIsBijectiveValue(init);
      DecodeLettersSnoc(init, s[|s| - 1]);
    }
  }

  /**
   * The letter run of the zero-based column n: the last letter stands for
   * n mod 26, and what precedes it encodes n / 26 - 1, the quotient less the
   * carry that a numeral without a zero digit needs.  Nothing precedes it
   * once that is negative.
   */
  function EncodeColumn(n: nat): (s: string)
    ensures s != [] && AllUpper(s)
    decreases n
  {
    if n < 26 then [Letter(n)] else EncodeColumn(n / 26 - 1) + [Letter(n % 26)]
  }

  /** Decoding the letters of column n gives its 1-based number n + 1. */
  lemma {:induction false} DecodeEncodeColumn(n: nat)
    ensures DecodeLetters(EncodeColumn(n)) == n + 1
    decreases n
  {
    var s := EncodeColumn(n);
    DecodeLettersIsBijectiveValue(s);
    if n >= 26 {
      var m := n / 26 - 1;
      DecodeEncodeColumn(m);
      DecodeLettersIsBijectiveValue(EncodeColumn(m));
      assert s[..|s| - 1] == EncodeColumn(m);
      assert BijectiveValue(s) == 26 * (m + 1) + n % 26 + 1;
    }
  }

  /**
   * Every non-empty letter run is the encoding of exactly one column: the
   * numeral has no leading-zero forms, so letters -> column -> letters is
   * the identity.
   */
  lemma {:induction false} EncodeDecodeLetters(s: string)
    requires s != [] && AllUpper(s)
    ensures EncodeColumn(DecodeLetters(s) - 1) == s
    decreases |s|
  {
    DecodeLettersIsBijectiveValue(s);
    var init := s[..|s| - 1];
    var v := LetterValue(s[|s| - 1]);
    var n := DecodeLetters(s) - 1;
    assert n == 26 * BijectiveValue(init) + (v - 1);
    assert n % 26 == v - 1 && n / 26 == BijectiveValue(init);
    assert Letter(v - 1) == s[|s| - 1];
    if init == [] {
      assert s == [s[0]];
    } else {
      DecodeLettersIsBijectiveValue(init);
      EncodeDecodeLetters(init);
      assert s == init + [s[|s| - 1]];
    }
  }

  // ---------------------------------------------------------------------------
  // Row digits

  function DigitValue(c: char): (v: nat)
    requires IsDigit(c)
    ensures v < 10
  {
    c as int - '0' as int
  }

  function Digit(d: nat): (c: char)
    requires d < 10
    ensures IsDigit(c) && DigitValue(c) == d
  {
    (d + '0' as int) as char
  }

  /**
   * The value of a decimal digit run, leading zeros included.  A run that
   * does not start with `0` has a value of at least 1.
   */
  function DecimalToNat(s: string): (n: nat)
    requires AllDigits(s)
    ensures s != [] && s[0] != '0' ==> n >= 1
  {
    if s == [] then 0 else 10 * DecimalToNat(s[..|s| - 1]) + DigitValue(s[|s| - 1])
  }

  /** A digit run has the value 0 exactly when every digit is `0`. */
  lemma {:induction false} DecimalZeroIff(s: string)
    requires AllDigits(s)
    ensures DecimalToNat(s) == 0 <==> forall i :: 0 <= i < |s| ==> s[i] == '0'
    decreases |s|
  {
    if s != [] {
      var init := s[..|s| - 1];
      DecimalZeroIff(init);
      assert forall i :: 0 <= i < |init| ==> init[i] == s[i];
    }
  }

  /** The shortest decimal form of n: never empty, no leading zero unless n is 0. */
  function NatToDecimal(n: nat): (s: string)
    ensures s != [] && AllDigits(s)
    ensures s[0] == '0' <==> n == 0
    decreases n
  {
    if n < 10 then [Digit(n)] else NatToDecimal(n / 10) + [Digit(n % 10)]
  }

  /** Reading back the decimal form of n gives n. */
  lemma {:induction false} DecimalRoundTrip(n: nat)
    ensures DecimalToNat(NatToDecimal(n)) == n
    decreases n
  {
    if n >= 10 {
      DecimalRoundTrip(n / 10);
      var s := NatToDecimal(n);
      assert s[..|s| - 1] == NatToDecimal(n / 10);
    }
  }

  /** A digit run without a leading zero is the decimal form of its own value. */
  lemma {:induction false} CanonicalDecimal(s: string)
    requires s != [] && AllDigits(s) && s[0] != '0'
    ensures NatToDecimal(DecimalToNat(s)) == s
    decreases |s|
  {
    var init := s[..|s| - 1];
    var n := DecimalToNat(s);
    assert n % 10 == DigitValue(s[|s| - 1]) && n / 10 == DecimalToNat(init);
    assert Digit(n % 10) == s[|s| - 1];
    if init == [] {
      assert s == [s[0]];
    } else {
      CanonicalDecimal(init);
      assert s == init + [s[|s| - 1]];
    }
  }

  /**
   * A digit run of positive value is the decimal form of its value exactly
   * when it has no leading zero.
   */
  lemma CanonicalDecimalIff(s: string)
    requires s != [] && AllDigits(s) && DecimalToNat(s) >= 1
    ensures NatToDecimal(DecimalToNat(s)) == s <==> s[0] != '0'
  {
    if s[0] != '0' {
      CanonicalDecimal(s);
    }
  }
}

/**
 * The recogniser of A1 addresses: an optional `$`, a non-empty run of
 * capital letters, an optional `$`, a non-empty run of decimal digits, and
 * nothing after them.  It splits a matching input into its four pieces.
 */
module Grammar {
  import opened Wrappers
  import opened Numerals

  /**
   * The lexical pieces of an address: whether a `$` precedes the letters,
   * the letter run, whether a `$` precedes the digits, and the digit run.
   */
  datatype Pieces = Pieces(marker1: bool, letters: string, marker2: bool, digits: string)

  /** The text of an optional absolute marker. */
  function Marker(present: bool): string {
    if present then "$" else ""
  }

  /** The text a decomposition stands for. */
  function Spell(p: Pieces): string {
    Marker(p.marker1) + p.letters + (Marker(p.marker2) + p.digits)
  }

  /** The pieces the grammar allows: both runs non-empty and drawn from their alphabets. */
  predicate WellFormed(p: Pieces) {
    p.letters != [] && AllUpper(p.letters) && p.digits != [] && AllDigits(p.digits)
  }

  /** An optional `$`: consumes it when the input starts with one. */
  function OptDollar(s: string): (r: (bool, string))
    ensures s == Marker(r.0) + r.1
    ensures r.0 <==> s != [] && s[0] == '$'
  {
    if s != [] && s[0] == '$' then (true, s[1..]) else (false, s)
  }

  /** An optional marker in front of text that does not start with `$` is read back as written. */
  lemma OptDollarOf(present: bool, rest: string)
    requires rest != [] && rest[0] != '$'
    ensures OptDollar(Marker(present) + rest) == (present, rest)
  {
    if !present {
      assert Marker(present) + rest == rest;
    }
  }

  /**
   * The length of the letter run at the start of s: the scan stops at the
   * first character that is not a capital letter.
   */
  function LetterRunLength(s: string): (k: nat)
    ensures k <= |s| && AllUpper(s[..k])
    ensures k < |s| ==> !IsUpper(s[k])
  {
    if s == [] || !IsUpper(s[0]) then 0 else 1 + LetterRunLength(s[1..])
  }

  /**
   * The length of the digit run at the start of s: the scan stops at the
   * first character that is not a decimal digit.
   */
  function DigitRunLength(s: string): (k: nat)
    ensures k <= |s| && AllDigits(s[..k])
    ensures k < |s| ==> !IsDigit(s[k])
  {
    if s == [] || !IsDigit(s[0]) then 0 else 1 + DigitRunLength(s[1..])
  }

  /** A letter run followed by a non-letter or by the end has the scanned length. */
  lemma {:induction false} LetterRunOf(letters: string, rest: string)
    requires AllUpper(letters)
    requires rest != [] ==> !IsUpper(rest[0])
    ensures LetterRunLength(letters + rest) == |letters|
    decreases |letters|
  {
    if letters != [] {
      assert (letters + rest)[1..] == letters[1..] + rest;
      LetterRunOf(letters[1..], rest);
    }
  }

  /** A digit run at the end of the input is scanned whole. */
  lemma {:induction false} DigitRunOf(digits: string)
    requires AllDigits(digits)
    ensures DigitRunLength(digits) == |digits|
    decreases |digits|
  {
    if digits != [] {
      DigitRunOf(digits[1..]);
    }
  }

  /** Spell, read from the right: the first marker, then the text after it. */
  lemma SpellSplit(p: Pieces)
    ensures Spell(p) == Marker(p.marker1) + (p.letters + (Marker(p.marker2) + p.digits))
  {
    var m1, m2 := Marker(p.marker1), Marker(p.marker2);
    assert m1 + p.letters + m2 + p.digits == m1 + (p.letters + (m2 + p.digits));
  }

  /**
   * The recogniser, in the order the source runs its steps: the optional
   * `$`, then the letter run, then the rest.  Whatever it accepts is well
   * formed.
   */
  function Parse(input: string): (r: Option<Pieces>)
    ensures r.Some? ==> WellFormed(r.value)
  {
    ParseLetters(OptDollar(input).0, OptDollar(input).1)
  }

  /** Whatever the recogniser accepts spells the whole input: nothing is skipped or left over. */
  lemma ParseSound(input: string, p: Pieces)
    requires Parse(input) == Some(p)
    ensures Spell(p) == input
  {
    ParseLettersSound(OptDollar(input).0, OptDollar(input).1, p);
    SpellSplit(p);
  }

  /**
   * The letter run must be non-empty; it is followed by the digit part.
   * What is accepted is well formed and keeps the first marker.
   */
  function ParseLetters(marker1: bool, s: string): (r: Option<Pieces>)
    ensures r.Some? ==> r.value.marker1 == marker1 && WellFormed(r.value)
  {
    var k := LetterRunLength(s);
    if k == 0 then None else ParseDigits(marker1, s[..k], s[k..])
  }

  /**
   * The optional `$` before the digits, then the digit run, which must be
   * non-empty and must end the input: anything left after it is rejected.
   * What is accepted keeps the letters and has a non-empty digit run.
   */
  function ParseDigits(marker1: bool, letters: string, s: string): (r: Option<Pieces>)
    ensures r.Some? ==> r.value.marker1 == marker1 && r.value.letters == letters
    ensures r.Some? ==> r.value.digits != [] && AllDigits(r.value.digits)
  {
    var (marker2, afterMarker2) := OptDollar(s);
    var j := DigitRunLength(afterMarker2);
    if j == 0 || j < |afterMarker2| then None
    else Some(Pieces(marker1, letters, marker2, afterMarker2))
  }

  /** After the letters, what is accepted is the second marker and the digits, with nothing left over. */
  lemma ParseDigitsSound(marker1: bool, letters: string, s: string, p: Pieces)
    requires ParseDigits(marker1, letters, s) == Some(p)
    ensures s == Marker(p.marker2) + p.digits
  {
  }

  /** After the first marker, what is accepted is the letters, the second marker and the digits. */
  lemma ParseLettersSound(marker1: bool, s: string, p: Pieces)
    requires ParseLetters(marker1, s) == Some(p)
    ensures s == p.letters + (Marker(p.marker2) + p.digits)
  {
    var k := LetterRunLength(s);
    var letters, rest := s[..k], s[k..];
    assert s == letters + rest;
    ParseDigitsSound(marker1, letters, rest, p);
  }

  lemma ParseDigitsSpell(p: Pieces)
    requires WellFormed(p)
    ensures ParseDigits(p.marker1, p.letters, Marker(p.marker2) + p.digits) == Some(p)
  {
    OptDollarOf(p.marker2, p.digits);
    DigitRunOf(p.digits);
  }

  lemma ParseLettersSpell(p: Pieces)
    requires WellFormed(p)
    ensures ParseLetters(p.marker1, p.letters + (Marker(p.marker2) + p.digits)) == Some(p)
  {
    var tail := Marker(p.marker2) + p.digits;
    var s := p.letters + tail;
    assert !IsUpper(tail[0]);
    LetterRunOf(p.letters, tail);
    assert s[..|p.letters|] == p.letters && s[|p.letters|..] == tail;
    ParseDigitsSpell(p);
  }

  /** Every well-formed decomposition is recognised in the text it spells. */
  lemma ParseSpell(p: Pieces)
    requires WellFormed(p)
    ensures Parse(Spell(p)) == Some(p)
  {
    var rest := p.letters + (Marker(p.marker2) + p.digits);
    SpellSplit(p);
    assert rest[0] == p.letters[0];
    OptDollarOf(p.marker1, rest);
    ParseLettersSpell(p);
  }

  /**
   * The recogniser succeeds with pieces p exactly when p is well formed and
   * spells the whole input: nothing is skipped, nothing is left over, and
   * the decomposition is unique.
   */
  lemma ParseIff(input: string, p: Pieces)
    ensures Parse(input) == Some(p) <==> WellFormed(p) && Spell(p) == input
  {
    if WellFormed(p) && Spell(p) == input {
      ParseSpell(p);
    }
    if Parse(input) == Some(p) {
      ParseSound(input, p);
    }
  }

  /**
   * The letter test of the source decodes each byte it inspects as a
   * one-byte string; that succeeds only for ASCII.  The test is applied to
   * every letter and to the first byte after the letter run (after the
   * optional leading `$`), so this predicate holds when that byte is ASCII.
   */
  predicate LetterScanAscii(input: string) {
    var afterMarker1 := OptDollar(input).1;
    var k := LetterRunLength(afterMarker1);
    k < |afterMarker1| ==> afterMarker1[k] as int < 128
  }

  /** A well-formed address never reaches the letter test with a non-ASCII character. */
  lemma SpellScanAscii(p: Pieces)
    requires WellFormed(p)
    ensures LetterScanAscii(Spell(p))
  {
    var tail := Marker(p.marker2) + p.digits;
    var rest := p.letters + tail;
    SpellSplit(p);
    assert rest[0] == p.letters[0];
    OptDollarOf(p.marker1, rest);
    assert tail[0] == '$' || IsDigit(tail[0]);
    assert rest[|p.letters|] == tail[0];
    LetterRunOf(p.letters, tail);
  }

  /**
   * An accepted input starts with `$` or a capital letter and ends with a
   * digit: trailing text after the digits and a missing letter or digit run
   * are rejected.
   */
  lemma AcceptedShape(input: string)
    requires Parse(input).Some?
    ensures |input| >= 2 && (input[0] == '$' || IsUpper(input[0])) && IsDigit(input[|input| - 1])
  {
    var p := Parse(input).value;
    ParseSound(input, p);
    SpellSplit(p);
    var tail := Marker(p.marker2) + p.digits;
    var rest := p.letters + tail;
    assert input == Marker(p.marker1) + rest;
    assert input[|input| - 1] == tail[|tail| - 1] == p.digits[|p.digits| - 1];
    if !p.marker1 {
      assert input[0] == p.letters[0];
    }
  }

  predicate AllAscii(s: string) {
    forall i :: 0 <= i < |s| ==> s[i] as int < 128
  }

  /** On ASCII text the letter test never meets a byte it cannot decode. */
  lemma AsciiScan(input: string)
    requires AllAscii(input)
    ensures LetterScanAscii(input)
  {
    var afterMarker1 := OptDollar(input).1;
    var k := LetterRunLength(afterMarker1);
    if k < |afterMarker1| {
      if OptDollar(input).0 {
        assert afterMarker1[k] == input[k + 1];
      } else {
        assert afterMarker1[k] == input[k];
      }
    }
  }
}

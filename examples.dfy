/**
 * Concrete addresses: the documented examples, the column and row
 * boundaries, and inputs the decoder rejects or reads non-canonically.
 */
module AddressExamples {
  import opened Wrappers
  import opened Numerals
  import opened Grammar
  import opened Addresses

  /** The letters at every digit-length boundary of the bijective numeral. */
  lemma ColumnBoundaries()
    ensures EncodeColumn(0) == "A" && EncodeColumn(25) == "Z"
    ensures EncodeColumn(26) == "AA" && EncodeColumn(27) == "AB"
    ensures EncodeColumn(99) == "CV"
    ensures EncodeColumn(701) == "ZZ" && EncodeColumn(702) == "AAA"
  {
    assert EncodeColumn(0) == [Letter(0)];
    assert EncodeColumn(2) == [Letter(2)];
    assert EncodeColumn(25) == [Letter(25)];
    assert EncodeColumn(26) == EncodeColumn(0) + [Letter(0)];
    assert EncodeColumn(27) == EncodeColumn(0) + [Letter(1)];
    assert EncodeColumn(99) == EncodeColumn(2) + [Letter(21)];
    assert EncodeColumn(701) == EncodeColumn(25) + [Letter(25)];
    assert EncodeColumn(702) == EncodeColumn(26) + [Letter(0)];
  }

  /** Rows are written one-based. */
  lemma RowBoundaries()
    ensures NatToDecimal(1) == "1" && NatToDecimal(23) == "23" && NatToDecimal(100) == "100"
  {
    assert NatToDecimal(1) == [Digit(1)];
    assert NatToDecimal(2) == [Digit(2)];
    assert NatToDecimal(23) == NatToDecimal(2) + [Digit(3)];
    assert NatToDecimal(10) == NatToDecimal(1) + [Digit(0)];
    assert NatToDecimal(100) == NatToDecimal(10) + [Digit(0)];
  }

  /** The address of row 22, column 99 with a pinned column is `$CV23`. */
  lemma PinnedColumnFormat()
    ensures Format(Coordinate(22, 99, true, false)) == "$CV23"
  {
    ColumnBoundaries();
    RowBoundaries();
    assert Format(Coordinate(22, 99, true, false)) == "$" + "CV" + "" + "23";
  }

  /** `$CV23` decodes to row 22, column 99, a relative row and a pinned column. */
  lemma PinnedColumnExample()
    ensures NoPanic("$CV23") && FromAddress("$CV23") == Ok(Coordinate(22, 99, true, false))
  {
    PinnedColumnFormat();
    RoundTrip(Coordinate(22, 99, true, false));
  }

  /** The address of row 22, column 99 with a pinned row is `CV$23`. */
  lemma PinnedRowFormat()
    ensures Format(Coordinate(22, 99, false, true)) == "CV$23"
  {
    ColumnBoundaries();
    RowBoundaries();
    assert Format(Coordinate(22, 99, false, true)) == "" + "CV" + "$" + "23";
  }

  /** `CV$23` is accepted: the `$` before the digits pins the row. */
  lemma PinnedRowExample()
    ensures NoPanic("CV$23") && FromAddress("CV$23") == Ok(Coordinate(22, 99, false, true))
  {
    PinnedRowFormat();
    RoundTrip(Coordinate(22, 99, false, true));
  }

  /** Text without a final digit is rejected, and the error carries the text. */
  lemma RejectedWithoutFinalDigit(input: string)
    requires AllAscii(input)
    requires input == [] || !IsDigit(input[|input| - 1])
    ensures NoPanic(input) && FromAddress(input) == Err(AddressParsingError(input))
  {
    AsciiScan(input);
    if Parse(input).Some? {
      AcceptedShape(input);
    }
  }

  /** Text that starts with neither `$` nor a capital letter is rejected. */
  lemma RejectedBadStart(input: string)
    requires AllAscii(input)
    requires input != [] && input[0] != '$' && !IsUpper(input[0])
    ensures NoPanic(input) && FromAddress(input) == Err(AddressParsingError(input))
  {
    AsciiScan(input);
    if Parse(input).Some? {
      AcceptedShape(input);
    }
  }

  /** The documented rejection: the error carries the whole input. */
  lemma HelloWorldRejected()
    ensures NoPanic("Hello World") && FromAddress("Hello World") == Err(AddressParsingError("Hello World"))
  {
    RejectedWithoutFinalDigit("Hello World");
  }

  lemma NoDigitRunRejected()
    ensures NoPanic("A") && FromAddress("A") == Err(AddressParsingError("A"))
  {
    RejectedWithoutFinalDigit("A");
  }

  lemma NoLetterRunRejected()
    ensures NoPanic("23") && FromAddress("23") == Err(AddressParsingError("23"))
  {
    RejectedBadStart("23");
  }

  lemma LowerCaseRejected()
    ensures NoPanic("a1") && FromAddress("a1") == Err(AddressParsingError("a1"))
  {
    RejectedBadStart("a1");
  }

  lemma TrailingSpaceRejected()
    ensures NoPanic("A1 ") && FromAddress("A1 ") == Err(AddressParsingError("A1 "))
  {
    RejectedWithoutFinalDigit("A1 ");
  }

  lemma TrailingLetterRejected()
    ensures NoPanic("A1X") && FromAddress("A1X") == Err(AddressParsingError("A1X"))
  {
    RejectedWithoutFinalDigit("A1X");
  }

  /** Leading zeros are accepted: `A01` decodes to row 0, column 0. */
  lemma LeadingZeroExample()
    ensures NoPanic("A01") && FromAddress("A01") == Ok(Coordinate(0, 0, true, true))
  {
    var p := Pieces(false, "A", false, "01");
    assert Spell(p) == "A01";
    ParseSpell(p);
    SpellScanAscii(p);
    LeadingZeroValues();
    FromAddressOfPieces("A01", p, Coordinate(0, 0, true, true));
  }

  /** The letter `A` is worth 1, and the digits `01` are worth 1. */
  lemma LeadingZeroValues()
    ensures DecodeLetters("A") == 1 && DecimalToNat("01") == 1
  {
    assert "01"[..1] == "0";
  }

  /** The address of the coordinate `A01` decodes to is `A1`, not `A01`. */
  lemma LeadingZeroFormat()
    ensures Format(Coordinate(0, 0, true, true)) == "A1" != "A01"
  {
    ColumnBoundaries();
    RowBoundaries();
    assert Format(Coordinate(0, 0, true, true)) == "" + "A" + "" + "1";
  }
}

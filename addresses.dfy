/**
 * Spreadsheet cell coordinates and their A1 addresses: decoding an address
 * such as `$CV23` into a zero-based row and column with two relative flags,
 * and encoding a coordinate back into its address.
 */
module Addresses {
  import opened Wrappers
  import opened Numerals
  import opened Grammar

  /** One more than the largest unsigned 32-bit integer. */
  const U32_LIMIT: int := 0x1_0000_0000

  /** One more than the largest signed 32-bit integer. */
  const I32_LIMIT: int := 0x8000_0000

  type uint32 = x: int | 0 <= x < 0x1_0000_0000

  /**
   * A cell: zero-based row and column, and whether each of them is relative
   * (written without a `$`) or pinned (written with one).
   */
  datatype Coordinate = Coordinate(row: uint32, column: uint32, relativeRow: bool, relativeColumn: bool)

  /** The error of a failed decode: the whole text that could not be read. */
  datatype AddressParsingError = AddressParsingError(input: string)

  /** The constructor: stores the four values in the matching fields. */
  function New(row: uint32, column: uint32, relativeRow: bool, relativeColumn: bool): (c: Coordinate)
    ensures c.row == row && c.column == column
    ensures c.relativeRow == relativeRow && c.relativeColumn == relativeColumn
  {
    Coordinate(row, column, relativeRow, relativeColumn)
  }

  /**
   * The inputs on which the decoder returns instead of panicking: the letter
   * test only ever meets ASCII, and, when the grammar matches, the column
   * sum fits in 32 bits and the row number is not 0 (it is decremented).
   */
  predicate NoPanic(address: string) {
    LetterScanAscii(address) &&
    (Parse(address).Some? ==>
      DecodeLetters(Parse(address).value.letters) < U32_LIMIT &&
      DecimalToNat(Parse(address).value.digits) != 0)
  }

  /**
   * On ASCII text the grammar accepts, the decoder returns exactly when the
   * column sum fits in 32 bits and the digit run is not all zeros.
   */
  lemma NoPanicOfAscii(address: string, p: Pieces)
    requires AllAscii(address) && Parse(address) == Some(p)
    ensures NoPanic(address) <==>
      DecodeLetters(p.letters) < U32_LIMIT && !(forall i :: 0 <= i < |p.digits| ==> p.digits[i] == '0')
  {
    AsciiScan(address);
    DecimalZeroIff(p.digits);
  }

  /**
   * Decodes an address.  It fails, carrying the input, exactly when the
   * grammar does not match or the row number does not fit in 32 bits.
   */
  function FromAddress(address: string): (r: Result<Coordinate, AddressParsingError>)
    requires NoPanic(address)
    ensures r.Err? ==> r.error == AddressParsingError(address)
    ensures r.Ok? <==> Parse(address).Some? && DecimalToNat(Parse(address).value.digits) < U32_LIMIT
  {
    match Parse(address)
    case None => Err(AddressParsingError(address))
    case Some(p) =>
      var column := DecodeLetters(p.letters) - 1;
      var rowPlusOne := DecimalToNat(p.digits);
      if rowPlusOne >= U32_LIMIT then
        Err(AddressParsingError(address))
      else
        Ok(New(rowPlusOne - 1, column, !p.marker2, !p.marker1))
  }

  /** What the decoder computes from the pieces of an address it accepts. */
  lemma FromAddressOk(address: string, p: Pieces)
    requires NoPanic(address) && Parse(address) == Some(p) && DecimalToNat(p.digits) < U32_LIMIT
    ensures FromAddress(address).Ok?
    ensures FromAddress(address).value.column == DecodeLetters(p.letters) - 1
    ensures FromAddress(address).value.row == DecimalToNat(p.digits) - 1
    ensures FromAddress(address).value.relativeColumn == !p.marker1
    ensures FromAddress(address).value.relativeRow == !p.marker2
  {
  }

  /** The decoder returns c when the pieces of the address spell out c's numbers and flags. */
  lemma FromAddressOfPieces(address: string, p: Pieces, c: Coordinate)
    requires NoPanic(address) && Parse(address) == Some(p) && c.row < U32_LIMIT - 1
    requires DecodeLetters(p.letters) == c.column + 1 && DecimalToNat(p.digits) == c.row + 1
    requires p.marker1 == !c.relativeColumn && p.marker2 == !c.relativeRow
    ensures FromAddress(address) == Ok(c)
  {
    FromAddressOk(address, p);
    assert FromAddress(address).value == c;
  }

  /**
   * A decoded address is the pinned-column marker, the letters of the
   * decoded column, the pinned-row marker and a digit run whose value is
   * the decoded row plus one: the `$` before the letters pins the column,
   * the one before the digits pins the row.
   */
  lemma DecodedLayout(address: string, c: Coordinate)
    requires NoPanic(address) && FromAddress(address) == Ok(c)
    ensures Parse(address).Some?
    ensures address == Marker(!c.relativeColumn) + EncodeColumn(c.column) + Marker(!c.relativeRow) + Parse(address).value.digits
    ensures DecimalToNat(Parse(address).value.digits) == c.row + 1
  {
    var p := Parse(address).value;
    ParseSound(address, p);
    FromAddressOk(address, p);
    EncodeDecodeLetters(p.letters);
    SpellOfCoordinate(address, p, c);
  }

  lemma SpellOfCoordinate(address: string, p: Pieces, c: Coordinate)
    requires Spell(p) == address && p.letters == EncodeColumn(c.column)
    requires p.marker1 == !c.relativeColumn && p.marker2 == !c.relativeRow
    ensures address == Marker(!c.relativeColumn) + EncodeColumn(c.column) + Marker(!c.relativeRow) + p.digits
  {
  }

  /**
   * The address of a coordinate: `$` when the column is pinned, the column
   * letters, `$` when the row is pinned, and the decimal form of row + 1.
   */
  function Format(c: Coordinate): string {
    Marker(!c.relativeColumn) + EncodeColumn(c.column) + Marker(!c.relativeRow) + NatToDecimal(c.row + 1)
  }

  /** The pieces of the address of c. */
  function FormatPieces(c: Coordinate): (p: Pieces)
    ensures WellFormed(p) && Spell(p) == Format(c)
  {
    Pieces(!c.relativeColumn, EncodeColumn(c.column), !c.relativeRow, NatToDecimal(c.row + 1))
  }

  /** The address of c is recognised, and none of its steps panics. */
  lemma FormatParses(c: Coordinate)
    requires c.column < U32_LIMIT - 1
    ensures Parse(Format(c)) == Some(FormatPieces(c))
    ensures NoPanic(Format(c))
  {
    var p := FormatPieces(c);
    ParseSpell(p);
    SpellScanAscii(p);
    DecodeEncodeColumn(c.column);
    DecimalRoundTrip(c.row + 1);
  }

  /**
   * Decoding the address of a coordinate gives the coordinate back, for
   * every combination of the flags, whenever row + 1 and column + 1 fit in
   * 32 bits.
   */
  lemma RoundTrip(c: Coordinate)
    requires c.row < U32_LIMIT - 1 && c.column < U32_LIMIT - 1
    ensures NoPanic(Format(c)) && FromAddress(Format(c)) == Ok(c)
  {
    var address, p := Format(c), FormatPieces(c);
    FormatParses(c);
    DecodeEncodeColumn(c.column);
    DecimalRoundTrip(c.row + 1);
    FromAddressOfPieces(address, p, c);
  }

  /**
   * A digit run of value 2^32, the one-based number of the last row, is
   * rejected: the decoder refuses a row number that does not fit in 32 bits
   * instead of wrapping it.  The encoder never writes this text, since its
   * row + 1 would overflow first.
   */
  lemma LastRowRejected(c: Coordinate)
    requires c.row == U32_LIMIT - 1 && c.column < U32_LIMIT - 1
    ensures NoPanic(Format(c)) && FromAddress(Format(c)) == Err(AddressParsingError(Format(c)))
  {
    FormatParses(c);
    DecimalRoundTrip(c.row + 1);
  }

  /**
   * Decoding then encoding is the identity exactly on the addresses whose
   * digit run has no leading zero: the letters of a decoded address are
   * always the canonical ones, so only the digits can differ.
   */
  lemma FormatOfDecoded(address: string, c: Coordinate)
    requires NoPanic(address) && FromAddress(address) == Ok(c)
    ensures Format(c) == address <==> Parse(address).value.digits[0] != '0'
  {
    DecodedLayout(address, c);
    var digits := Parse(address).value.digits;
    ParseSound(address, Parse(address).value);
    FormatOfLayout(address, c, digits);
  }

  /** The canonical address equals one with the same prefix exactly when its digits are canonical. */
  lemma FormatOfLayout(address: string, c: Coordinate, digits: string)
    requires digits != [] && AllDigits(digits) && DecimalToNat(digits) == c.row + 1
    requires address == Marker(!c.relativeColumn) + EncodeColumn(c.column) + Marker(!c.relativeRow) + digits
    ensures Format(c) == address <==> digits[0] != '0'
  {
    var head := Marker(!c.relativeColumn) + EncodeColumn(c.column) + Marker(!c.relativeRow);
    CanonicalDecimalIff(digits);
    PrefixCancel(head, NatToDecimal(c.row + 1), digits);
  }

  /** Two texts with the same prefix are equal exactly when what follows it is. */
  lemma PrefixCancel(head: string, x: string, y: string)
    ensures head + x == head + y <==> x == y
  {
    if head + x == head + y {
      assert x == (head + x)[|head|..];
    }
  }

  /** The reversal of a sequence: the character at i comes from |s| - 1 - i. */
  function Reverse(s: string): (r: string)
    ensures |r| == |s|
    ensures forall i :: 0 <= i < |s| ==> r[i] == s[|s| - 1 - i]
  {
    if s == [] then [] else [s[|s| - 1]] + Reverse(s[..|s| - 1])
  }

  /** The letters still to be emitted while the encoder's counter is rest. */
  function Pending(rest: int): string {
    if rest >= 0 then EncodeColumn(rest) else []
  }

  /**
   * One turn of the encoder's loop: emitting the letter for rest mod 26 and
   * moving on to rest / 26 - 1 keeps the pending letters followed by the
   * reversed output equal to the column's letters.
   */
  lemma EmitStep(rest: nat, letters: string)
    ensures Pending(rest) + Reverse(letters)
         == Pending(rest / 26 - 1) + Reverse(letters + [(rest % 26 + 65) as char])
  {
    var letter := (rest % 26 + 65) as char;
    PendingStep(rest);
    ReverseSnoc(letters, letter);
    assert (Pending(rest / 26 - 1) + [letter]) + Reverse(letters)
        == Pending(rest / 26 - 1) + ([letter] + Reverse(letters));
  }

  /** The last pending letter stands for rest mod 26; the ones before it for rest / 26 - 1. */
  lemma PendingStep(rest: nat)
    ensures Pending(rest) == Pending(rest / 26 - 1) + [(rest % 26 + 65) as char]
  {
    if rest < 26 {
      assert rest / 26 - 1 == -1 && rest % 26 == rest;
    }
  }

  /** Reversing a sequence with one more element at the end puts that element first. */
  lemma ReverseSnoc(s: string, x: char)
    ensures Reverse(s + [x]) == [x] + Reverse(s)
  {
    assert (s + [x])[..|s|] == s;
  }

  /**
   * Encodes a coordinate.  The letters are produced least significant
   * first, n mod 26 each time with the carry n / 26 - 1, and reversed at
   * the end.  The column goes through a signed 32-bit integer, and row + 1
   * is computed in 32 bits, hence the bounds.
   */
  method ToAddress(c: Coordinate) returns (address: string)
    requires c.column < I32_LIMIT && c.row < U32_LIMIT - 1
    ensures address == Format(c)
  {
    var letters: string := [];
    var rest: int := c.column;
    while rest >= 0
      invariant rest >= -1
      invariant EncodeColumn(c.column) == Pending(rest) + Reverse(letters)
      decreases rest + 1
    {
      // rest is not negative here, so truncating and Euclidean division agree.
      var letter := (rest % 26 + 65) as char;
      EmitStep(rest, letters);
      letters := letters + [letter];
      rest := rest / 26 - 1;
    }
    assert Pending(rest) + Reverse(letters) == Reverse(letters);
    letters := Reverse(letters);
    var digits := NatToDecimal(c.row + 1);
    address := Marker(!c.relativeColumn) + letters + Marker(!c.relativeRow) + digits;
  }
}

# Spreadsheet cell addresses (A1 notation)

This project models the core of the `spreadsheet_addresses` Rust crate,
which converts between a spreadsheet cell `Coordinate` and its A1 address.

- A coordinate has:
  - a zero-based `row` and `column`, each an unsigned 32-bit integer;
  - two flags, `relativeRow` and `relativeColumn`.
- An address is written in this order:
  1. an optional `$` that pins the column;
  2. a run of capital letters: the column as a bijective base-26 numeral, with `A` = 1 … `Z` = 26;
  3. an optional `$` that pins the row;
  4. a run of decimal digits: the one-based row.

For example, `$CV23` is row 22, column 99, with the row relative and the column pinned.

Modules:

- `Wrappers` (`wrappers.dfy`): the `Option` and `Result` types.
- `Numerals` (`numerals.dfy`): the two numerals.
  - Columns: the positional decoder `DecodeLetters` and a reference reading `BijectiveValue`, proved equal, plus the encoder `EncodeColumn`.
  - Rows: the decimal reader `DecimalToNat` and writer `NatToDecimal`.
- `Grammar` (`grammar.dfy`): the recogniser `Parse`.
  - It runs the same steps as the source: the optional `$`, the letter scan, the optional `$`, the digit run, and the rejection of any leftover text.
  - It is proved equivalent to a declarative description: `Parse(input) == Some(p)` exactly when `p` is well formed and spells `input`.
- `Addresses` (`addresses.dfy`):
  - the `Coordinate` and `AddressParsingError` datatypes;
  - the decoder `FromAddress`;
  - the encoder `ToAddress`, a method with the source's loop;
  - its specification `Format`;
  - the round trip for all four flag combinations.
- `AddressExamples` (`examples.dfy`): the documented examples, the column and row boundaries, and rejected inputs.

Behaviours of the code worth knowing:

- **`CV$23` is accepted.** The optional `$` at `src/lib.rs:56` comes right before the digit run. So `CV$23` decodes to row 22, column 99 with the row pinned (`PinnedRowExample`).
- **Leading zeros in the row are accepted.** `parse::<u32>` at `src/lib.rs:122` reads `01` as 1, so `A01` decodes to row 0, column 0 (`LeadingZeroExample`). The address of that coordinate is `A1` (`LeadingZeroFormat`), and `FormatOfDecoded` states the general rule.
- **Some inputs make the decoder panic rather than fail:**
  - the letter test at `src/lib.rs:54` meets a non-ASCII byte;
  - the column sum at `src/lib.rs:113-115` overflows `u32`;
  - the row number is 0, and the `- 1` at `src/lib.rs:126` underflows.

  The model states these cases as a precondition (`NoPanic`).
- **Row overflow is an error.** A row number that does not fit in 32 bits fails `parse::<u32>`, so the decoder returns `AddressParsingError` (`LastRowRejected`).

## Model

| member | source | states |
|---|---|---|
| Addresses.New | src/lib.rs:42-49 | Each argument lands in the field of the same name. |
| Addresses.NoPanic | src/lib.rs:113-126 | The inputs on which the decoder returns: the letter test only meets ASCII, and on an accepted input the column sum fits in 32 bits and the row number is not 0. |
| Addresses.NoPanicOfAscii | src/lib.rs:113-126 | On accepted ASCII text, the decoder returns exactly when the column sum is below 2^32 and the digits are not all `0`. |
| Addresses.FromAddress | src/lib.rs:101-134 | The error always carries the whole input. The decode succeeds exactly when the grammar matches and the row number fits in 32 bits. |
| Addresses.FromAddressOk | src/lib.rs:107-133 | On an accepted address: column = letter value − 1; row = digit value − 1; relative column iff there is no leading `$`; relative row iff there is no `$` before the digits. |
| Addresses.FromAddressOfPieces | src/lib.rs:101-134 | Pieces that spell a coordinate's numbers and flags decode to exactly that coordinate. |
| Addresses.DecodedLayout | src/lib.rs:128-133 | A decoded address is the column marker, then the canonical letters of the decoded column, then the row marker, then a digit run whose value is row + 1. |
| Addresses.Format | src/lib.rs:162-170 | The assembled address: `$` if the column is pinned, the column letters, `$` if the row is pinned, and the decimal row + 1. Its properties are in `FormatParses`, `RoundTrip` and `FormatOfDecoded`. |
| Addresses.FormatPieces | src/lib.rs:164-170 | An encoded address splits into four well-formed pieces. |
| Addresses.FormatParses | src/lib.rs:151-171 | The recogniser accepts every encoded address with exactly the pieces written, and decoding it does not panic. |
| Addresses.RoundTrip | src/tests.rs:8-54 | For every flag combination and every row and column below 2^32 − 1, decoding `Format(c)` gives back c. With `ToAddress`'s ensures, this is the source's round trip for column < 2^31 and row < 2^32 − 1. |
| Addresses.LastRowRejected | src/lib.rs:118-126 | An address whose digit run has value 2^32 is rejected with the input as the error; it does not wrap. |
| Addresses.FormatOfDecoded | src/lib.rs:118-126 | Re-encoding a decoded coordinate gives back the address exactly when its digit run has no leading zero. |
| Addresses.FormatOfLayout | src/lib.rs:162 | The canonical address equals one with the same prefix and digits of the same value iff those digits have no leading zero. |
| Addresses.Reverse | src/lib.rs:160 | The result has the same length, and its character i is character \|s\| − 1 − i of the input. |
| Addresses.PendingStep | src/lib.rs:157-158 | The letter pushed is the last one still pending, and the carry n / 26 − 1 leaves the ones before it. |
| Addresses.ReverseSnoc | src/lib.rs:160 | Reversing after pushing one more letter puts that letter first. |
| Addresses.EmitStep | src/lib.rs:156-159 | One turn of the encoder loop keeps "pending letters + reversed output" equal to the column's letters. |
| Addresses.ToAddress | src/lib.rs:151-171 | The loop and the final assembly produce exactly `Format(c)`: column marker, column letters, row marker, decimal row + 1. |
| Numerals.Pow26 | src/lib.rs:113 | The positional weight 26^k, never below 1. |
| Numerals.LetterValue | src/lib.rs:112 | A capital letter's weight is between 1 and 26. |
| Numerals.Letter | src/lib.rs:157 | Code 65 + d, for d < 26, is a capital letter of weight d + 1. |
| Numerals.DecodeLetters | src/lib.rs:107-116 | The positional sum of a non-empty letter run is at least 1. |
| Numerals.DecodeLettersSnoc | src/lib.rs:107-116 | Appending a letter multiplies the value by 26 and adds the letter's weight. |
| Numerals.DecodeLettersIsBijectiveValue | src/lib.rs:107-116 | The sum of weight × 26^position equals the bijective base-26 value read from the right. |
| Numerals.EncodeColumn | src/lib.rs:154-160 | The letters of a column are never empty and are all capitals. |
| Numerals.DecodeEncodeColumn | src/lib.rs:154-160 | Decoding the letters of column n gives n + 1. |
| Numerals.EncodeDecodeLetters | src/lib.rs:107-116 | Every non-empty capital run is the encoding of its decoded column; there are no alternative spellings. |
| Numerals.Digit | src/lib.rs:162 | Digit d is a decimal digit character of value d. |
| Numerals.DigitValue | src/lib.rs:118-126 | A digit character's value is below 10. |
| Numerals.NatToDecimal | src/lib.rs:162 | The decimal form is non-empty and all digits, and it starts with `0` iff the number is 0. |
| Numerals.DecimalRoundTrip | src/lib.rs:162 | Reading back the decimal form of n gives n. |
| Numerals.DecimalToNat | src/lib.rs:118-125 | The decimal value of a digit run, leading zeros included; a run that does not start with `0` is worth at least 1. |
| Numerals.DecimalZeroIff | src/lib.rs:126 | A digit run is worth 0, the row number whose `- 1` underflows, exactly when every digit is `0`. |
| Numerals.CanonicalDecimal | src/lib.rs:118-126 | A digit run without a leading zero is the decimal form of its own value. |
| Numerals.CanonicalDecimalIff | src/lib.rs:118-126 | A digit run of positive value is its value's decimal form iff it does not start with `0`. |
| Grammar.OptDollar | src/lib.rs:52 | The input is the consumed marker followed by the rest, and a marker is consumed iff the input starts with `$`. |
| Grammar.OptDollarOf | src/lib.rs:56 | A marker followed by text that does not start with `$` is read back as written. |
| Grammar.LetterRunLength | src/lib.rs:53-55 | The scanned prefix is all capitals, and the scan stops only at the end or at a non-capital. |
| Grammar.DigitRunLength | src/lib.rs:57 | The scanned prefix is all digits, and the scan stops only at the end or at a non-digit. |
| Grammar.LetterRunOf | src/lib.rs:53-55 | A capital run followed by a non-capital, or by nothing, is scanned whole. |
| Grammar.DigitRunOf | src/lib.rs:57 | A digit run that ends the input is scanned whole. |
| Grammar.Parse | src/lib.rs:51-73 | Accepted pieces are well formed: non-empty capital letters and non-empty digits. |
| Grammar.ParseSound | src/lib.rs:58-72 | Accepted pieces spell the whole input; nothing is left over. |
| Grammar.ParseLetters | src/lib.rs:53-55 | The letter stage rejects an empty letter run; what it accepts keeps the first marker and is well formed. |
| Grammar.ParseDigits | src/lib.rs:56-63 | The digit stage rejects an empty digit run and any leftover text; what it accepts keeps the first marker and the letters and has a non-empty digit run. |
| Grammar.ParseDigitsSound | src/lib.rs:56-63 | What the digit stage accepts is exactly the second marker followed by the digits, with nothing left over. |
| Grammar.ParseLettersSound | src/lib.rs:53-63 | What the letter stage accepts is exactly the letters, the second marker and the digits. |
| Grammar.ParseDigitsSpell | src/lib.rs:56-72 | The digit stage accepts every marker + digit-run suffix. |
| Grammar.ParseLettersSpell | src/lib.rs:53-72 | The letter stage accepts every letters + marker + digits suffix. |
| Grammar.ParseSpell | src/lib.rs:51-73 | Every well-formed decomposition is recognised in the text it spells. |
| Grammar.ParseIff | src/lib.rs:51-73 | The recogniser returns p iff p is well formed and spells the input, so the decomposition is unique. |
| Grammar.LetterScanAscii | src/lib.rs:53-55 | The byte the letter test stops at, if any, is ASCII, so its UTF-8 decoding does not panic. |
| Grammar.SpellScanAscii | src/lib.rs:53-55 | On a well-formed address, the letter test never meets a non-ASCII character. |
| Grammar.AcceptedShape | src/lib.rs:51-73 | An accepted input has at least two characters, starts with `$` or a capital, and ends with a digit. |
| Grammar.AsciiScan | src/lib.rs:53-55 | On ASCII input, the letter test's UTF-8 decoding never fails. |
| AddressExamples.ColumnBoundaries | src/lib.rs:154-160 | Columns 0, 25, 26, 27, 99, 701 and 702 are A, Z, AA, AB, CV, ZZ and AAA. |
| AddressExamples.RowBoundaries | src/lib.rs:162 | Rows numbered 1, 23 and 100 are written `1`, `23` and `100`. |
| AddressExamples.PinnedColumnFormat | src/lib.rs:142-149 | Coordinate(22, 99, true, false) is written `$CV23`. |
| AddressExamples.PinnedColumnExample | src/lib.rs:81-92 | `$CV23` decodes to row 22, column 99, relative row, pinned column. |
| AddressExamples.PinnedRowFormat | src/lib.rs:164-170 | Coordinate(22, 99, false, true) is written `CV$23`. |
| AddressExamples.PinnedRowExample | src/lib.rs:101-134 | `CV$23` decodes to row 22, column 99, pinned row, relative column. |
| AddressExamples.RejectedWithoutFinalDigit | src/lib.rs:57-63 | ASCII text that does not end in a digit is rejected with the text as the error. |
| AddressExamples.RejectedBadStart | src/lib.rs:52-55 | ASCII text that starts with neither `$` nor a capital is rejected with the text as the error. |
| AddressExamples.HelloWorldRejected | src/lib.rs:94-99 | `Hello World` is rejected, and the error carries `Hello World`. |
| AddressExamples.NoDigitRunRejected | src/lib.rs:57 | `A` is rejected: the digit run is empty. |
| AddressExamples.NoLetterRunRejected | src/lib.rs:53-55 | `23` is rejected: the letter run is empty. |
| AddressExamples.LowerCaseRejected | src/lib.rs:53-55 | `a1` is rejected: lower-case letters are not column letters. |
| AddressExamples.TrailingSpaceRejected | src/lib.rs:58-63 | `A1 ` is rejected: text is left after the digits. |
| AddressExamples.TrailingLetterRejected | src/lib.rs:58-63 | `A1X` is rejected: text is left after the digits. |
| AddressExamples.LeadingZeroExample | src/lib.rs:118-126 | `A01` is accepted as row 0, column 0, both relative. |
| AddressExamples.LeadingZeroValues | src/lib.rs:112-125 | The letter `A` is worth 1 and the digits `01` are worth 1. |
| AddressExamples.LeadingZeroFormat | src/lib.rs:162 | The coordinate that `A01` decodes to is written `A1`. |

## Left out

- FromAddress: defined only where the source returns rather than panics (`NoPanic`). The source panics in three cases:
  - the letter test decodes a non-ASCII byte as UTF-8;
  - the column sum overflows `u32` in a debug build;
  - the row number is 0, and subtracting 1 underflows.

  Release-build wrap-around on those inputs is not modelled.
- ToAddress: requires `column < 2^31` and `row < 2^32 − 1`. Outside those bounds the source's output is not modelled:
  - it casts the column to `i32` at `src/lib.rs:154`, so a column of 2^31 or more gets no letters, and its address is rejected when decoded;
  - it computes `row + 1` in `u32` at `src/lib.rs:162`, which overflows.
- ToAddress: round trip not stated in its own contract. The method promises `address == Format(c)`. `RoundTrip` proves the round trip about `Format`, for rows and columns below 2^32 − 1. Together they give the source's round trip only within `ToAddress`'s bounds.
- The parser-combinator library's internals, error kinds and the position reported in its error are not modelled: the decoder discards them and reports only the input.
- Text is modelled as a sequence of characters, not UTF-8 bytes. Byte-level decoding matters only where the letter test decodes a single byte, and `LetterScanAscii` captures that.
- The derived `Debug` and `PartialEq` implementations are not modelled. Dafny datatype equality plays the role of `PartialEq`.
- The loop-based tests in `src/tests.rs` check the round trip for rows and columns below 1000. `RoundTrip` with `ToAddress` covers the same flag combinations for every column below 2^31 and every row below 2^32 − 1.

# Italian VAT number validator, modelled in Dafny

This project models `VatNumberValidator`, a validation constraint for
Italian VAT numbers (partita IVA). One call of `validate` runs these steps in order:

1. `null` and the empty string need no checking.
2. A value that is neither scalar nor an object with a string conversion is
   a type error.
3. The value, cast to a string, must have exactly 11 characters. Fewer gives
   `TOO_SHORT_ERROR` and more gives `TOO_LONG_ERROR`.
4. All 11 characters must be decimal digits, or the result is `INVALID_CHARACTERS_ERROR`.
5. A check digit is computed from the first ten digits. The first digit of
   each pair ("odd") is added as it is. The second ("even") is doubled, plus
   one carry for each even digit of 5 or more. The result is
   `(10 - total % 10) % 10`. If it differs from the eleventh digit, the
   outcome is `CHECKSUM_FAILED_ERROR`.
6. Only then is the remote VIES registry asked about the number, with country code `IT`.
   A fault, an empty response or a response without a `valid` field raises
   a warning and adds no violation. `valid = false` gives
   `ONLINE_VALIDATION_FAILED_ERROR`.

Files:

- `vat_number.dfy` (module `VatNumber`): the five violation codes, the predicate `IsStructural` that tells the four local-check codes from the registry's, and the constraint's default message `DEFAULT_MESSAGE`.
- `luhn.dfy` (module `Luhn`): the Luhn mod-10 scheme of ISO/IEC 7812-1, Annex B,
  as an independent reference. It includes the proof that the scheme
  detects every single-digit substitution.
- `vat_number_validator.dfy` (module `VatNumberValidator`):
  - the value, reply and outcome types;
  - the digit helpers;
  - `doubleDigits` and `countDigits` as loop methods proved against
    specification functions;
  - the check digit, with the proof that it is the Luhn scheme;
  - the local checks, the reading of the registry reply, and the whole
    pipeline `Validate`.
- `vat_number_test.dfy` (module `VatNumberTest`): the cases of the
  validator's test suite, as lemmas.

The registry is a parameter of `Validate`: a function from the query
(`CheckVat(countryCode, vatNumber)`) to a reply (`Fault(message)`,
`EmptyResponse`, `MissingValid` or `Answer(valid)`). The outcome is either
`UnexpectedType("string")` or `Completed(violations, warnings, queries)`:
- the violations added, each with its message, code and invalid value;
- the warning messages raised;
- the queries sent to the registry.

A string is a sequence of characters, one per byte of the PHP string. A
digit is one of the ASCII characters `0`..`9`.

`validate` exempts only `null` and the string `''`, by strict `===`
(VatNumberValidator/VatNumberValidator.php:55). `false` casts to `""` and so
gets `TOO_SHORT_ERROR` (`VatNumberTest.FalseIsTooShort`).

## Model

| member | source | states |
|---|---|---|
| `VatNumberValidator.DigitPairs` | VatNumberValidator/VatNumberValidator.php:165 | the scan for the two-digit pattern yields at most half as many pairs as characters, and each pair consists of two digits |
| `VatNumberValidator.DigitPairsOfDigits` | VatNumberValidator/VatNumberValidator.php:163-182 | on a digit string the scan yields exactly the non-overlapping pairs at positions (0,1), (2,3), …; an odd last digit is left out |
| `VatNumberValidator.OddDigits` | VatNumberValidator/VatNumberValidator.php:177-182 | the first digits of the pairs are digit values 0..9, at most half the length of the string |
| `VatNumberValidator.EvenDigits` | VatNumberValidator/VatNumberValidator.php:163-168 | the second digits of the pairs are digit values 0..9, at most half the length of the string |
| `VatNumberValidator.SplitPositions` | VatNumberValidator/VatNumberValidator.php:163-182 | on a digit string the "odd" digits are those at indices 0, 2, 4, … and the "even" digits those at 1, 3, 5, …; on 11 digits, index 10 is in neither |
| `VatNumberValidator.LastDigit` | VatNumberValidator/VatNumberValidator.php:191-194 | the integer value of the last character: that digit's value when it is a digit, 0 otherwise; always in 0..9 |
| `VatNumberValidator.CountAtLeastFive` | VatNumberValidator/VatNumberValidator.php:219-230 | the number of elements ≥ 5 never exceeds the length, and is 0 exactly when every element is below 5 |
| `VatNumberValidator.SumOfDoubled` | VatNumberValidator/VatNumberValidator.php:203-210 | doubling keeps the array's length and doubles its sum |
| `VatNumberValidator.DoubleDigits` | VatNumberValidator/VatNumberValidator.php:203-210 | the element-by-element rewrite of a copy of the array returns an array of the same length whose every element is twice the input's |
| `VatNumberValidator.CountDigits` | VatNumberValidator/VatNumberValidator.php:219-230 | the counting loop returns the number of elements ≥ 5, at most the array's length |
| `VatNumberValidator.Checksum` | VatNumberValidator/VatNumberValidator.php:100-109 | the computed check digit always lies in 0..9 |
| `VatNumberValidator.CarryCountIsLuhn` | VatNumberValidator/VatNumberValidator.php:105-109 | on an even-length digit string, the Luhn weighted sum (digit sum of each doubled digit) equals the validator's total (sum of odd digits, doubled even digits, carry count) minus ten per carry, so the two agree modulo 10 |
| `VatNumberValidator.WeightedSumOfEleven` | VatNumberValidator/VatNumberValidator.php:100-109 | on 11 digits, the Luhn weighted sum equals the validator's total (odd digits, doubled even digits, carry count) less ten per carry, plus the last digit |
| `VatNumberValidator.ChecksumIsLuhn` | VatNumberValidator/VatNumberValidator.php:100-111 | on 11 digits, the computed check digit equals the last digit exactly when the number is valid under the Luhn scheme |
| `VatNumberValidator.ChecksumMatches` | VatNumberValidator/VatNumberValidator.php:100-111 | the step-by-step computation (pairs, doubling, sums, carry count, `(10 - t) % 10`) compares the last digit with the check digit; on 11 digits it succeeds exactly for Luhn-valid numbers |
| `VatNumberValidator.CheckDigitOfPrefix` | VatNumberValidator/VatNumberValidator.php:100-109 | the check digit depends only on the first ten digits: changing the eleventh does not change it |
| `VatNumberValidator.CheckDigitCompletesPrefix` | VatNumberValidator/VatNumberValidator.php:100-120 | of the ten digits that can follow ten given digits, exactly the computed check digit gives a number that passes the checksum |
| `VatNumberValidator.StructuralCheck` | VatNumberValidator/VatNumberValidator.php:66-120 | first failing check wins: `TooShortError` iff shorter than 11, `TooLongError` iff longer, `InvalidCharactersError` iff 11 long with a non-digit, `ChecksumFailedError` iff 11 digits that are not Luhn-valid, no violation iff well formed; any code it reports is a structural one, never `OnlineValidationFailedError` |
| `VatNumberValidator.SingleDigitErrorIsCaught` | VatNumberValidator/VatNumberValidator.php:99-120 | replacing one digit of a number that passes every local check by another digit makes it fail with `ChecksumFailedError` |
| `VatNumberValidator.InterpretReply` | VatNumberValidator/VatNumberValidator.php:123-153 | a reply is rejected iff `valid` is false and confirmed iff it is true; a fault yields its message as a warning, an empty response and a response without `valid` their fixed warnings |
| `VatNumberValidator.Validate` | VatNumberValidator/VatNumberValidator.php:49-154 | null and "" give no violation and no query; the type error happens exactly for values that are neither scalar nor string-convertible; at most one violation, one warning and one query, never a violation together with a warning; a failed local check is reported alone, carrying the cast value, and no query is sent; the registry is asked, with `IT` and the cast value, exactly when every local check passed; then `valid = false` is the only reply that adds a violation (`OnlineValidationFailedError`), and an indeterminate reply only raises a warning: the fault's message or the fixed text for an empty or field-less response |
| `VatNumberValidator.StructuralOutcomeIgnoresRegistry` | VatNumberValidator/VatNumberValidator.php:66-124 | when a local check fails, the outcome is the same for every registry and no query is sent |
| `VatNumberValidator.IndeterminateReplyIsNoViolation` | VatNumberValidator/VatNumberValidator.php:123-153 | for a well-formed number, a fault, empty or field-less reply adds no violation and exactly one warning; the query is the same as when the registry confirms, and a confirmation adds neither a violation nor a warning |
| `VatNumberTest.NullIsValid` | VatNumberValidator/VatNumberTest.php:31-35 | `null`, with the constraint's default message, gives no violation |
| `VatNumberTest.EmptyStringIsValid` | VatNumberValidator/VatNumberTest.php:37-41 | `''`, with the constraint's default message, gives no violation |
| `VatNumberTest.ExpectsStringCompatibleType` | VatNumberValidator/VatNumberTest.php:43-50 | an object without a string conversion gives the type error, with the constraint's default message |
| `VatNumberTest.ValidVatNumberIsWellFormed` | VatNumberValidator/VatNumberTest.php:52-56 | `01743030304` has check digit 4 and passes every local check |
| `VatNumberTest.ValidVatNumber` | VatNumberValidator/VatNumberTest.php:52-56 | with the constraint's default message, `01743030304` is sent to the registry with `IT`; it gives no violation when the registry confirms it, and only a warning when the registry faults |
| `VatNumberTest.TooShort` | VatNumberValidator/VatNumberTest.php:83 | `1234567890` gives exactly `TooShortError` |
| `VatNumberTest.TooLong` | VatNumberValidator/VatNumberTest.php:84 | `123456789012` gives exactly `TooLongError` |
| `VatNumberTest.InvalidCharacters` | VatNumberValidator/VatNumberTest.php:85 | `abcde123456` gives exactly `InvalidCharactersError` |
| `VatNumberTest.ChecksumFailed` | VatNumberValidator/VatNumberTest.php:86 | `12345678901` gives exactly `ChecksumFailedError`; its check digit is 3 |
| `VatNumberTest.OnlineValidationFailed` | VatNumberValidator/VatNumberTest.php:87 | `12345678903` passes the checksum and gives `OnlineValidationFailedError` when the registry rejects it |
| `VatNumberTest.FalseIsTooShort` | VatNumberValidator/VatNumberValidator.php:55-75 | `false`, whose cast is "", is not exempt like the string "" and gives `TooShortError` |

## Left out

- The check that the constraint is a `VatNumber` (VatNumberValidator/VatNumberValidator.php:51-53) is left out. It is framework integration.
- The violation builder is reduced to a `Violation(message, code, invalidValue)` record appended to the outcome. This covers the context, `buildViolation`, `setInvalidValue`, `setCode` and `addViolation`.
- `consumeApi` and the SOAP client built from the WSDL address (VatNumberValidator/VatNumberValidator.php:240-248) are network I/O. They become the `registry` parameter of `Validate`.
- Only `SoapFault` is caught by the source. Any other exception from the call would propagate out of `validate`. The model's replies do not include such exceptions.
- A `valid` field that is not a boolean is not modelled; the reply carries a boolean.
- `trigger_error` is a global logging side effect. It is modelled as the list of warning messages in the outcome.
- The codes' UUID strings, the error-name table and `getDefaultOption` in src/VatNumber.php are framework metadata. Only the five code names and the default message (`VatNumber.DEFAULT_MESSAGE`, used by the test cases that build the constraint without a message) are modelled.
- PHP's string conversion of numbers (float formatting, for one) is not modelled. A scalar carries the string its cast produces.
- `strlen` counts bytes. The model counts one character per element, so multi-byte encodings are not modelled.
- The test harness classes themselves are not modelled. Their cases are the `VatNumberTest` lemmas. The case that depends on the live registry is stated for a registry that rejects the number.

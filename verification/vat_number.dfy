/**
 * The VatNumber constraint: the five violation codes a caller can switch on,
 * and the constraint's default message.
 */
module VatNumber {

  /** The violation codes; distinct constructors, so never confused with each other. */
  datatype Code =
    | TooShortError
    | TooLongError
    | InvalidCharactersError
    | ChecksumFailedError
    | OnlineValidationFailedError

  /** Codes raised by the local format and checksum checks. */
  predicate IsStructural(code: Code) {
    code != OnlineValidationFailedError
  }

  /** The message a violation carries unless the constraint is given another. */
  const DEFAULT_MESSAGE: string := "Invalid VAT number"
}
